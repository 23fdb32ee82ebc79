/** Names and paths of the threat library: `validation.py`, and the layout rule of `service.py`. */
module ThreatPaths {
  import opened Wrappers

  const CATEGORIES: set<string> := {"threats", "for-later-review", "webshells", "escalated_issues_samples"}

  // ---- Segments ------------------------------------------------------------------------------------

  /** `path.split("/")` */
  function Segments(path: string): (segs: seq<string>)
    ensures segs != []
  {
    if path == "" then [""]
    else
      var rest := Segments(path[1..]);
      if path[0] == '/' then [""] + rest else [[path[0]] + rest[0]] + rest[1..]
  }

  /** `"/".join(segs)` */
  function JoinSegments(segs: seq<string>): string {
    if segs == [] then "" else if |segs| == 1 then segs[0] else segs[0] + "/" + JoinSegments(segs[1..])
  }

  predicate IsSegment(s: string) {
    '/' !in s
  }

  lemma {:induction false} SegmentsOfConcat(seg: string, rest: string)
    requires IsSegment(seg)
    ensures Segments(seg + "/" + rest) == [seg] + Segments(rest)
    decreases |seg|
  {
    var path := seg + "/" + rest;
    if seg == "" {
      assert path == "/" + rest && path[1..] == rest;
    } else {
      assert path[0] == seg[0] && path[1..] == seg[1..] + "/" + rest;
      assert forall c :: c in seg[1..] ==> c in seg;
      assert seg[0] in seg;
      SegmentsOfConcat(seg[1..], rest);
      assert [seg[0]] + seg[1..] == seg;
    }
  }

  lemma {:induction false} SegmentsOfOne(seg: string)
    requires IsSegment(seg)
    ensures Segments(seg) == [seg]
    decreases |seg|
  {
    if seg != "" {
      assert forall c :: c in seg[1..] ==> c in seg;
      assert seg[0] in seg;
      SegmentsOfOne(seg[1..]);
      assert [seg[0]] + seg[1..] == seg;
    }
  }

  lemma {:induction false} SegmentsOfJoin(segs: seq<string>)
    requires segs != [] && forall s :: s in segs ==> IsSegment(s)
    ensures Segments(JoinSegments(segs)) == segs
    decreases |segs|
  {
    assert segs[0] in segs && forall s :: s in segs[1..] ==> s in segs;
    if |segs| == 1 {
      SegmentsOfOne(segs[0]);
    } else {
      SegmentsOfJoin(segs[1..]);
      SegmentsOfConcat(segs[0], JoinSegments(segs[1..]));
      assert [segs[0]] + segs[1..] == segs;
    }
  }

  lemma {:induction false} AllAreSegments(path: string)
    ensures forall s :: s in Segments(path) ==> IsSegment(s)
    decreases |path|
  {
    if path != "" {
      AllAreSegments(path[1..]);
      var rest := Segments(path[1..]);
      assert rest[0] in rest && forall s :: s in rest[1..] ==> s in rest;
    }
  }

  lemma {:induction false} JoinOfSegments(path: string)
    ensures JoinSegments(Segments(path)) == path
    decreases |path|
  {
    hide JoinSegments;
    if path == "" {
      OneSegment("");
    } else {
      JoinOfSegments(path[1..]);
      var rest := Segments(path[1..]);
      if path[0] == '/' {
        assert Segments(path) == [""] + rest;
        hide Segments;
        EmptyFirst(rest);
        assert path == "/" + path[1..];
      } else {
        assert Segments(path) == [[path[0]] + rest[0]] + rest[1..];
        hide Segments;
        LongerFirst(path[0], rest);
        assert path == [path[0]] + path[1..];
      }
    }
  }

  lemma OneSegment(s: string)
    ensures JoinSegments([s]) == s
  {}

  lemma EmptyFirst(segs: seq<string>)
    requires segs != []
    ensures JoinSegments([""] + segs) == "/" + JoinSegments(segs)
  {
    assert ([""] + segs)[1..] == segs;
    assert "" + "/" + JoinSegments(segs) == "/" + JoinSegments(segs);
  }

  lemma LongerFirst(c: char, segs: seq<string>)
    requires segs != []
    ensures JoinSegments([[c] + segs[0]] + segs[1..]) == [c] + JoinSegments(segs)
  {
    var longer := [[c] + segs[0]] + segs[1..];
    assert longer[0] == [c] + segs[0] && longer[1..] == segs[1..];
    if |segs| > 1 {
      var more := JoinSegments(segs[1..]);
      assert [c] + segs[0] + "/" + more == [c] + (segs[0] + "/" + more);
    }
  }

  // ---- Checks ---------------------------------------------------------------------------------------

  function LowerChar(c: char): char {
    if 'A' <= c <= 'Z' then c - 'A' + 'a' else c
  }

  function Lower(s: string): string {
    seq(|s|, i requires 0 <= i < |s| => LowerChar(s[i]))
  }

  predicate IsNameChar(c: char) {
    'A' <= c <= 'Z' || 'a' <= c <= 'z' || '0' <= c <= '9' || c == '.' || c == '_' || c == '-'
  }

  /** What `validate_name` accepts. */
  predicate IsName(name: string) {
    0 < |name| <= 255 && name != "." && name != ".." && Lower(name) != ".git" && forall c :: c in name ==> IsNameChar(c)
  }

  /** `posixpath.normpath` of a path that is not absolute: the loop over its segments. */
  function Normal(segs: seq<string>, kept: seq<string>): seq<string>
    decreases |segs|
  {
    if segs == [] then kept
    else
      var s := segs[0];
      if s == "" || s == "." then Normal(segs[1..], kept)
      else if s != ".." || kept == [] || kept[|kept| - 1] == ".." then Normal(segs[1..], kept + [s])
      else Normal(segs[1..], kept[..|kept| - 1])
  }

  function Normpath(path: string): string {
    var segs := Normal(Segments(path), []);
    if segs == [] then "." else JoinSegments(segs)
  }

  predicate HasEmptySegment(path: string) {
    exists i :: 0 <= i < |path| - 1 && path[i] == '/' && path[i + 1] == '/'
  }

  /** `validate_rel_path` */
  function ValidateRelPath(path: string): Result<string> {
    if path == "" then Failure("rel_path is required")
    else if |path| > 1024 then Failure("rel_path longer than 1024 characters")
    else if '\\' in path || '\0' in path then Failure("rel_path must use '/' separators")
    else if path[0] == '/' then Failure("rel_path must be relative")
    else if path[|path| - 1] == '/' then Failure("rel_path must name a file")
    else if HasEmptySegment(path) then Failure("rel_path contains an empty segment")
    else
      var segs := Segments(path);
      if ".." in segs then Failure("rel_path cannot contain '..'")
      else if exists s :: s in segs && Lower(s) == ".git" then Failure("rel_path cannot contain a '.git' segment")
      else
        var n := Normpath(path);
        if n == "." || n == "" || (|n| >= 3 && n[..3] == "../") then Failure("rel_path is invalid") else Success(n)
  }

  /** `.git` in upper or lower case. */
  predicate IsGit(s: string) {
    && |s| == 4 && s[0] == '.' && (s[1] == 'g' || s[1] == 'G') && (s[2] == 'i' || s[2] == 'I')
    && (s[3] == 't' || s[3] == 'T')
  }

  lemma LowerIsGit(s: string)
    ensures Lower(s) == ".git" <==> IsGit(s)
  {
    var t := Lower(s);
    assert |s| == 4 ==> t == [t[0], t[1], t[2], t[3]];
  }

  /** A path whose segments all name something, and none the repository's own directory. */
  ghost predicate IsCleanPath(path: string) {
    path != "" && forall s :: s in Segments(path) ==> s != "" && s != "." && s != ".." && !IsGit(s)
  }

  lemma {:induction false} NormalDrops(segs: seq<string>, kept: seq<string>)
    requires ".." !in segs && (forall s :: s in kept ==> s != "" && s != "." && s != "..")
    ensures forall s :: s in Normal(segs, kept) ==> s != "" && s != "." && s != ".." && (s in segs || s in kept)
    decreases |segs|
  {
    if segs != [] {
      assert segs[0] in segs && forall s :: s in segs[1..] ==> s in segs;
      var kept' := if segs[0] == "" || segs[0] == "." then kept else kept + [segs[0]];
      NormalDrops(segs[1..], kept');
    }
  }

  /** Clean segments stay as they are. */
  lemma {:induction false} NormalKeeps(segs: seq<string>, kept: seq<string>)
    requires forall s :: s in segs ==> s != "" && s != "." && s != ".."
    ensures Normal(segs, kept) == kept + segs
    decreases |segs|
  {
    if segs == [] {
      assert kept + segs == kept;
    } else {
      assert segs[0] in segs && forall s :: s in segs[1..] ==> s in segs;
      NormalKeeps(segs[1..], kept + [segs[0]]);
      assert (kept + [segs[0]]) + segs[1..] == kept + segs;
    }
  }

  /** Clean segments joined make a path without any of the slashes the checks refuse. */
  lemma {:induction false} JoinIsTidy(segs: seq<string>)
    requires segs != [] && forall s :: s in segs ==> s != "" && IsSegment(s)
    ensures var n := JoinSegments(segs); n != "" && n[0] != '/' && n[|n| - 1] != '/' && !HasEmptySegment(n)
    decreases |segs|
  {
    var first := segs[0];
    assert first in segs && first[0] in first && first[|first| - 1] in first;
    if |segs| == 1 {
      forall i | 0 <= i < |first| ensures first[i] != '/' {
        assert first[i] in first;
      }
    } else {
      assert forall s :: s in segs[1..] ==> s in segs;
      JoinIsTidy(segs[1..]);
      var rest := JoinSegments(segs[1..]);
      var n := first + "/" + rest;
      forall i | 0 <= i < |n| - 1 ensures !(n[i] == '/' && n[i + 1] == '/') {
        if i < |first| {
          assert n[i] == first[i] && first[i] in first;
        } else if i == |first| {
          assert n[i + 1] == rest[0];
        } else {
          var j := i - |first| - 1;
          assert n[i] == rest[j] && n[i + 1] == rest[j + 1];
        }
      }
    }
  }

  function TotalLength(segs: seq<string>): nat {
    if segs == [] then 0 else |segs[0]| + 1 + TotalLength(segs[1..])
  }

  lemma {:induction false} TotalOfConcat(a: seq<string>, b: seq<string>)
    ensures TotalLength(a + b) == TotalLength(a) + TotalLength(b)
    decreases |a|
  {
    if a == [] {
      assert a + b == b;
    } else {
      assert (a + b)[0] == a[0] && (a + b)[1..] == a[1..] + b;
      TotalOfConcat(a[1..], b);
    }
  }

  lemma {:induction false} JoinLength(segs: seq<string>)
    requires segs != []
    ensures |JoinSegments(segs)| + 1 == TotalLength(segs)
    decreases |segs|
  {
    if |segs| > 1 {
      JoinLength(segs[1..]);
    }
  }

  lemma {:induction false} SegmentsLength(path: string)
    ensures TotalLength(Segments(path)) == |path| + 1
    decreases |path|
  {
    if path != "" {
      SegmentsLength(path[1..]);
      var rest := Segments(path[1..]);
      assert rest == [rest[0]] + rest[1..];
      var segs := Segments(path);
      if path[0] == '/' {
        assert segs[1..] == rest;
      } else {
        assert segs[1..] == rest[1..];
      }
    }
  }

  lemma {:induction false} NormalShortens(segs: seq<string>, kept: seq<string>)
    requires ".." !in segs
    ensures TotalLength(Normal(segs, kept)) <= TotalLength(segs) + TotalLength(kept)
    decreases |segs|
  {
    if segs != [] {
      assert segs[0] in segs && forall s :: s in segs[1..] ==> s in segs;
      TotalOfConcat(kept, [segs[0]]);
      NormalShortens(segs[1..], if segs[0] == "" || segs[0] == "." then kept else kept + [segs[0]]);
    }
  }

  predicate HasChar(segs: seq<string>, c: char) {
    exists s :: s in segs && c in s
  }

  lemma {:induction false} JoinChars(segs: seq<string>, c: char)
    requires c in JoinSegments(segs)
    ensures c == '/' || HasChar(segs, c)
    decreases |segs|
  {
    if |segs| > 1 {
      var first, rest := segs[0], JoinSegments(segs[1..]);
      assert first in segs;
      if c !in first && c != '/' {
        assert c in rest;
        JoinChars(segs[1..], c);
        var s :| s in segs[1..] && c in s;
        assert s in segs;
      }
    } else if segs != [] {
      assert segs[0] in segs;
    }
  }

  lemma {:induction false} SegmentChars(path: string, c: char)
    ensures HasChar(Segments(path), c) ==> c in path
    decreases |path|
  {
    if path != "" {
      SegmentChars(path[1..], c);
      var rest := Segments(path[1..]);
      assert rest == [rest[0]] + rest[1..];
      if HasChar(Segments(path), c) {
        var s :| s in Segments(path) && c in s;
        if path[0] == '/' {
          assert s == "" || s in rest;
        } else if s in rest[1..] {
          assert s in rest;
        } else {
          assert s == [path[0]] + rest[0] && rest[0] in rest;
        }
      }
    }
  }

  /** What the normalised segments of an accepted path are like. */
  lemma AcceptedSegments(path: string)
    requires ValidateRelPath(path).Success?
    ensures var segs := Normal(Segments(path), []);
      && segs != [] && ValidateRelPath(path) == Success(JoinSegments(segs)) && Segments(JoinSegments(segs)) == segs
      && (forall s :: s in segs ==> s != "" && s != "." && s != ".." && IsSegment(s) && s in Segments(path))
      && (forall s :: s in segs ==> !IsGit(s))
  {
    var segs := Normal(Segments(path), []);
    forall s ensures Lower(s) == ".git" <==> IsGit(s) { LowerIsGit(s); }
    NormalDrops(Segments(path), []);
    AllAreSegments(path);
    SegmentsOfJoin(segs);
  }

  // ---- Which paths are accepted --------------------------------------------------------------------------

  /** Slashes at the ends or side by side are empty segments. */
  lemma {:induction false} EmptySegments(path: string)
    requires path != ""
    ensures "" in Segments(path) <==> path[0] == '/' || path[|path| - 1] == '/' || HasEmptySegment(path)
    ensures "" in Segments(path)[1..] <==> path[|path| - 1] == '/' || HasEmptySegment(path)
    decreases |path|
  {
    var more := path[1..];
    var rest, segs := Segments(more), Segments(path);
    assert rest == [rest[0]] + rest[1..];
    if more == "" {
      assert rest == [""];
    } else {
      EmptySegments(more);
      assert HasEmptySegment(path) <==> (path[0] == '/' && path[1] == '/') || HasEmptySegment(more) by {
        MoreEmpty(path);
      }
      FirstEmpty(more);
    }
    if path[0] == '/' {
      assert segs[1..] == rest && segs[0] == "";
    } else {
      assert segs[1..] == rest[1..];
    }
  }

  lemma MoreEmpty(path: string)
    requires |path| > 1
    ensures HasEmptySegment(path) <==> (path[0] == '/' && path[1] == '/') || HasEmptySegment(path[1..])
  {
    if i :| 0 <= i < |path[1..]| - 1 && path[1..][i] == '/' && path[1..][i + 1] == '/' {
      assert path[i + 1] == '/' && path[i + 2] == '/';
    }
    if i :| 0 <= i < |path| - 1 && path[i] == '/' && path[i + 1] == '/' && i > 0 {
      assert path[1..][i - 1] == '/' && path[1..][i] == '/';
    }
  }

  lemma FirstEmpty(path: string)
    requires path != ""
    ensures Segments(path)[0] == "" <==> path[0] == '/'
  {}

  function WithoutDots(segs: seq<string>): seq<string> {
    if segs == [] then [] else (if segs[0] == "." then [] else [segs[0]]) + WithoutDots(segs[1..])
  }

  lemma {:induction false} NormalIs(segs: seq<string>, kept: seq<string>)
    requires forall s :: s in segs ==> s != "" && s != ".."
    ensures Normal(segs, kept) == kept + WithoutDots(segs)
    ensures forall s :: s in WithoutDots(segs) <==> s in segs && s != "."
    decreases |segs|
  {
    if segs == [] {
      assert kept + [] == kept;
    } else {
      assert segs[0] in segs && (forall s :: s in segs[1..] ==> s in segs) && segs == [segs[0]] + segs[1..];
      var kept' := if segs[0] == "." then kept else kept + [segs[0]];
      NormalIs(segs[1..], kept');
    }
  }

  /** What a path has to be like. */
  ghost predicate IsAcceptable(path: string) {
    && 0 < |path| <= 1024 && '\\' !in path && '\0' !in path
    && (forall s :: s in Segments(path) ==> s != "" && s != ".." && !IsGit(s))
    && exists s :: s in Segments(path) && s != "."
  }

  /** Exactly such paths are accepted, and only their `.` segments are dropped. */
  lemma AcceptedIff(path: string)
    ensures ValidateRelPath(path).Success? <==> IsAcceptable(path)
    ensures IsAcceptable(path) ==> ValidateRelPath(path) == Success(JoinSegments(WithoutDots(Segments(path))))
  {
    hide Segments, Normal, JoinSegments, Lower, IsGit, HasEmptySegment, WithoutDots;
    forall s ensures Lower(s) == ".git" <==> IsGit(s) { LowerIsGit(s); }
    if path != "" {
      EmptySegments(path);
      var segs := Segments(path);
      if forall s :: s in segs ==> s != "" && s != ".." {
        NormalIs(segs, []);
        assert [] + WithoutDots(segs) == WithoutDots(segs);
        NormpathIsValid(path);
      }
    }
  }

  /** The normalised path is refused iff nothing but `.` segments are there. */
  lemma NormpathIsValid(path: string)
    requires Normal(Segments(path), []) == WithoutDots(Segments(path))
    requires forall s :: s in Segments(path) ==> s != "" && s != ".."
    ensures var n := Normpath(path); (n == "." || n == "" || (|n| >= 3 && n[..3] == "../")) <==>
      forall s :: s in Segments(path) ==> s == "."
    ensures (exists s :: s in Segments(path) && s != ".") ==>
      Normpath(path) == JoinSegments(WithoutDots(Segments(path)))
  {
    hide Segments, Normal, JoinSegments, HasEmptySegment, WithoutDots;
    var segs := Segments(path);
    var normal := WithoutDots(segs);
    NormalIs(segs, []);
    if normal == [] {
      assert !exists s :: s in segs && s != ".";
    } else {
      assert normal[0] in normal;
      AllAreSegments(path);
      var n := JoinSegments(normal);
      SegmentsOfJoin(normal);
      JoinIsTidy(normal);
      OneDot(n);
      if |n| >= 3 && n[..3] == "../" {
        FirstSegment(n);
      }
    }
  }

  /** An accepted path has no empty, `.`, `..` or `.git` segment, and is accepted unchanged. */
  lemma ValidatedIsClean(path: string)
    requires ValidateRelPath(path).Success?
    ensures var n := ValidateRelPath(path).value; IsCleanPath(n) && ValidateRelPath(n) == Success(n)
  {
    hide Normal, Segments, JoinSegments, HasEmptySegment, TotalLength;
    AcceptedSegments(path);
    var segs := Normal(Segments(path), []);
    var n := JoinSegments(segs);
    JoinIsTidy(segs);
    NormalKeeps(segs, []);
    assert [] + segs == segs;
    LengthKept(path);
    CharsKept(path, '\\');
    CharsKept(path, '\0');
    if |n| >= 3 && n[..3] == "../" {
      FirstSegment(n);
    }
    OneDot(n);
  }

  lemma LengthKept(path: string)
    requires ValidateRelPath(path).Success?
    ensures |ValidateRelPath(path).value| <= |path|
  {
    AcceptedSegments(path);
    SegmentsLength(path);
    NormalShortens(Segments(path), []);
    JoinLength(Normal(Segments(path), []));
  }

  lemma CharsKept(path: string, c: char)
    requires ValidateRelPath(path).Success? && c !in path && c != '/'
    ensures c !in ValidateRelPath(path).value
  {
    hide ValidateRelPath, Normal;
    AcceptedSegments(path);
    var segs := Normal(Segments(path), []);
    SegmentChars(path, c);
    assert HasChar(segs, c) ==> HasChar(Segments(path), c);
    if c in JoinSegments(segs) {
      JoinChars(segs, c);
    }
  }

  lemma FirstSegment(n: string)
    requires |n| >= 3 && n[..3] == "../"
    ensures ".." in Segments(n)
  {
    assert n == ".." + "/" + n[3..];
    SegmentsOfConcat("..", n[3..]);
  }

  lemma OneDot(n: string)
    ensures n == "." ==> "." in Segments(n)
  {
    if n == "." {
      SegmentsOfOne(".");
    }
  }
}
