/**
 Where a `?` loses rows: between two literals, without a `*` beside it. There it stands for one character of the
 encoded text, and a string with a character in its place that JSON encodes as two is missed. The text of such a
 string is cut into units: a literal character, with characters in front of it that no literal can match.
 */
module QuestionMarks {
  import opened Glob
  import opened LikeTranslation

  // ---- Units --------------------------------------------------------------------------------------------

  datatype Unit = Unit(gap: string, c: char)

  function Text(us: seq<Unit>, tail: string): string {
    if us == [] then tail else us[0].gap + [us[0].c] + Text(us[1..], tail)
  }

  /** What comes in front of the character of unit `b`. */
  function Length(us: seq<Unit>, b: nat): (n: nat)
    requires b < |us|
    ensures n >= |us[0].gap| + b
  {
    |us[0].gap| + if b == 0 then 0 else 1 + Length(us[1..], b - 1)
  }

  ghost predicate AllIn(s: string, soft: set<char>) {
    forall c :: c in s ==> c in soft
  }

  ghost predicate SoftGaps(us: seq<Unit>, tail: string, soft: set<char>) {
    AllIn(tail, soft) && forall u :: u in us ==> AllIn(u.gap, soft)
  }

  ghost predicate HardLiterals(toks: seq<Tok>, soft: set<char>) {
    forall t :: t in toks && t.Lit? ==> t.c !in soft
  }

  function LitCount(toks: seq<Tok>): nat {
    if toks == [] then 0 else (if toks[0].Lit? then 1 else 0) + LitCount(toks[1..])
  }

  /** A character that is in no gap is the character of a unit. */
  lemma {:induction false} CharIsUnit(us: seq<Unit>, tail: string, soft: set<char>, k: nat) returns (b: nat)
    requires SoftGaps(us, tail, soft) && k < |Text(us, tail)| && Text(us, tail)[k] !in soft
    ensures b < |us| && k == Length(us, b) && Text(us, tail)[k] == us[b].c
    ensures Text(us, tail)[k + 1..] == Text(us[b + 1..], tail)
    decreases |us|
  {
    var x := Text(us, tail);
    TailIsSoft(us, tail, soft, k);
    var gap, more := us[0].gap, Text(us[1..], tail);
    assert us[0] in us && forall u :: u in us[1..] ==> u in us;
    assert forall i :: 0 <= i < |gap| ==> x[i] == gap[i] && gap[i] in gap;
    assert x[|gap| + 1..] == more;
    if k == |gap| {
      b := 0;
    } else {
      assert x[k] == more[k - |gap| - 1];
      b := CharIsUnit(us[1..], tail, soft, k - |gap| - 1);
      assert x[k + 1..] == more[k - |gap|..] && us[1..][b + 1..] == us[b + 2..];
      b := b + 1;
    }
  }

  lemma TailIsSoft(us: seq<Unit>, tail: string, soft: set<char>, k: nat)
    requires AllIn(tail, soft) && k < |Text(us, tail)|
    ensures us == [] ==> Text(us, tail)[k] in soft
  {
    assert us == [] ==> Text(us, tail)[k] in tail;
  }

  lemma {:induction false} OnesTaken(run: seq<Tok>, rest: seq<Tok>, s: string)
    requires (forall t :: t in run ==> t.One?) && Matches(run + rest, s)
    ensures |run| <= |s| && Matches(rest, s[|run|..])
    decreases |run|
  {
    if run == [] {
      assert run + rest == rest && s[0..] == s;
    } else {
      assert run[0] in run && forall t :: t in run[1..] ==> t in run;
      assert (run + rest)[0] == run[0] && (run + rest)[1..] == run[1..] + rest;
      OnesTaken(run[1..], rest, s[1..]);
      assert s[1..][|run[1..]|..] == s[|run|..];
    }
  }

  /** A run and the literal behind it take the text up to the character of some unit. */
  lemma NextUnit(run: seq<Tok>, c: char, rest: seq<Tok>, us: seq<Unit>, tail: string, soft: set<char>) returns (b: nat)
    requires AllWild(run) && c !in soft && SoftGaps(us, tail, soft)
    requires Matches(run + ([Lit(c)] + rest), Text(us, tail))
    ensures b < |us| && us[b].c == c && Matches(rest, Text(us[b + 1..], tail))
    ensures Ones(run) <= Length(us, b) && (Many !in run ==> Length(us, b) == |run|)
  {
    hide SoftGaps, Ones, Text, Length;
    var x, more := Text(us, tail), [Lit(c)] + rest;
    var k;
    if Many in run {
      k := RunSplits(run, more, x);
    } else {
      OnesTaken(run, more, x);
      OnlyOnes(run);
      k := |run|;
    }
    assert more[0] == Lit(c) && more[1..] == rest;
    assert x[k..] != "" && x[k..][0] == c && x[k..][1..] == x[k + 1..];
    b := CharIsUnit(us, tail, soft, k);
  }

  /** A pattern is a run of wildcards, or one with a literal behind it. */
  lemma FirstRun(toks: seq<Tok>) returns (run: seq<Tok>, c: char, rest: seq<Tok>, done: bool)
    ensures AllWild(run) && |rest| <= |toks|
    ensures if done then toks == run else toks == run + ([Lit(c)] + rest) && |rest| < |toks|
  {
    var n := RunLength(toks);
    run, done := toks[..n], n == |toks|;
    if done {
      c, rest := 'a', [];
    } else {
      c, rest := toks[n].c, toks[n + 1..];
    }
  }

  lemma {:induction false} RunLengthOf(run: seq<Tok>, more: seq<Tok>)
    requires AllWild(run) && (more != [] ==> more[0].Lit?)
    ensures RunLength(run + more) == |run|
    decreases |run|
  {
    if run == [] {
      assert run + more == more;
    } else {
      assert run[0] in run && forall t :: t in run[1..] ==> t in run;
      assert (run + more)[0] == run[0] && (run + more)[1..] == run[1..] + more;
      RunLengthOf(run[1..], more);
    }
  }

  lemma RestIsIn(run: seq<Tok>, c: char, rest: seq<Tok>)
    ensures var toks := run + ([Lit(c)] + rest); Lit(c) in toks && forall t :: t in rest ==> t in toks
  {}

  lemma {:induction false} LitCountAppends(a: seq<Tok>, b: seq<Tok>)
    ensures LitCount(a + b) == LitCount(a) + LitCount(b)
    decreases |a|
  {
    if a == [] {
      assert a + b == b;
    } else {
      assert (a + b)[0] == a[0] && (a + b)[1..] == a[1..] + b;
      LitCountAppends(a[1..], b);
    }
  }

  lemma {:induction false} NoLits(run: seq<Tok>)
    requires AllWild(run)
    ensures LitCount(run) == 0
    decreases |run|
  {
    if run != [] {
      assert run[0] in run && forall t :: t in run[1..] ==> t in run;
      NoLits(run[1..]);
    }
  }

  lemma LitsBehind(run: seq<Tok>, c: char, rest: seq<Tok>)
    requires AllWild(run)
    ensures LitCount(run + ([Lit(c)] + rest)) == 1 + LitCount(rest)
  {
    hide LitCount;
    NoLits(run);
    LitCountAppends(run, [Lit(c)] + rest);
    LitCountAppends([Lit(c)], rest);
    OneLit(Lit(c));
  }

  lemma OneLit(t: Tok)
    ensures LitCount([t]) == if t.Lit? then 1 else 0
  {
    assert [t][1..] == [];
  }

  /** A text that matches has a unit for every literal. */
  lemma {:induction false} UnitsNeeded(toks: seq<Tok>, us: seq<Unit>, tail: string, soft: set<char>)
    requires HardLiterals(toks, soft) && SoftGaps(us, tail, soft) && Matches(toks, Text(us, tail))
    ensures LitCount(toks) <= |us|
    decreases |toks|
  {
    hide LitCount, Matches, Text, Ones, Length, RunLength, AllWild, SoftGaps, HardLiterals;
    var run, c, rest, done := FirstRun(toks);
    if done {
      NoLits(run);
    } else {
      LitsBehind(run, c, rest);
      HardRest(run, c, rest, soft);
      var b := NextUnit(run, c, rest, us, tail, soft);
      SoftRest(us, tail, soft, b + 1);
      UnitsNeeded(rest, us[b + 1..], tail, soft);
    }
  }

  lemma HardRest(run: seq<Tok>, c: char, rest: seq<Tok>, soft: set<char>)
    requires HardLiterals(run + ([Lit(c)] + rest), soft)
    ensures c !in soft && HardLiterals(rest, soft)
  {
    RestIsIn(run, c, rest);
  }

  lemma SoftRest(us: seq<Unit>, tail: string, soft: set<char>, b: nat)
    requires SoftGaps(us, tail, soft) && b <= |us|
    ensures SoftGaps(us[b..], tail, soft)
  {
    assert forall u :: u in us[b..] ==> u in us;
  }

  // ---- The units of a sample ----------------------------------------------------------------------------

  /** Literal characters that JSON leaves as they are, and quotes. */
  ghost predicate SimpleLiterals(toks: seq<Tok>) {
    forall t :: t in toks && t.Lit? ==> t.c >= ' ' && t.c != '\\'
  }

  /** What a run makes, in the JSON text of the sample. */
  function RunText(run: seq<Tok>, fill: char, gap: string): string {
    JsonText(Sample(run, fill, gap))
  }

  function Escape(c: char): string {
    if c == '"' then "\\" else ""
  }

  /** The units that the literals of a pattern make. */
  function Units(toks: seq<Tok>, fill: char, gap: string): seq<Unit>
    decreases |toks|
  {
    var n := RunLength(toks);
    if n == |toks| then []
    else [Unit(RunText(toks[..n], fill, gap) + Escape(toks[n].c), toks[n].c)] + Units(toks[n + 1..], fill, gap)
  }

  /** What comes behind the last literal. */
  function LastRun(toks: seq<Tok>, fill: char, gap: string): string
    decreases |toks|
  {
    var n := RunLength(toks);
    if n == |toks| then RunText(toks, fill, gap) else LastRun(toks[n + 1..], fill, gap)
  }

  lemma UnitsBehind(run: seq<Tok>, c: char, rest: seq<Tok>, fill: char, gap: string)
    requires AllWild(run)
    ensures var toks := run + ([Lit(c)] + rest);
      && Units(toks, fill, gap) == [Unit(RunText(run, fill, gap) + Escape(c), c)] + Units(rest, fill, gap)
      && LastRun(toks, fill, gap) == LastRun(rest, fill, gap)
  {
    hide RunText, Escape;
    var more := [Lit(c)] + rest;
    var toks := run + more;
    RunLengthOf(run, more);
    assert toks[..|run|] == run && toks[|run|] == Lit(c) && toks[|run| + 1..] == rest;
  }

  lemma NoUnits(run: seq<Tok>, fill: char, gap: string)
    requires AllWild(run)
    ensures Units(run, fill, gap) == [] && LastRun(run, fill, gap) == RunText(run, fill, gap)
  {
    hide RunText;
    RunLengthOf(run, []);
    assert run + [] == run;
  }

  lemma {:induction false} SampleAppends(a: seq<Tok>, b: seq<Tok>, fill: char, gap: string)
    ensures Sample(a + b, fill, gap) == Sample(a, fill, gap) + Sample(b, fill, gap)
    decreases |a|
  {
    if a == [] {
      assert a + b == b;
    } else {
      assert (a + b)[0] == a[0] && (a + b)[1..] == a[1..] + b;
      SampleAppends(a[1..], b, fill, gap);
    }
  }

  lemma OneSample(c: char, fill: char, gap: string)
    ensures Sample([Lit(c)], fill, gap) == [c] && JsonText([c]) == JsonChar(c)
  {
    hide JsonChar;
    assert [Lit(c)][1..] == [] && [c][1..] == "";
    assert [c] + Sample([], fill, gap) == [c] && JsonChar(c) + EncodeWith(JsonChar, "") == JsonChar(c);
  }

  lemma {:induction false} UnitsText(toks: seq<Tok>, fill: char, gap: string, more: string)
    requires SimpleLiterals(toks)
    ensures Text(Units(toks, fill, gap), LastRun(toks, fill, gap) + more) == RunText(toks, fill, gap) + more
    decreases |toks|
  {
    hide Units, LastRun, RunText, RunLength, AllWild, SimpleLiterals, Text, Escape;
    var run, c, rest, done := FirstRun(toks);
    if done {
      NoUnits(run, fill, gap);
      NoText(RunText(run, fill, gap) + more);
    } else {
      SimpleRest(run, c, rest);
      UnitsText(rest, fill, gap, more);
      UnitsBehind(run, c, rest, fill, gap);
      RunTextBehind(run, c, rest, fill, gap);
      FirstText(Unit(RunText(run, fill, gap) + Escape(c), c), Units(rest, fill, gap), LastRun(rest, fill, gap) + more);
      var a, b, e := RunText(run, fill, gap), RunText(rest, fill, gap), Escape(c);
      assert a + e + [c] + (b + more) == a + (e + [c]) + b + more;
    }
  }

  lemma SimpleRest(run: seq<Tok>, c: char, rest: seq<Tok>)
    requires SimpleLiterals(run + ([Lit(c)] + rest))
    ensures c >= ' ' && c != '\\' && SimpleLiterals(rest)
  {
    RestIsIn(run, c, rest);
  }

  lemma NoText(tail: string)
    ensures Text([], tail) == tail
  {}

  lemma FirstText(u: Unit, us: seq<Unit>, tail: string)
    ensures Text([u] + us, tail) == u.gap + [u.c] + Text(us, tail)
  {
    assert ([u] + us)[1..] == us;
  }

  lemma RunTextBehind(run: seq<Tok>, c: char, rest: seq<Tok>, fill: char, gap: string)
    requires c >= ' ' && c != '\\'
    ensures RunText(run + ([Lit(c)] + rest), fill, gap)
      == RunText(run, fill, gap) + (Escape(c) + [c]) + RunText(rest, fill, gap)
  {
    hide Sample, EncodeWith, JsonChar, Escape;
    SampleAppends(run, [Lit(c)] + rest, fill, gap);
    SampleAppends([Lit(c)], rest, fill, gap);
    OneSample(c, fill, gap);
    var s, t := Sample(run, fill, gap), Sample(rest, fill, gap);
    EncodeAppends(JsonChar, s, [c] + t);
    EncodeAppends(JsonChar, [c], t);
    LiteralText(c);
    assert JsonText(s) + (JsonText([c]) + JsonText(t)) == JsonText(s) + JsonText([c]) + JsonText(t);
  }

  lemma LiteralText(c: char)
    requires c >= ' ' && c != '\\'
    ensures JsonChar(c) == Escape(c) + [c]
  {
    assert Escape(c) + [c] == if c == '"' then ['\\', c] else [c];
  }

  /** A run makes two characters for every `?`, and its gaps. */
  lemma {:induction false} RunIsSoft(run: seq<Tok>, fill: char, gap: string, soft: set<char>)
    requires AllWild(run) && (fill == '"' || fill == '\\') && fill in soft && '\\' in soft && AllIn(gap, {'\\'})
    ensures var x := RunText(run, fill, gap);
      AllIn(x, soft) && |x| >= 2 * Ones(run) && (Many !in run ==> |x| == 2 * Ones(run))
        && (Many in run ==> |x| >= 2 * |gap|)
    decreases |run|
  {
    hide RunText;
    if run == [] {
      EmptyRun(fill, gap);
    } else {
      assert run[0] in run && forall t :: t in run[1..] ==> t in run;
      assert run == [run[0]] + run[1..];
      RunIsSoft(run[1..], fill, gap, soft);
      FirstIsSoft(fill, gap);
      RunTextFirst(run, fill, gap);
    }
  }

  lemma EmptyRun(fill: char, gap: string)
    ensures RunText([], fill, gap) == ""
  {}

  lemma RunTextFirst(run: seq<Tok>, fill: char, gap: string)
    requires run != [] && !run[0].Lit?
    ensures RunText(run, fill, gap) == JsonText(if run[0].One? then [fill] else gap) + RunText(run[1..], fill, gap)
  {
    hide EncodeWith, JsonChar;
    EncodeAppends(JsonChar, if run[0].One? then [fill] else gap, Sample(run[1..], fill, gap));
  }

  lemma FirstIsSoft(fill: char, gap: string)
    requires (fill == '"' || fill == '\\') && AllIn(gap, {'\\'})
    ensures JsonText([fill]) == ['\\', fill]
    ensures AllIn(JsonText(gap), {'\\'}) && |JsonText(gap)| == 2 * |gap|
  {
    OneSample(fill, fill, gap);
    BackslashesInJson(gap);
  }

  lemma {:induction false} BackslashesInJson(gap: string)
    requires AllIn(gap, {'\\'})
    ensures AllIn(JsonText(gap), {'\\'}) && |JsonText(gap)| == 2 * |gap|
    decreases |gap|
  {
    if gap != "" {
      assert gap[0] in gap && forall c :: c in gap[1..] ==> c in gap;
      BackslashesInJson(gap[1..]);
    }
  }

  lemma {:induction false} UnitsAreSoft(toks: seq<Tok>, fill: char, gap: string, soft: set<char>)
    requires (fill == '"' || fill == '\\') && fill in soft && '\\' in soft && AllIn(gap, {'\\'})
    ensures SoftGaps(Units(toks, fill, gap), LastRun(toks, fill, gap), soft)
    ensures |Units(toks, fill, gap)| == LitCount(toks)
    decreases |toks|
  {
    hide Units, LastRun, RunText, RunLength, Ones, LitCount;
    var run, c, rest, done := FirstRun(toks);
    RunIsSoft(run, fill, gap, soft);
    if done {
      NoUnits(run, fill, gap);
      NoLits(run);
    } else {
      UnitsAreSoft(rest, fill, gap, soft);
      UnitsBehind(run, c, rest, fill, gap);
      LitsBehind(run, c, rest);
      assert AllIn(RunText(run, fill, gap) + Escape(c), soft);
    }
  }

  // ---- Runs that are only `?` ---------------------------------------------------------------------------

  /** Some run in front of a literal is only `?`. */
  ghost predicate Bare(toks: seq<Tok>)
    decreases |toks|
  {
    var n := RunLength(toks);
    n < |toks| && ((n > 0 && Many !in toks[..n]) || Bare(toks[n + 1..]))
  }

  lemma BareBehind(run: seq<Tok>, c: char, rest: seq<Tok>)
    requires AllWild(run)
    ensures Bare(run + ([Lit(c)] + rest)) <==> (run != [] && Many !in run) || Bare(rest)
  {
    var more := [Lit(c)] + rest;
    var toks := run + more;
    RunLengthOf(run, more);
    assert toks[..|run|] == run && toks[|run|] == Lit(c) && toks[|run| + 1..] == rest;
  }

  lemma NotBare(run: seq<Tok>)
    requires AllWild(run)
    ensures !Bare(run)
  {
    RunLengthOf(run, []);
    assert run + [] == run;
  }

  lemma {:induction false} BareRunIsBare(toks: seq<Tok>, i: nat, k: nat)
    requires BareRun(toks, i, k)
    ensures RunLength(toks) < |toks| && Bare(toks[RunLength(toks) + 1..])
    decreases |toks|
  {
    LitInFront(toks, i);
    var n := RunLength(toks);
    var rest := toks[n + 1..];
    if n == i {
      RunEnds(rest, k - n - 1);
    } else {
      assert forall j :: i - n - 1 <= j <= k - n - 1 ==> rest[j] == toks[j + n + 1];
      BareRunIsBare(rest, i - n - 1, k - n - 1);
    }
  }

  lemma {:induction false} LitInFront(toks: seq<Tok>, i: nat)
    requires i < |toks| && toks[i].Lit?
    ensures RunLength(toks) <= i
    decreases i
  {
    if !toks[0].Lit? {
      LitInFront(toks[1..], i - 1);
    }
  }

  lemma RunEnds(toks: seq<Tok>, n: nat)
    requires 0 < n < |toks| && toks[n].Lit? && forall j :: 0 <= j < n ==> toks[j].One?
    ensures Bare(toks)
  {
    LitInFront(toks, n);
    assert RunLength(toks) == n;
    assert Many !in toks[..n];
  }

  // ---- Values without quotes: every literal is matched where it was made -------------------------------

  const SOFT_QUOTES: set<char> := {'\\', '"'}

  /** A pattern without quotes misses its sample with a quote for every `?`, if a run is only `?`. */
  lemma {:induction false} QuotesMiss(toks: seq<Tok>)
    requires HardLiterals(toks, SOFT_QUOTES) && Bare(toks)
    ensures !Matches(toks + [Many], Text(Units(toks, '"', ""), LastRun(toks, '"', "") + "\""))
    decreases |toks|
  {
    hide Text, Matches, Ones, LitCount, RunText, Units, LastRun, Bare, RunLength, HardLiterals, SoftGaps;
    var run, c, rest, done := FirstRun(toks);
    var tail, us := LastRun(toks, '"', "") + "\"", Units(toks, '"', "");
    if done {
      NotBare(run);
    } else if Matches(toks + [Many], Text(us, tail)) {
      assert toks + [Many] == run + ([Lit(c)] + (rest + [Many]));
      HardRest(run, c, rest, SOFT_QUOTES);
      HardMany(rest, SOFT_QUOTES);
      QuoteUnits(run, c, rest);
      BareBehind(run, c, rest);
      var b := NextUnit(run, c, rest + [Many], us, tail, SOFT_QUOTES);
      SoftRest(us, tail, SOFT_QUOTES, b + 1);
      UnitsNeeded(rest + [Many], us[b + 1..], tail, SOFT_QUOTES);
      LengthOfFirst(us);
      if Bare(rest) {
        QuotesMiss(rest);
      }
    }
  }

  lemma HardMany(toks: seq<Tok>, soft: set<char>)
    requires HardLiterals(toks, soft)
    ensures HardLiterals(toks + [Many], soft) && LitCount(toks + [Many]) == LitCount(toks)
  {
    hide LitCount;
    LitCountAppends(toks, [Many]);
    OneLit(Many);
  }

  lemma LengthOfFirst(us: seq<Unit>)
    ensures us != [] ==> Length(us, 0) == |us[0].gap|
  {}

  lemma QuoteUnits(run: seq<Tok>, c: char, rest: seq<Tok>)
    requires AllWild(run) && c !in SOFT_QUOTES
    ensures var toks := run + ([Lit(c)] + rest);
      var us := Units(toks, '"', "");
      && SoftGaps(us, LastRun(toks, '"', "") + "\"", SOFT_QUOTES) && |us| == 1 + LitCount(rest)
      && us[1..] == Units(rest, '"', "") && LastRun(toks, '"', "") == LastRun(rest, '"', "")
      && (Many !in run ==> |us[0].gap| == 2 * |run|)
  {
    hide RunText, LitCount, Ones, Units, LastRun;
    var toks := run + ([Lit(c)] + rest);
    UnitsAreSoft(toks, '"', "", SOFT_QUOTES);
    LitsBehind(run, c, rest);
    UnitsBehind(run, c, rest, '"', "");
    RunIsSoft(run, '"', "", SOFT_QUOTES);
    if Many !in run {
      OnlyOnes(run);
    }
  }

  // ---- Values with quotes ------------------------------------------------------------------------------

  const SOFT: set<char> := {'\\'}

  /** The character in front of a quote that is escaped. */
  function Before(c: char, escaped: bool): seq<Tok> {
    if escaped && c == '"' then [One] else []
  }

  /** A pattern that matches whatever the quoted pattern matches: escaped quotes have some character in front. */
  function Weak(toks: seq<Tok>, escaped: bool): seq<Tok> {
    if toks == [] then []
    else (if toks[0].Lit? then Before(toks[0].c, escaped) else []) + [toks[0]] + Weak(toks[1..], escaped)
  }

  function WeakMany(toks: seq<Tok>, escaped: bool): seq<Tok> {
    Weak(toks, escaped) + [Many]
  }

  lemma {:induction false} WeakAppends(a: seq<Tok>, b: seq<Tok>, escaped: bool)
    ensures Weak(a + b, escaped) == Weak(a, escaped) + Weak(b, escaped)
    decreases |a|
  {
    hide Before;
    if a == [] {
      assert a + b == b;
    } else {
      assert (a + b)[0] == a[0] && (a + b)[1..] == a[1..] + b;
      WeakAppends(a[1..], b, escaped);
    }
  }

  lemma {:induction false} WeakRun(run: seq<Tok>, escaped: bool)
    requires AllWild(run)
    ensures Weak(run, escaped) == run
    decreases |run|
  {
    if run != [] {
      assert run[0] in run && forall t :: t in run[1..] ==> t in run;
      WeakRun(run[1..], escaped);
      assert run == [run[0]] + run[1..];
    }
  }

  lemma WeakBehind(run: seq<Tok>, c: char, rest: seq<Tok>, escaped: bool)
    requires AllWild(run)
    ensures WeakMany(run + ([Lit(c)] + rest), escaped)
      == run + Before(c, escaped) + ([Lit(c)] + WeakMany(rest, escaped))
  {
    hide Weak, Before;
    WeakAppends(run, [Lit(c)] + rest, escaped);
    WeakAppends([Lit(c)], rest, escaped);
    WeakRun(run, escaped);
    OneWeak(c, escaped);
  }

  lemma OneWeak(c: char, escaped: bool)
    ensures Weak([Lit(c)], escaped) == Before(c, escaped) + [Lit(c)]
  {
    assert [Lit(c)][1..] == [];
  }

  lemma {:induction false} WeakLits(toks: seq<Tok>, escaped: bool)
    requires SimpleLiterals(toks)
    ensures HardLiterals(Weak(toks, escaped), SOFT) && LitCount(Weak(toks, escaped)) == LitCount(toks)
    decreases |toks|
  {
    if toks != [] {
      assert toks[0] in toks && forall t :: t in toks[1..] ==> t in toks;
      WeakLits(toks[1..], escaped);
      var first := (if toks[0].Lit? then Before(toks[0].c, escaped) else []) + [toks[0]];
      LitCountAppends(first, Weak(toks[1..], escaped));
      if |first| == 2 {
        assert first == [One, toks[0]] && first[1..] == [toks[0]] && first[1..][1..] == [];
      } else {
        assert first == [toks[0]] && first[1..] == [];
      }
    }
  }

  lemma BeforeRun(run: seq<Tok>, c: char, escaped: bool)
    requires AllWild(run)
    ensures var all := run + Before(c, escaped);
      && AllWild(all) && Ones(all) == Ones(run) + |Before(c, escaped)| && (Many in all <==> Many in run)
  {
    OnesAppend(run, Before(c, escaped));
    assert [One][1..] == [];
  }

  lemma {:induction false} OnesAppend(a: seq<Tok>, b: seq<Tok>)
    ensures Ones(a + b) == Ones(a) + Ones(b)
    decreases |a|
  {
    if a == [] {
      assert a + b == b;
    } else {
      assert (a + b)[0] == a[0] && (a + b)[1..] == a[1..] + b;
      OnesAppend(a[1..], b);
    }
  }

  /** The next literal: which unit's character it takes, and what is between. */
  lemma NextLiteral(run: seq<Tok>, c: char, rest: seq<Tok>, escaped: bool, us: seq<Unit>) returns (b: nat)
    requires AllWild(run) && c >= ' ' && c != '\\' && SimpleLiterals(rest) && SoftGaps(us, "", SOFT)
    requires Matches(WeakMany(run + ([Lit(c)] + rest), escaped), Text(us, ""))
    ensures b < |us| && us[b].c == c && Matches(WeakMany(rest, escaped), Text(us[b + 1..], ""))
    ensures LitCount(rest) + b < |us| && SoftGaps(us[b + 1..], "", SOFT)
    ensures Ones(run) + |Before(c, escaped)| <= Length(us, b)
    ensures Many !in run ==> Length(us, b) == |run| + |Before(c, escaped)|
  {
    hide Text, Matches, Ones, LitCount, Weak, Before, Length, SoftGaps, HardLiterals, SimpleLiterals;
    WeakBehind(run, c, rest, escaped);
    BeforeRun(run, c, escaped);
    b := NextUnit(run + Before(c, escaped), c, WeakMany(rest, escaped), us, "", SOFT);
    SoftRest(us, "", SOFT, b + 1);
    WeakLits(rest, escaped);
    HardMany(Weak(rest, escaped), SOFT);
    UnitsNeeded(WeakMany(rest, escaped), us[b + 1..], "", SOFT);
  }

  /** The units of the sample with a backslash for every `?`, the closing quote included. */
  function Closed(toks: seq<Tok>, gap: string): seq<Unit> {
    Units(toks, '\\', gap) + [Unit(LastRun(toks, '\\', gap), '"')]
  }

  lemma ClosedUnits(toks: seq<Tok>, gap: string)
    requires AllIn(gap, SOFT)
    ensures SoftGaps(Closed(toks, gap), "", SOFT) && |Closed(toks, gap)| == LitCount(toks) + 1
  {
    UnitsAreSoft(toks, '\\', gap, SOFT);
  }

  lemma ClosedBehind(run: seq<Tok>, c: char, rest: seq<Tok>, gap: string)
    requires AllWild(run) && AllIn(gap, SOFT)
    ensures var us, u := Closed(run + ([Lit(c)] + rest), gap), Unit(RunText(run, '\\', gap) + Escape(c), c);
      && us == [u] + Closed(rest, gap) && us[1..] == Closed(rest, gap) && us[0] == u && AllIn(u.gap, SOFT)
      && |u.gap| >= 2 * Ones(run) + |Escape(c)| && (Many in run ==> |u.gap| >= 2 * |gap|)
      && (Many !in run ==> |u.gap| == 2 * |run| + |Escape(c)|)
  {
    hide RunText, Units, LastRun, Ones;
    UnitsBehind(run, c, rest, '\\', gap);
    RunIsSoft(run, '\\', gap, SOFT);
    if Many !in run {
      OnlyOnes(run);
    }
  }

  lemma ClosedRun(run: seq<Tok>, gap: string)
    requires AllWild(run) && AllIn(gap, SOFT)
    ensures var us := Closed(run, gap);
      && us == [Unit(RunText(run, '\\', gap), '"')] && (Many in run ==> |us[0].gap| >= 2 * |gap|)
      && (Many !in run ==> |us[0].gap| == 2 * |run| && Ones(run) == |run|)
  {
    hide RunText, Units, LastRun, Ones;
    NoUnits(run, '\\', gap);
    RunIsSoft(run, '\\', gap, SOFT);
    if Many !in run {
      OnlyOnes(run);
    }
  }

  /** What the end of the pattern is like: quotes are escaped, or the last token is a `*`. */
  ghost predicate EndOk(toks: seq<Tok>, escaped: bool) {
    escaped || (toks != [] && toks[|toks| - 1].Many?)
  }

  ghost predicate Fit(toks: seq<Tok>, escaped: bool, gap: string) {
    SimpleLiterals(toks) && EndOk(toks, escaped) && AllIn(gap, SOFT) && |toks| < |gap|
  }

  lemma FitRest(run: seq<Tok>, c: char, rest: seq<Tok>, escaped: bool, gap: string)
    requires Fit(run + ([Lit(c)] + rest), escaped, gap)
    ensures c >= ' ' && c != '\\' && Fit(rest, escaped, gap) && |run| + 1 < |gap|
  {
    SimpleRest(run, c, rest);
    var toks := run + ([Lit(c)] + rest);
    if rest == [] {
      assert toks[|toks| - 1] == Lit(c);
    } else {
      assert toks[|toks| - 1] == rest[|rest| - 1];
    }
  }

  lemma BeforeIsShort(c: char, escaped: bool)
    ensures |Before(c, escaped)| <= |Escape(c)| <= 1 && (escaped ==> |Before(c, escaped)| == |Escape(c)|)
    ensures c == '"' ==> |Escape(c)| == 1
  {}

  /** One literal ahead of the units: a run without a `*` does not fit, because all later ones would have to fit. */
  lemma {:induction false} AheadMisses(run: seq<Tok>, c: char, rest: seq<Tok>, escaped: bool, gap: string)
    requires AllWild(run) && Many !in run && Fit(run + ([Lit(c)] + rest), escaped, gap)
    ensures !Matches(WeakMany(run + ([Lit(c)] + rest), escaped), Text(Closed(rest, gap), ""))
    decreases |rest|
  {
    hide Text, Matches, Ones, LitCount, Weak, Before, Escape, Units, LastRun, RunText, Closed, Bare, RunLength, Fit;
    hide SoftGaps, SimpleLiterals;
    var us := Closed(rest, gap);
    if Matches(WeakMany(run + ([Lit(c)] + rest), escaped), Text(us, "")) {
      FitRest(run, c, rest, escaped, gap);
      FitMeans(rest, escaped, gap);
      ClosedUnits(rest, gap);
      BeforeIsShort(c, escaped);
      var b := NextLiteral(run, c, rest, escaped, us);
      LengthOfFirst(us);
      var run2, c2, rest2, done := FirstRun(rest);
      if done {
        ClosedRun(run2, gap);
        assert us[1..] == [];
        EndFits(run2, escaped);
      } else {
        ClosedBehind(run2, c2, rest2, gap);
        BeforeIsShort(c2, escaped);
        if Many !in run2 {
          AheadMisses(run2, c2, rest2, escaped, gap);
        }
      }
    }
  }

  lemma FitMeans(toks: seq<Tok>, escaped: bool, gap: string)
    requires Fit(toks, escaped, gap)
    ensures SimpleLiterals(toks) && AllIn(gap, SOFT) && EndOk(toks, escaped) && |toks| < |gap|
  {}

  /** Nothing is left for the last run. */
  lemma EndFits(run: seq<Tok>, escaped: bool)
    requires AllWild(run)
    ensures Matches(WeakMany(run, escaped), Text([], "")) ==> Ones(run) == 0
  {
    hide Matches, Ones, Weak;
    WeakRun(run, escaped);
    NoText("");
    if Matches(WeakMany(run, escaped), Text([], "")) {
      var _ := RunSplits(run, [Many], "");
    }
  }

  lemma {:induction false} AheadBareMisses(toks: seq<Tok>, escaped: bool, gap: string)
    requires Fit(toks, escaped, gap) && Bare(toks)
    ensures !Matches(WeakMany(toks, escaped), Text(Closed(toks, gap)[1..], ""))
    decreases |toks|
  {
    hide Text, Matches, Ones, LitCount, Weak, Before, Escape, Units, LastRun, RunText, Closed, Bare, RunLength, Fit;
    hide SoftGaps, SimpleLiterals;
    var run, c, rest, done := FirstRun(toks);
    if done {
      NotBare(run);
    } else {
      FitRest(run, c, rest, escaped, gap);
      FitMeans(rest, escaped, gap);
      ClosedBehind(run, c, rest, gap);
      BareBehind(run, c, rest);
      if Many !in run {
        AheadMisses(run, c, rest, escaped, gap);
      } else if Matches(WeakMany(toks, escaped), Text(Closed(rest, gap), "")) {
        ClosedUnits(rest, gap);
        var b := NextLiteral(run, c, rest, escaped, Closed(rest, gap));
        AheadBareMisses(rest, escaped, gap);
      }
    }
  }

  /** Where every literal so far was matched by its own unit. */
  lemma {:induction false} OwnMisses(toks: seq<Tok>, escaped: bool, gap: string)
    requires Fit(toks, escaped, gap) && Bare(toks)
    ensures !Matches(WeakMany(toks, escaped), Text(Closed(toks, gap), ""))
    decreases |toks|
  {
    hide Text, Matches, Ones, LitCount, Weak, Before, Escape, Units, LastRun, RunText, Closed, Bare, RunLength, Fit;
    hide SoftGaps, SimpleLiterals;
    var run, c, rest, done := FirstRun(toks);
    if done {
      NotBare(run);
    } else if Matches(WeakMany(toks, escaped), Text(Closed(toks, gap), "")) {
      var us := Closed(toks, gap);
      FitMeans(toks, escaped, gap);
      FitRest(run, c, rest, escaped, gap);
      FitMeans(rest, escaped, gap);
      ClosedUnits(toks, gap);
      LitsBehind(run, c, rest);
      ClosedBehind(run, c, rest, gap);
      BareBehind(run, c, rest);
      BeforeIsShort(c, escaped);
      var b := NextLiteral(run, c, rest, escaped, us);
      assert b <= 1 && (Many !in run ==> b == 0 && run == []);
      if b == 0 {
        OwnMisses(rest, escaped, gap);
      } else {
        assert us[2..] == us[1..][1..];
        AheadBareMisses(rest, escaped, gap);
      }
    }
  }

  /**
   One literal behind the units, with a long gap in front: the next run has a `*`, so that the next gap is long,
   too.
   */
  lemma {:induction false} BehindMisses(u: Unit, toks: seq<Tok>, escaped: bool, gap: string)
    requires Fit(toks, escaped, gap) && Bare(toks) && AllIn(u.gap, SOFT) && |u.gap| >= 2 * |gap|
    ensures !Matches(WeakMany(toks, escaped), Text([u] + Closed(toks, gap), ""))
    decreases |toks|
  {
    hide Text, Matches, Ones, LitCount, Weak, Before, Escape, Units, LastRun, RunText, Closed, Bare, RunLength, Fit;
    hide SimpleLiterals;
    var run, c, rest, done := FirstRun(toks);
    if done {
      NotBare(run);
    } else if Matches(WeakMany(toks, escaped), Text([u] + Closed(toks, gap), "")) {
      var us := [u] + Closed(toks, gap);
      FitMeans(toks, escaped, gap);
      FitRest(run, c, rest, escaped, gap);
      FitMeans(rest, escaped, gap);
      ClosedUnits(toks, gap);
      LitsBehind(run, c, rest);
      ClosedBehind(run, c, rest, gap);
      BareBehind(run, c, rest);
      BeforeIsShort(c, escaped);
      var b := NextLiteral(run, c, rest, escaped, us);
      UnitsFrom(u, Closed(toks, gap));
      if b == 0 {
        BehindMisses(Closed(toks, gap)[0], rest, escaped, gap);
      } else if b == 1 {
        OwnMisses(rest, escaped, gap);
      } else {
        AheadBareMisses(rest, escaped, gap);
      }
    }
  }

  lemma UnitsFrom(u: Unit, us: seq<Unit>)
    requires us != []
    ensures var all := [u] + us;
      all[1..] == us && all[2..] == us[1..] && (|us| > 1 ==> all[3..] == us[1..][1..]) && us == [us[0]] + us[1..]
  {}

  /** The sample in quotes is missed; if quotes are not escaped, the pattern has to start with a `*`. */
  lemma BackslashesMiss(toks: seq<Tok>, i: nat, k: nat, escaped: bool, gap: string)
    requires Fit(toks, escaped, gap) && (escaped || (toks != [] && toks[0].Many?)) && BareRun(toks, i, k)
    ensures !Matches(WeakMany([Many] + toks, escaped), Text([Unit("", '"')] + Closed(toks, gap), ""))
  {
    hide Text, Matches, Weak, Closed, Fit, Bare;
    BareRunIsBare(toks, i, k);
    var n := RunLength(toks);
    var run, c, rest := toks[..n], toks[n].c, toks[n + 1..];
    assert toks == run + ([Lit(c)] + rest);
    FirstMisses(run, c, rest, escaped, gap);
  }

  lemma FirstMisses(run: seq<Tok>, c: char, rest: seq<Tok>, escaped: bool, gap: string)
    requires AllWild(run) && Bare(rest) && Fit(run + ([Lit(c)] + rest), escaped, gap)
    requires escaped || (run != [] && run[0].Many?)
    ensures var toks := run + ([Lit(c)] + rest);
      !Matches(WeakMany([Many] + toks, escaped), Text([Unit("", '"')] + Closed(toks, gap), ""))
  {
    hide Text, Matches, Ones, LitCount, Weak, Before, Escape, Units, LastRun, RunText, Closed, Bare, Fit, RunLength;
    hide SimpleLiterals;
    var toks, u := run + ([Lit(c)] + rest), Unit("", '"');
    assert [Many] + toks == [Many] + run + ([Lit(c)] + rest);
    var us := [u] + Closed(toks, gap);
    if Matches(WeakMany([Many] + toks, escaped), Text(us, "")) {
      FitMeans(toks, escaped, gap);
      FitRest(run, c, rest, escaped, gap);
      FitMeans(rest, escaped, gap);
      ClosedUnits(toks, gap);
      LitsBehind(run, c, rest);
      ClosedBehind(run, c, rest, gap);
      BeforeIsShort(c, escaped);
      var b := NextLiteral([Many] + run, c, rest, escaped, us);
      UnitsFrom(u, Closed(toks, gap));
      LengthOfFirst(us);
      if b == 0 {
        BehindMisses(Closed(toks, gap)[0], rest, escaped, gap);
      } else if b == 1 {
        OwnMisses(rest, escaped, gap);
      } else {
        AheadBareMisses(rest, escaped, gap);
      }
    }
  }

  // ---- Documents that are missed -----------------------------------------------------------------------

  lemma {:induction false} LastUnit(us: seq<Unit>, u: Unit)
    ensures Text(us + [u], "") == Text(us, u.gap + [u.c])
    decreases |us|
  {
    if us == [] {
      assert us + [u] == [u] && [u][1..] == [];
      assert u.gap + [u.c] + "" == u.gap + [u.c];
    } else {
      assert (us + [u])[0] == us[0] && (us + [u])[1..] == us[1..] + [u];
      LastUnit(us[1..], u);
    }
  }

  lemma ClosedText(toks: seq<Tok>, gap: string)
    requires SimpleLiterals(toks)
    ensures "\"" + RunText(toks, '\\', gap) + "\"" == Text([Unit("", '"')] + Closed(toks, gap), "")
  {
    hide RunText, Units, LastRun, Text;
    var us, last := Units(toks, '\\', gap), LastRun(toks, '\\', gap);
    LastUnit(us, Unit(last, '"'));
    UnitsText(toks, '\\', gap, "\"");
    FirstText(Unit("", '"'), Closed(toks, gap), "");
    assert "" + ['"'] == "\"";
    assert "\"" + RunText(toks, '\\', gap) + "\"" == "\"" + (RunText(toks, '\\', gap) + "\"");
  }

  /** A pattern with `One` for some of the literals. */
  ghost predicate Weaker(a: seq<Tok>, b: seq<Tok>) {
    |a| == |b| && forall i :: 0 <= i < |a| ==> b[i] == a[i] || (a[i].Lit? && b[i].One?)
  }

  lemma {:induction false} WeakerMatches(a: seq<Tok>, b: seq<Tok>, x: string)
    requires Weaker(a, b) && Matches(a, x)
    ensures Matches(b, x)
    decreases |a| + |x|
  {
    if a != [] {
      if a[0].Many? {
        if Matches(a[1..], x) {
          WeakerMatches(a[1..], b[1..], x);
        } else {
          WeakerMatches(a, b, x[1..]);
        }
      } else {
        WeakerMatches(a[1..], b[1..], x[1..]);
      }
    }
  }

  lemma {:induction false} JsonIsWeak(toks: seq<Tok>)
    requires SimpleLiterals(toks)
    ensures Weaker(EncodeToks(JsonChar, toks), Weak(toks, true))
    decreases |toks|
  {
    if toks != [] {
      assert toks[0] in toks && forall t :: t in toks[1..] ==> t in toks;
      JsonIsWeak(toks[1..]);
      var a := if toks[0].Lit? then Lits(JsonChar(toks[0].c)) else [toks[0]];
      var b := (if toks[0].Lit? then Before(toks[0].c, true) else []) + [toks[0]];
      assert Weaker(a, b);
      WeakerAppends(a, b, EncodeToks(JsonChar, toks[1..]), Weak(toks[1..], true));
    }
  }

  lemma WeakerAppends(a: seq<Tok>, b: seq<Tok>, c: seq<Tok>, d: seq<Tok>)
    requires Weaker(a, b) && Weaker(c, d)
    ensures Weaker(a + c, b + d)
  {}

  lemma {:induction false} RawIsItself(toks: seq<Tok>)
    ensures Weak(toks, false) == toks
    decreases |toks|
  {
    if toks != [] {
      RawIsItself(toks[1..]);
      assert toks == [toks[0]] + toks[1..];
    }
  }

  /** One more `Many` at each end. */
  lemma Padded(a: seq<Tok>, toks: seq<Tok>, b: seq<Tok>, x: string)
    requires (a == [] || a == [Many]) && (b == [] || b == [Many]) && Matches(a + toks + b, x)
    ensures Matches([Many] + toks + [Many], x)
  {
    hide Matches;
    if a == [] {
      MoreMany(a + toks + b, x);
      assert [Many] + (a + toks + b) == [Many] + toks + b;
    }
    if b == [] {
      MoreMany([Many] + toks + b, x);
      assert [Many] + toks + b + [Many] == [Many] + toks + [Many];
    }
  }

  lemma WeakPadded(toks: seq<Tok>, escaped: bool)
    ensures WeakMany([Many] + toks, escaped) == [Many] + Weak(toks, escaped) + [Many]
  {
    hide Weak;
    WeakAppends([Many], toks, escaped);
    WeakRun([Many], escaped);
  }

  /**
   A pattern with a run of `?` between two literals, quoted and between two `Many`, misses the document that is the
   sample with a backslash for every `?`; if it has a `*` at both ends, it misses it without escaped quotes, too.
   */
  lemma SampleIsMissed(a: seq<Tok>, toks: seq<Tok>, b: seq<Tok>, gap: string, i: nat, k: nat)
    requires (a == [] || a == [Many]) && (b == [] || b == [Many]) && SimpleLiterals(toks) && BareRun(toks, i, k)
    requires AllIn(gap, SOFT) && |toks| < |gap|
    ensures var d := "\"" + JsonText(Sample(toks, '\\', gap)) + "\"";
      && !Matches(EncodeToks(JsonChar, a + toks + b), d)
      && (toks[0].Many? && toks[|toks| - 1].Many? ==> !Matches(toks, d))
  {
    hide Matches, Weak, Closed, Text, EncodeToks, EncodeWith, Sample;
    var d := "\"" + RunText(toks, '\\', gap) + "\"";
    ClosedText(toks, gap);
    BackslashesMiss(toks, i, k, true, gap);
    WeakPadded(toks, true);
    if Matches(EncodeToks(JsonChar, a + toks + b), d) {
      SimplePadded(a, toks, b);
      JsonIsWeak(a + toks + b);
      WeakerMatches(EncodeToks(JsonChar, a + toks + b), Weak(a + toks + b, true), d);
      WeakAppends(a + toks, b, true);
      WeakAppends(a, toks, true);
      WeakRun(a, true);
      WeakRun(b, true);
      Padded(a, Weak(toks, true), b, d);
    }
    if toks[0].Many? && toks[|toks| - 1].Many? && Matches(toks, d) {
      BackslashesMiss(toks, i, k, false, gap);
      RawIsItself(toks);
      WeakPadded(toks, false);
      assert [] + toks + [] == toks;
      Padded([], toks, [], d);
    }
  }

  lemma SimplePadded(a: seq<Tok>, toks: seq<Tok>, b: seq<Tok>)
    requires (a == [] || a == [Many]) && (b == [] || b == [Many]) && SimpleLiterals(toks)
    ensures SimpleLiterals(a + toks + b)
  {}

  lemma {:induction false} PlainInJson(toks: seq<Tok>)
    requires SimpleLiterals(toks) && HardLiterals(toks, SOFT_QUOTES)
    ensures EncodeToks(JsonChar, toks) == toks
    decreases |toks|
  {
    hide JsonChar;
    if toks != [] {
      assert toks[0] in toks && forall t :: t in toks[1..] ==> t in toks;
      PlainInJson(toks[1..]);
      assert toks == [toks[0]] + toks[1..];
      if toks[0].Lit? {
        PlainLiteral(toks[0].c);
      }
    }
  }

  lemma PlainLiteral(c: char)
    requires c >= ' ' && c !in SOFT_QUOTES
    ensures Lits(JsonChar(c)) == [Lit(c)]
  {
    assert JsonChar(c) == [c];
  }

  /** Without quotes, the sample with a quote for every `?` is missed. */
  lemma QuotedSampleIsMissed(a: seq<Tok>, toks: seq<Tok>, b: seq<Tok>, i: nat, k: nat)
    requires (a == [] || a == [Many]) && (b == [] || b == [Many]) && BareRun(toks, i, k)
    requires SimpleLiterals(toks) && HardLiterals(toks, SOFT_QUOTES)
    ensures !Matches(EncodeToks(JsonChar, a + toks + b), "\"" + JsonText(Sample(toks, '"', "")) + "\"")
  {
    hide Matches, Units, LastRun, Text, EncodeToks, EncodeWith, Sample, SimpleLiterals, HardLiterals, Bare, RunLength;
    var d := "\"" + RunText(toks, '"', "") + "\"";
    BareRunIsBare(toks, i, k);
    var n := RunLength(toks);
    var run, c, rest := toks[..n], toks[n].c, toks[n + 1..];
    assert toks == run + ([Lit(c)] + rest);
    if Matches(EncodeToks(JsonChar, a + toks + b), d) {
      PaddedLiterals(a, toks, b);
      PlainInJson(a + toks + b);
      Padded(a, toks, b, d);
      UnitsText(toks, '"', "", "\"");
      assert d == "\"" + (RunText(toks, '"', "") + "\"");
      FirstQuoteMisses(run, c, rest);
    }
  }

  lemma PaddedLiterals(a: seq<Tok>, toks: seq<Tok>, b: seq<Tok>)
    requires (a == [] || a == [Many]) && (b == [] || b == [Many])
    requires SimpleLiterals(toks) && HardLiterals(toks, SOFT_QUOTES)
    ensures SimpleLiterals(a + toks + b) && HardLiterals(a + toks + b, SOFT_QUOTES)
  {}

  lemma FirstQuoteMisses(run: seq<Tok>, c: char, rest: seq<Tok>)
    requires AllWild(run) && Bare(rest) && HardLiterals(run + ([Lit(c)] + rest), SOFT_QUOTES)
    ensures var toks := run + ([Lit(c)] + rest);
      !Matches([Many] + toks + [Many], "\"" + Text(Units(toks, '"', ""), LastRun(toks, '"', "") + "\""))
  {
    hide Matches, Units, LastRun, Text, Ones, LitCount, HardLiterals, SoftGaps, Bare, RunText;
    var toks := run + ([Lit(c)] + rest);
    var us, tail := Units(toks, '"', ""), LastRun(toks, '"', "") + "\"";
    HardRest(run, c, rest, SOFT_QUOTES);
    HardMany(rest, SOFT_QUOTES);
    QuoteUnits(run, c, rest);
    var all := [Unit("\"" + us[0].gap, us[0].c)] + us[1..];
    QuotedUnit(us, tail);
    var x := "\"" + Text(us, tail);
    assert [Many] + toks + [Many] == [Many] + run + ([Lit(c)] + (rest + [Many]));
    if Matches([Many] + toks + [Many], x) {
      var b := NextUnit([Many] + run, c, rest + [Many], all, tail, SOFT_QUOTES);
      SoftRest(all, tail, SOFT_QUOTES, b + 1);
      UnitsNeeded(rest + [Many], all[b + 1..], tail, SOFT_QUOTES);
      assert b == 0 && all[1..] == us[1..];
      QuotesMiss(rest);
    }
  }

  lemma QuotedUnit(us: seq<Unit>, tail: string)
    requires us != [] && SoftGaps(us, tail, SOFT_QUOTES)
    ensures var all := [Unit("\"" + us[0].gap, us[0].c)] + us[1..];
      Text(all, tail) == "\"" + Text(us, tail) && SoftGaps(all, tail, SOFT_QUOTES)
  {
    hide Text;
    var u := Unit("\"" + us[0].gap, us[0].c);
    assert us == [us[0]] + us[1..] && us[0] in us && forall v :: v in us[1..] ==> v in us;
    FirstText(u, us[1..], tail);
    FirstText(us[0], us[1..], tail);
    assert "\"" + us[0].gap + [us[0].c] + Text(us[1..], tail) == "\"" + (us[0].gap + [us[0].c] + Text(us[1..], tail));
  }
}
