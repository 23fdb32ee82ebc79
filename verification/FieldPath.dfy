/** Field paths: `parse_field_path`, `split_tokenized_string` and `make_jsonpath_selector` of `parse_helpers.py`. */
module FieldPath {
  import opened Wrappers
  import opened Glob
  import opened SearchTokens
  import opened LikeTranslation

  /** One element of a path selector: a name, and how many arrays it unnests. */
  datatype Step = Step(name: string, stars: nat)

  const STAR := Control("*")
  const DOT := Control(".")

  // ---- Splitting ---------------------------------------------------------------------------------

  function Split(tokens: seq<Token>, separator: Token): (parts: seq<seq<Token>>)
    ensures parts != []
  {
    if tokens == [] then [[]]
    else
      var rest := Split(tokens[1..], separator);
      if tokens[0] == separator then [[]] + rest else [[tokens[0]] + rest[0]] + rest[1..]
  }

  /** The tokens `front` in front of the first part. */
  function InFront(front: seq<Token>, parts: seq<seq<Token>>): seq<seq<Token>>
    requires parts != []
  {
    [front + parts[0]] + parts[1..]
  }

  lemma {:induction false} SplitInFront(front: seq<Token>, tokens: seq<Token>, separator: Token)
    requires separator !in front
    ensures Split(front + tokens, separator) == InFront(front, Split(tokens, separator))
    decreases |front|
  {
    if front == [] {
      assert front + tokens == tokens;
      var parts := Split(tokens, separator);
      assert [] + parts[0] == parts[0] && [parts[0]] + parts[1..] == parts;
    } else {
      assert (front + tokens)[0] == front[0] && (front + tokens)[1..] == front[1..] + tokens;
      assert front[0] in front && forall t :: t in front[1..] ==> t in front;
      SplitInFront(front[1..], tokens, separator);
      var parts := Split(tokens, separator);
      assert [front[0]] + (front[1..] + parts[0]) == front + parts[0];
    }
  }

  /** `split_tokenized_string`: the slices between the positions of the separator. */
  method SplitTokenizedString(tokens: seq<Token>, separator: Token) returns (parts: seq<seq<Token>>)
    ensures parts == Split(tokens, separator)
  {
    hide Split;
    parts := [];
    var lastIndex := 0;
    assert tokens[0..] == tokens && [] + Split(tokens, separator) == Split(tokens, separator);
    for sepIndex := 0 to |tokens|
      invariant lastIndex <= sepIndex
      invariant separator !in tokens[lastIndex..sepIndex]
      invariant parts + Split(tokens[lastIndex..], separator) == Split(tokens, separator)
    {
      if tokens[sepIndex] == separator {
        NextPart(parts, tokens, lastIndex, sepIndex, separator);
        parts := parts + [tokens[lastIndex..sepIndex]];
        lastIndex := sepIndex + 1;
      } else {
        assert tokens[lastIndex..sepIndex + 1] == tokens[lastIndex..sepIndex] + [tokens[sepIndex]];
      }
    }
    NoSeparator(tokens[lastIndex..], separator);
    parts := parts + [tokens[lastIndex..]];
  }

  lemma NextPart(parts: seq<seq<Token>>, tokens: seq<Token>, lastIndex: nat, sepIndex: nat, separator: Token)
    requires lastIndex <= sepIndex < |tokens| && tokens[sepIndex] == separator
      && separator !in tokens[lastIndex..sepIndex]
    ensures parts + Split(tokens[lastIndex..], separator) ==
      parts + [tokens[lastIndex..sepIndex]] + Split(tokens[sepIndex + 1..], separator)
  {
    hide Split;
    var part := tokens[lastIndex..sepIndex];
    assert tokens[lastIndex..][..sepIndex - lastIndex] == part
      && tokens[lastIndex..][sepIndex - lastIndex + 1..] == tokens[sepIndex + 1..];
    SplitAt(tokens[lastIndex..], sepIndex - lastIndex, separator);
    assert parts + ([part] + Split(tokens[sepIndex + 1..], separator)) ==
      (parts + [part]) + Split(tokens[sepIndex + 1..], separator);
  }

  /** The first separator ends the first part. */
  lemma SplitAt(tokens: seq<Token>, i: nat, separator: Token)
    requires i < |tokens| && tokens[i] == separator && separator !in tokens[..i]
    ensures Split(tokens, separator) == [tokens[..i]] + Split(tokens[i + 1..], separator)
  {
    var part, rest := tokens[..i], tokens[i + 1..];
    assert tokens == part + ([separator] + rest);
    SplitInFront(part, [separator] + rest, separator);
    assert ([separator] + rest)[1..] == rest && part + [] == part;
  }

  lemma NoSeparator(tokens: seq<Token>, separator: Token)
    requires separator !in tokens
    ensures Split(tokens, separator) == [tokens]
  {
    SplitInFront(tokens, [], separator);
    assert tokens + [] == tokens;
  }

  // ---- Parsing -----------------------------------------------------------------------------------

  /** The asterisks at the end of an element. */
  function TrailingStars(element: seq<Token>): (n: nat)
    ensures n <= |element|
  {
    if element != [] && element[|element| - 1] == STAR then TrailingStars(element[..|element| - 1]) + 1 else 0
  }

  /** What `enumerate` leaves in the counter: the index of the first other token from the end, or the last index. */
  function AsteriskCount(element: seq<Token>): (n: nat)
    ensures n <= |element|
  {
    var n := TrailingStars(element);
    if n == |element| && n > 0 then n - 1 else n
  }

  function JoinTokens(tokens: seq<Token>): string {
    if tokens == [] then "" else tokens[0].s + JoinTokens(tokens[1..])
  }

  function ParseElement(element: seq<Token>): Step {
    var n := AsteriskCount(element);
    Step(JoinTokens(element[..|element| - n]), n)
  }

  function ParseElements(elements: seq<seq<Token>>): seq<Step> {
    if elements == [] then [] else [ParseElement(elements[0])] + ParseElements(elements[1..])
  }

  function Parse(path: string): seq<Step> {
    ParseElements(Split(Tokens(path, "*.", ""), DOT))
  }

  method CountAsterisks(element: seq<Token>) returns (count: nat)
    ensures count == AsteriskCount(element)
  {
    count := 0;
    assert element[..|element|] == element;
    for i := 0 to |element|
      invariant i == 0 ==> count == 0
      invariant i > 0 ==> count == i - 1
      invariant TrailingStars(element) == TrailingStars(element[..|element| - i]) + i
    {
      count := i;
      var rest := element[..|element| - i];
      assert rest[|rest| - 1] == element[|element| - 1 - i];
      if element[|element| - 1 - i] != STAR {
        return;
      }
      assert rest[..|rest| - 1] == element[..|element| - (i + 1)];
    }
  }

  /** `parse_field_path` */
  method ParseFieldPath(path: string) returns (selector: seq<Step>)
    ensures selector == Parse(path)
  {
    hide ParseElement, ParseElements, Tokens, Split, JoinTokens, AsteriskCount;
    assert "*." == ['*', '.'];
    var tokens := TokenizeString(path, "*.", "");
    var elements := SplitTokenizedString(tokens, DOT);
    selector := [];
    assert elements[0..] == elements;
    NothingToParse();
    for i := 0 to |elements|
      invariant selector + ParseElements(elements[i..]) == ParseElements(elements)
    {
      var count := CountAsterisks(elements[i]);
      var name := if count > 0 then elements[i][..|elements[i]| - count] else elements[i];
      ParseNext(elements, i);
      selector := selector + [Step(JoinTokens(name), count)];
    }
  }

  lemma NothingToParse()
    ensures forall elements :: |elements| == 0 ==> ParseElements(elements) == []
  {}

  lemma ParseNext(elements: seq<seq<Token>>, i: nat)
    requires i < |elements|
    ensures var e, n := elements[i], AsteriskCount(elements[i]);
      ParseElements(elements[i..]) ==
        [Step(JoinTokens(if n > 0 then e[..|e| - n] else e), n)] + ParseElements(elements[i + 1..])
  {
    hide JoinTokens, AsteriskCount;
    assert elements[i][..|elements[i]|] == elements[i];
    assert elements[i..][0] == elements[i] && elements[i..][1..] == elements[i + 1..];
  }

  // ---- Printing ----------------------------------------------------------------------------------

  function EscapeName(name: string): string {
    EncodeWith(NameChar, name)
  }

  function NameChar(c: char): string {
    Escaped("\\*.", c)
  }

  function Stars(n: nat): string {
    if n == 0 then "" else "*" + Stars(n - 1)
  }

  /** A path as a user writes it, with the special characters of names escaped. */
  function Print(steps: seq<Step>): string
    requires steps != []
  {
    var first := EscapeName(steps[0].name) + Stars(steps[0].stars);
    if |steps| == 1 then first else first + "." + Print(steps[1..])
  }

  function Chars(s: string): (ps: seq<Piece>)
    ensures |ps| == |s|
  {
    if s == "" then [] else [Char(s[0])] + Chars(s[1..])
  }

  function StarPieces(n: nat): seq<Piece> {
    if n == 0 then [] else [Wild('*')] + StarPieces(n - 1)
  }

  function StarTokens(n: nat): (ts: seq<Token>)
    ensures |ts| == n && forall t :: t in ts ==> t == STAR
  {
    if n == 0 then [] else [STAR] + StarTokens(n - 1)
  }

  lemma {:induction false} NamePieces(name: string, rest: string)
    ensures Pieces(EscapeName(name) + rest, "*.", "") == Chars(name) + Pieces(rest, "*.", "")
    decreases |name|
  {
    hide Pieces, NameChar;
    if name == "" {
      assert EscapeName(name) + rest == rest;
      assert [] + Pieces(rest, "*.", "") == Pieces(rest, "*.", "");
    } else {
      var more := EscapeName(name[1..]) + rest;
      assert EscapeName(name) + rest == NameChar(name[0]) + more;
      NameCharPiece(name[0], more);
      NamePieces(name[1..], rest);
    }
  }

  lemma NameCharPiece(c: char, rest: string)
    ensures Pieces(NameChar(c) + rest, "*.", "") == [Char(c)] + Pieces(rest, "*.", "")
  {
    assert "*." == ['*', '.'] && "\\*." == ['\\', '*', '.'];
    var all := NameChar(c) + rest;
    assert all[|NameChar(c)|..] == rest;
  }

  lemma {:induction false} StarsPieces(n: nat, rest: string)
    ensures Pieces(Stars(n) + rest, "*.", "") == StarPieces(n) + Pieces(rest, "*.", "")
    decreases n
  {
    if n == 0 {
      assert Stars(n) + rest == rest;
      assert [] + Pieces(rest, "*.", "") == Pieces(rest, "*.", "");
    } else {
      var more := Stars(n - 1) + rest;
      assert Stars(n) + rest == "*" + more;
      StarsPieces(n - 1, rest);
      OneStarPiece(more);
      var ps := Pieces(rest, "*.", "");
      hide Pieces;
      assert [Wild('*')] + (StarPieces(n - 1) + ps) == StarPieces(n) + ps;
    }
  }

  lemma OneStarPiece(rest: string)
    ensures Pieces("*" + rest, "*.", "") == [Wild('*')] + Pieces(rest, "*.", "")
  {
    var all := "*" + rest;
    assert "*." == ['*', '.'];
    assert all[0] == '*' && all[1..] == rest;
  }

  lemma {:induction false} CharsGrouped(text: string, name: string, ps: seq<Piece>)
    ensures Grouped(text, Chars(name) + ps) == Grouped(text + name, ps)
    decreases |name|
  {
    hide Grouped;
    if name == "" {
      assert Chars(name) + ps == ps && text + name == text;
    } else {
      assert Chars(name) + ps == [Char(name[0])] + (Chars(name[1..]) + ps);
      CharGrouped(text, name[0], Chars(name[1..]) + ps);
      CharsGrouped(text + [name[0]], name[1..], ps);
      assert text + [name[0]] + name[1..] == text + name;
    }
  }

  lemma CharGrouped(text: string, c: char, ps: seq<Piece>)
    ensures Grouped(text, [Char(c)] + ps) == Grouped(text + [c], ps)
  {
    var all := [Char(c)] + ps;
    assert all[0] == Char(c) && all[1..] == ps;
  }

  /** The tokens of one element. */
  function ElementTokens(s: Step): seq<Token> {
    Flushed(s.name) + StarTokens(s.stars)
  }

  /** What may come behind an element: nothing, or a dot. */
  ghost predicate Follows(ps: seq<Piece>) {
    ps == [] || ps[0] == Wild('.')
  }

  lemma {:induction false} StarsGrouped(text: string, n: nat, ps: seq<Piece>)
    requires Follows(ps)
    ensures Grouped(text, StarPieces(n) + ps) == Flushed(text) + StarTokens(n) + Grouped("", ps)
    decreases n
  {
    if n == 0 {
      assert StarPieces(n) + ps == ps && Flushed(text) + StarTokens(n) == Flushed(text);
      NothingMore(text, ps);
    } else {
      var all := StarPieces(n) + ps;
      assert all[0] == Wild('*') && all[1..] == StarPieces(n - 1) + ps;
      StarsGrouped("", n - 1, ps);
      var rest := Grouped("", ps);
      assert Grouped(text, all) == Flushed(text) + [STAR] + Grouped("", all[1..]);
      hide Grouped;
      StarMoves(Flushed(text), StarTokens(n - 1), rest);
    }
  }

  lemma NothingMore(text: string, ps: seq<Piece>)
    requires Follows(ps)
    ensures Grouped(text, ps) == Flushed(text) + Grouped("", ps)
  {
    if ps == [] {
      assert Flushed(text) + [] == Flushed(text);
    } else {
      var rest := Grouped("", ps[1..]);
      assert [] + [DOT] + rest == [DOT] + rest;
      assert Flushed(text) + [DOT] + rest == Flushed(text) + ([DOT] + rest);
    }
  }

  lemma StarMoves(a: seq<Token>, stars: seq<Token>, rest: seq<Token>)
    ensures a + [STAR] + ([] + stars + rest) == a + ([STAR] + stars) + rest
  {}

  function PrintedTokens(steps: seq<Step>): seq<Token>
    requires steps != []
  {
    if |steps| == 1 then ElementTokens(steps[0]) else ElementTokens(steps[0]) + ([DOT] + PrintedTokens(steps[1..]))
  }

  lemma {:induction false} PrintTokens(steps: seq<Step>)
    requires steps != []
    ensures Tokens(Print(steps), "*.", "") == PrintedTokens(steps)
    decreases |steps|
  {
    hide Pieces, Grouped, Chars, StarPieces, EscapeName, Stars;
    var s := steps[0];
    var rest := if |steps| == 1 then "" else "." + Print(steps[1..]);
    var ps := Pieces(rest, "*.", "");
    assert Print(steps) == EscapeName(s.name) + (Stars(s.stars) + rest);
    NamePieces(s.name, Stars(s.stars) + rest);
    StarsPieces(s.stars, rest);
    CharsGrouped("", s.name, StarPieces(s.stars) + ps);
    assert "" + s.name == s.name;
    if |steps| == 1 {
      NoPieces();
      StarsGrouped(s.name, s.stars, ps);
      assert ElementTokens(s) + [] == ElementTokens(s);
    } else {
      DotInFront(Print(steps[1..]));
      StarsGrouped(s.name, s.stars, ps);
      PrintTokens(steps[1..]);
    }
  }

  lemma NoPieces()
    ensures Pieces("", "*.", "") == [] && Grouped("", []) == []
  {}

  lemma DotInFront(more: string)
    ensures var ps := Pieces("." + more, "*.", ""); Follows(ps) && Grouped("", ps) == [DOT] + Tokens(more, "*.", "")
  {
    var rest := "." + more;
    assert "*." == ['*', '.'];
    assert rest[0] == '.' && rest[1..] == more;
    var ps := Pieces(rest, "*.", "");
    assert ps == [Wild('.')] + Pieces(more, "*.", "");
    assert ps[1..] == Pieces(more, "*.", "");
    assert [] + [DOT] + Tokens(more, "*.", "") == [DOT] + Tokens(more, "*.", "");
  }

  function AllElementTokens(steps: seq<Step>): seq<seq<Token>> {
    if steps == [] then [] else [ElementTokens(steps[0])] + AllElementTokens(steps[1..])
  }

  lemma {:induction false} SplitPrinted(steps: seq<Step>)
    requires steps != []
    ensures Split(PrintedTokens(steps), DOT) == AllElementTokens(steps)
    decreases |steps|
  {
    var first := ElementTokens(steps[0]);
    assert DOT !in first;
    if |steps| == 1 {
      SplitInFront(first, [], DOT);
      assert first + [] == first && InFront(first, [[]]) == [first];
      assert steps[1..] == [] && [first] + [] == [first];
    } else {
      var more := PrintedTokens(steps[1..]);
      SplitPrinted(steps[1..]);
      SplitInFront(first, [DOT] + more, DOT);
      assert ([DOT] + more)[1..] == more;
      assert Split([DOT] + more, DOT) == [[]] + Split(more, DOT);
      assert first + [] == first;
    }
  }

  // ---- Round trip ----------------------------------------------------------------------------------

  /** What one printed step is parsed as: of a step without a name, one asterisk becomes the name. */
  function Reparsed(s: Step): Step {
    if s.name == "" && s.stars > 0 then Step("*", s.stars - 1) else s
  }

  lemma {:induction false} StarsTrail(front: seq<Token>, n: nat)
    requires front == [] || front[|front| - 1] != STAR
    ensures TrailingStars(front + StarTokens(n)) == n
    decreases n
  {
    var all := front + StarTokens(n);
    if n == 0 {
      assert all == front;
    } else {
      StarsSnoc(n - 1);
      assert all[|all| - 1] == STAR;
      assert all[..|all| - 1] == front + StarTokens(n - 1);
      StarsTrail(front, n - 1);
    }
  }

  lemma {:induction false} StarsSnoc(n: nat)
    ensures StarTokens(n + 1) == StarTokens(n) + [STAR]
    decreases n
  {
    if n > 0 {
      StarsSnoc(n - 1);
    }
  }

  lemma ElementReparsed(s: Step)
    ensures ParseElement(ElementTokens(s)) == Reparsed(s)
  {
    hide TrailingStars, JoinTokens;
    var element := ElementTokens(s);
    StarsTrail(Flushed(s.name), s.stars);
    OneToken(Str(s.name));
    OneToken(STAR);
    NoToken();
    if s.name != "" {
      assert element[..|element| - s.stars] == [Str(s.name)];
    } else {
      assert element == StarTokens(s.stars);
      if s.stars > 0 {
        assert element[..1] == [STAR];
      }
    }
  }

  lemma OneToken(t: Token)
    ensures JoinTokens([t]) == t.s
  {
    assert [t][1..] == [] && t.s + "" == t.s;
  }

  lemma NoToken()
    ensures JoinTokens([]) == ""
  {}

  function AllReparsed(steps: seq<Step>): (r: seq<Step>)
    ensures |r| == |steps| && forall i :: 0 <= i < |steps| ==> r[i] == Reparsed(steps[i])
  {
    seq(|steps|, i requires 0 <= i < |steps| => Reparsed(steps[i]))
  }

  lemma {:induction false} ElementsReparsed(steps: seq<Step>)
    ensures ParseElements(AllElementTokens(steps)) == AllReparsed(steps)
    decreases |steps|
  {
    if steps != [] {
      ElementReparsed(steps[0]);
      ElementsReparsed(steps[1..]);
      var all := AllElementTokens(steps);
      assert all[0] == ElementTokens(steps[0]) && all[1..] == AllElementTokens(steps[1..]);
      assert AllReparsed(steps) == [Reparsed(steps[0])] + AllReparsed(steps[1..]);
    }
  }

  /** What a printed path is parsed as, and that it is the path iff no step consists of asterisks only. */
  lemma ParsePrinted(steps: seq<Step>)
    requires steps != []
    ensures Parse(Print(steps)) == AllReparsed(steps)
    ensures Parse(Print(steps)) == steps <==>
      forall i :: 0 <= i < |steps| ==> steps[i].name != "" || steps[i].stars == 0
  {
    PrintTokens(steps);
    SplitPrinted(steps);
    ElementsReparsed(steps);
    var r := AllReparsed(steps);
    if r == steps {
      forall i | 0 <= i < |steps| ensures steps[i].name != "" || steps[i].stars == 0 {
        assert r[i] == Reparsed(steps[i]);
      }
    }
  }

  // ---- The jsonpath selector -----------------------------------------------------------------------

  function QuoteName(name: string): string {
    "\"" + EncodeWith(PathChar, name) + "\""
  }

  function PathChar(c: char): string {
    Escaped("\\\"", c)
  }

  function Unnest(n: nat): string {
    if n == 0 then "" else "[*]" + Unnest(n - 1)
  }

  function SelectorTail(steps: seq<Step>): string {
    if steps == [] then "" else "." + QuoteName(steps[0].name) + Unnest(steps[0].stars) + SelectorTail(steps[1..])
  }

  /** `make_jsonpath_selector`; the name of the first step is not used. */
  function MakeSelector(steps: seq<Step>): string
    requires steps != []
  {
    "$" + Unnest(steps[0].stars) + SelectorTail(steps[1..])
  }

  /** Reading the selector again. */
  function ReadStars(t: string): (r: (nat, string))
    ensures |r.1| <= |t|
  {
    if |t| >= 3 && t[..3] == "[*]" then var r := ReadStars(t[3..]); (r.0 + 1, r.1) else (0, t)
  }

  /** The name up to its closing quote, and what comes behind it. */
  function ReadName(t: string): (r: Option<(string, string)>)
    ensures r.Some? ==> |r.value.1| < |t|
  {
    if t == "" then None
    else if t[0] == '"' then Some(("", t[1..]))
    else if t[0] == '\\' then
      if |t| == 1 then None
      else var r := ReadName(t[2..]); if r.Some? then Some(([t[1]] + r.value.0, r.value.1)) else None
    else
      var r := ReadName(t[1..]); if r.Some? then Some(([t[0]] + r.value.0, r.value.1)) else None
  }

  function ReadTail(t: string): Option<seq<Step>>
    decreases |t|
  {
    if t == "" then Some([])
    else if |t| < 2 || t[..2] != ".\"" then None
    else
      var name := ReadName(t[2..]);
      if name.None? then None
      else
        var stars := ReadStars(name.value.1);
        var rest := ReadTail(stars.1);
        if rest.Some? then Some([Step(name.value.0, stars.0)] + rest.value) else None
  }

  lemma {:induction false} StarsAreRead(n: nat, rest: string)
    requires rest == "" || rest[0] != '['
    ensures ReadStars(Unnest(n) + rest) == (n, rest)
    decreases n
  {
    if n == 0 {
      assert Unnest(n) + rest == rest;
      assert |rest| >= 3 ==> rest[..3][0] == rest[0];
    } else {
      var t := Unnest(n) + rest;
      assert t == "[*]" + (Unnest(n - 1) + rest);
      assert t[..3] == "[*]" && t[3..] == Unnest(n - 1) + rest;
      StarsAreRead(n - 1, rest);
    }
  }

  lemma {:induction false} NameIsRead(name: string, rest: string)
    ensures ReadName(EncodeWith(PathChar, name) + "\"" + rest) == Some((name, rest))
    decreases |name|
  {
    var t := EncodeWith(PathChar, name) + "\"" + rest;
    if name == "" {
      assert t == "\"" + rest && t[0] == '"' && t[1..] == rest;
    } else {
      assert "\\\"" == ['\\', '"'];
      var first := PathChar(name[0]);
      var more := EncodeWith(PathChar, name[1..]) + "\"" + rest;
      assert t == first + more;
      NameIsRead(name[1..], rest);
      assert t[|first|..] == more;
      assert [name[0]] + name[1..] == name;
    }
  }

  lemma {:induction false} TailIsRead(steps: seq<Step>)
    ensures ReadTail(SelectorTail(steps)) == Some(steps)
    decreases |steps|
  {
    if steps != [] {
      TailIsRead(steps[1..]);
      StepIsRead(steps[0], SelectorTail(steps[1..]));
      assert [steps[0]] + steps[1..] == steps;
    }
  }

  lemma StepIsRead(s: Step, more: string)
    requires (more != "" ==> more[0] == '.') && ReadTail(more).Some?
    ensures ReadTail("." + QuoteName(s.name) + Unnest(s.stars) + more) == Some([s] + ReadTail(more).value)
  {
    hide ReadName, ReadStars, EncodeWith;
    var behind := Unnest(s.stars) + more;
    var quoted := EncodeWith(PathChar, s.name) + "\"" + behind;
    var t := "." + QuoteName(s.name) + Unnest(s.stars) + more;
    assert t == ".\"" + quoted;
    assert t[..2] == ".\"" && t[2..] == quoted;
    NameIsRead(s.name, behind);
    StarsAreRead(s.stars, more);
  }

  /** A selector read from its root on: the asterisks of the root, and the steps behind it. */
  function ReadSelector(t: string): Option<(nat, seq<Step>)> {
    if t == "" || t[0] != '$' then None
    else
      var root := ReadStars(t[1..]);
      var steps := ReadTail(root.1);
      if steps.Some? then Some((root.0, steps.value)) else None
  }

  /** The text is a jsonpath with the asterisks and all the names of the path, however they are spelt. */
  lemma SelectorIsRead(a: seq<Step>)
    requires a != []
    ensures ReadSelector(MakeSelector(a)) == Some((a[0].stars, a[1..]))
  {
    var t := MakeSelector(a);
    assert t == "$" + (Unnest(a[0].stars) + SelectorTail(a[1..]));
    assert t[1..] == Unnest(a[0].stars) + SelectorTail(a[1..]);
    assert a[1..] != [] ==> SelectorTail(a[1..])[0] == '.';
    StarsAreRead(a[0].stars, SelectorTail(a[1..]));
    TailIsRead(a[1..]);
  }

  /** The text of the selector determines the asterisks of the root and all the steps behind it. */
  lemma SelectorIsUnambiguous(a: seq<Step>, b: seq<Step>)
    requires a != [] && b != []
    ensures MakeSelector(a) == MakeSelector(b) <==> a[0].stars == b[0].stars && a[1..] == b[1..]
  {
    SelectorIsRead(a);
    SelectorIsRead(b);
  }
}
