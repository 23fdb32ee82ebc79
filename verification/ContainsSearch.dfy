/**
 Searches for given text in JSON columns. `*text*` finds exactly the rows with a selected element whose JSON text
 contains the text, quotes taken as JSON writes them or as they are; `text*` those with an element that starts with the
 text, unless the text is a single backslash.
 */
module ContainsSearch {
  import opened Glob
  import opened LikeOperator
  import opened SearchTokens
  import opened LikeTranslation
  import opened PatternEnds
  import opened JsonSearch
  import opened JsonPrefilter
  import opened StoredSearch

  /** How a column holds a text. */
  function Held(col: Column, s: string): string {
    if col == Cfg then EncodeWith(UnicodeEscape, s) else s
  }

  /** A character of the text, written in a value. */
  function Spelt(col: Column): char -> string {
    if col == Cfg then AsValue("*?") else EscapedChar
  }

  /** `*text*` */
  function Around(col: Column, s: string): string {
    "*" + EncodeWith(Spelt(col), s) + "*"
  }

  lemma SpeltMeans(col: Column, s: string)
    ensures Pattern(col, EncodeWith(Spelt(col), s)) == Lits(Held(col, s))
  {
    if col == Cfg {
      StoredFindsItself(s, "");
    } else {
      EscapedStandsForItself(s);
    }
  }

  // ---- The stars are wildcards ----------------------------------------------------------------------------

  lemma {:induction false} HexEnds(n: nat, digits: nat)
    ensures digits > 0 ==> Hex(n, digits) != "" && Hex(n, digits)[|Hex(n, digits)| - 1] != '\\'
  {}

  lemma EscapeEnds(c: char)
    requires c != '\\'
    ensures var t := UnicodeEscape(c); t != "" && t[|t| - 1] != '\\'
  {
    hide Hex;
    HexEnds(c as int, 2);
    HexEnds(c as int, 4);
    HexEnds(c as int, 8);
  }

  /** A spelt character ends in an even number of backslashes. */
  lemma SpeltEnds(col: Column, c: char)
    ensures Backslashes(Spelt(col)(c)) % 2 == 0
  {
    hide UnicodeEscape;
    var t := Spelt(col)(c);
    assert "*?\\" == ['*', '?', '\\'] && "*?" == ['*', '?'];
    if c == '\\' {
      TwoBackslashesEnd();
    } else {
      EscapeEnds(c);
      assert t != "" && t[|t| - 1] != '\\';
    }
  }

  lemma TwoBackslashesEnd()
    ensures Backslashes("\\\\") == 2 && UnicodeEscape('\\') == "\\\\"
  {
    var t := "\\\\";
    assert t[..1] == "\\" && t[..1][..0] == "";
  }

  lemma {:induction false} EvenBackslashes(col: Column, s: string)
    ensures Backslashes(EncodeWith(Spelt(col), s)) % 2 == 0
    decreases |s|
  {
    hide Spelt, Backslashes, AllBackslashes;
    if s != "" {
      var first, rest := Spelt(col)(s[0]), EncodeWith(Spelt(col), s[1..]);
      SpeltEnds(col, s[0]);
      EvenBackslashes(col, s[1..]);
      BackslashesOfConcat(first, rest);
      AllBackslashesCount(rest);
    } else {
      assert Backslashes("") == 0 by { NoBackslashes(); }
    }
  }

  lemma NoBackslashes()
    ensures Backslashes("") == 0 && Backslashes("*") == 0
  {}

  /** Both ends are seen, and seen rightly. */
  lemma AroundIsInner(col: Column, s: string)
    ensures var v := Around(col, s); IsInnerMatch(v) && StartSettled(v) && EndSettled(v)
  {
    hide Spelt, AllBackslashes, StarAt;
    var w, v := EncodeWith(Spelt(col), s), Around(col, s);
    EvenBackslashes(col, s);
    assert v[..|v| - 1] == "*" + w;
    BackslashesOfConcat("*", w);
    AllBackslashesCount(w);
    NoBackslashes();
    LastStar(v);
  }

  lemma AroundMeans(col: Column, s: string)
    ensures Pattern(col, Around(col, s)) == [Many] + Lits(Held(col, s)) + [Many]
  {
    hide Spelt, Pieces, Held, Backslashes, Literal;
    var w, lit, escapes := EncodeWith(Spelt(col), s), Literal(col), Escapes(col);
    var ps := Pieces(w, "*?", escapes);
    SpeltMeans(col, s);
    EvenBackslashes(col, s);
    NoStarEscapes(col);
    PiecesThenStar(w, escapes);
    StarFirst(w + "*", escapes);
    assert Around(col, s) == "*" + (w + "*");
    assert [Wild('*')] + (ps + [Wild('*')]) == [Wild('*')] + ps + [Wild('*')];
    StarMeans(lit);
    MeaningAppends(lit, [Wild('*')] + ps, [Wild('*')]);
    MeaningAppends(lit, [Wild('*')], ps);
  }

  // ---- What it finds --------------------------------------------------------------------------------------

  lemma {:induction false} LitsAtStart(t: string, s: string)
    ensures Matches(Lits(t) + [Many], s) <==> t <= s
    decreases |t|
  {
    if t == "" {
      assert Lits(t) + [Many] == [Many];
      ManyTakesAll(s);
    } else {
      assert (Lits(t) + [Many])[1..] == Lits(t[1..]) + [Many];
      assert t == [t[0]] + t[1..];
      if s != "" {
        LitsAtStart(t[1..], s[1..]);
        assert s == [s[0]] + s[1..];
        assert t <= s <==> t[0] == s[0] && t[1..] <= s[1..];
      }
    }
  }

  lemma OccursStep(t: string, s: string)
    ensures OccursIn(t, s) <==> t <= s || (s != "" && OccursIn(t, s[1..]))
  {
    if t <= s {
      assert s == "" + t + s[|t|..];
    }
    if s != "" && OccursIn(t, s[1..]) {
      var pre, post :| s[1..] == pre + t + post;
      assert s == ([s[0]] + pre) + t + post;
    }
    if OccursIn(t, s) && !(t <= s) {
      var pre, post :| s == pre + t + post;
      assert pre == "" ==> s == t + post;
      assert s[1..] == pre[1..] + t + post;
    }
  }

  /** A literal text between two wildcards matches what contains it. */
  lemma {:induction false} ContainsMatches(t: string, s: string)
    ensures Matches([Many] + Lits(t) + [Many], s) <==> OccursIn(t, s)
    decreases |s|
  {
    hide OccursIn;
    var toks := [Many] + Lits(t) + [Many];
    assert toks[1..] == Lits(t) + [Many];
    LitsAtStart(t, s);
    OccursStep(t, s);
    if s != "" {
      ContainsMatches(t, s[1..]);
    }
  }

  /** One element: its JSON text contains the text as the column holds it, with JSON's quotes or plain ones. */
  lemma ElementContains(col: Column, s: string, e: Element)
    ensures ElementCondition(col, Around(col, s), e) <==>
      || OccursIn(EncodeWith(Quoting(true), Held(col, s)), e.text)
      || OccursIn(EncodeWith(Quoting(false), Held(col, s)), e.text)
  {
    hide Around, Pattern, ParseLike, QuotedValueText, Quoting, OccursIn, IsInnerMatch, Held, Matches, EncodeToks;
    var v, t := Around(col, s), Held(col, s);
    AroundIsInner(col, s);
    AroundMeans(col, s);
    forall quotes ensures Like(e.text, QuotedValueText(col, v, quotes)) <==>
      OccursIn(EncodeWith(Quoting(quotes), t), e.text)
    {
      QuotedValueTextMeans(col, v, quotes);
      EncodedAround(Quoting(quotes), t);
      ContainsMatches(EncodeWith(Quoting(quotes), t), e.text);
    }
  }

  lemma EncodedAround(enc: char -> string, t: string)
    ensures EncodeToks(enc, [Many] + Lits(t) + [Many]) == [Many] + Lits(EncodeWith(enc, t)) + [Many]
  {
    EncodeToksAppends(enc, [Many] + Lits(t), [Many]);
    EncodeToksAppends(enc, [Many], Lits(t));
    WildsEncode(enc);
    EncodeLits(enc, t);
  }

  /** Some selected element of the row contains the text. */
  ghost predicate RowContains(col: Column, s: string, row: Row) {
    exists e, quotes :: e in row.elements && OccursIn(EncodeWith(Quoting(quotes), Held(col, s)), e.text)
  }

  /** Such a search finds exactly the rows that contain the text; the condition on the whole text loses none. */
  lemma ContainsFinds(col: Column, s: string, row: Row)
    requires forall e :: e in row.elements ==> OccursIn(e.text, row.whole)
    ensures JsonCondition(col, Around(col, s), row) <==> RowContains(col, s, row)
  {
    hide Around, ElementCondition, WholeCondition, OccursIn, Quoting, Held, EncodeWith, IsInnerMatch;
    AroundIsInner(col, s);
    WholeConditionIsRedundant(col, Around(col, s), row);
    forall e | e in row.elements
      ensures ElementCondition(col, Around(col, s), e) <==>
        exists quotes :: OccursIn(EncodeWith(Quoting(quotes), Held(col, s)), e.text)
    {
      ElementContains(col, s, e);
    }
  }

  // ---- Text at the start --------------------------------------------------------------------------------

  /** `text*` */
  function AtStart(col: Column, s: string): string {
    EncodeWith(Spelt(col), s) + "*"
  }

  /** How the spelling of a character starts. */
  lemma SpeltFirst(col: Column, c: char)
    ensures var t := Spelt(col)(c);
      t != "" && t[0] != '*' && (|t| >= 2 && t[0] == '\\' && t[1] == '\\' <==> c == '\\') && (c == '\\' ==> |t| == 2)
  {
    assert "*?\\" == ['*', '?', '\\'] && "*?" == ['*', '?'];
  }

  /** The start of the value is seen rightly unless the text is a single backslash. */
  lemma StartIsText(col: Column, s: string)
    requires s != ""
    ensures var v := AtStart(col, s);
      v[0] != '*' && (StartSettled(v) <==> s != "\\") && (StartsWithStar(v) <==> s == "\\")
  {
    hide Spelt;
    var v, first, rest := AtStart(col, s), Spelt(col)(s[0]), EncodeWith(Spelt(col), s[1..]);
    SpeltFirst(col, s[0]);
    assert v == first + (rest + "*");
    if s[0] == '\\' {
      assert v[2..] == rest + "*" && v[..2] == first;
      if |s| > 1 {
        SpeltFirst(col, s[1]);
        assert rest[0] != '*';
        assert v[2] != '*';
      } else {
        assert s == "\\" && v == "\\\\*";
      }
      assert |v| >= 3 ==> v[..3][2] == v[2];
    } else {
      assert |v| >= 3 && v[..3] == "\\\\*" ==> v[..3][0] == v[0] && v[..3][1] == v[1] && v[..3][2] == v[2];
      SpeltIsNoStar(col, s[0]);
    }
  }

  /** A single character in front of the star is no backslash. */
  lemma SpeltIsNoStar(col: Column, c: char)
    requires c != '\\'
    ensures |Spelt(col)(c)| == 1 ==> Spelt(col)(c)[0] != '\\'
  {
    assert "*?\\" == ['*', '?', '\\'] && "*?" == ['*', '?'];
  }

  lemma EndIsStar(col: Column, s: string)
    ensures var v := AtStart(col, s); EndSettled(v) && EndsWithStar(v)
  {
    hide Spelt, StarAt;
    var w, v := EncodeWith(Spelt(col), s), AtStart(col, s);
    EvenBackslashes(col, s);
    assert v[..|v| - 1] == w;
    LastStar(v);
  }

  lemma AtStartMeans(col: Column, s: string)
    ensures Pattern(col, AtStart(col, s)) == Lits(Held(col, s)) + [Many]
  {
    hide Spelt, Pieces, Held, Backslashes, Literal;
    var w, escapes := EncodeWith(Spelt(col), s), Escapes(col);
    SpeltMeans(col, s);
    EvenBackslashes(col, s);
    NoStarEscapes(col);
    PiecesThenStar(w, escapes);
    StarMeans(Literal(col));
    MeaningAppends(Literal(col), Pieces(w, "*?", escapes), [Wild('*')]);
  }

  /** One element: the text it stands for starts with the text. */
  lemma ElementStarts(col: Column, s: string, e: Element)
    requires s != "" && s != "\\"
    ensures ElementCondition(col, AtStart(col, s), e) <==> Held(col, s) <= e.plain
  {
    hide AtStart, Pattern, ParseLike, ValueText, Held, Matches, EndsWithStar;
    StartIsText(col, s);
    AtStartMeans(col, s);
    ValueTextMeans(col, AtStart(col, s));
    LitsAtStart(Held(col, s), e.plain);
  }

  /** A string of a JSON document. */
  predicate IsString(e: Element) {
    e.text == "\"" + JsonText(e.plain) + "\""
  }

  /** A single backslash with its star is taken for a value between two stars, and finds no string at all. */
  lemma BackslashFindsNothing(col: Column, e: Element)
    requires IsString(e)
    ensures !ElementCondition(col, AtStart(col, "\\"), e)
  {
    hide AtStart, Pattern, ParseLike, QuotedValueText, Held, Matches, EndsWithStar, Quoting, EncodeToks, JsonText;
    var v := AtStart(col, "\\");
    StartIsText(col, "\\");
    EndIsStar(col, "\\");
    AtStartMeans(col, "\\");
    HeldBackslash(col);
    forall quotes ensures !Like(e.text, QuotedValueText(col, v, quotes)) {
      QuotedValueTextMeans(col, v, quotes);
      EncodeToksAppends(Quoting(quotes), Lits(Held(col, "\\")), [Many]);
      EncodeLits(Quoting(quotes), Held(col, "\\"));
      WildsEncode(Quoting(quotes));
      LitsAtStart(EncodeWith(Quoting(quotes), Held(col, "\\")), e.text);
      FirstIsBackslash(quotes, Held(col, "\\"));
    }
  }

  lemma HeldBackslash(col: Column)
    ensures Held(col, "\\") != "" && Held(col, "\\")[0] == '\\'
  {}

  lemma FirstIsBackslash(quotes: bool, t: string)
    requires t != "" && t[0] == '\\'
    ensures var q := EncodeWith(Quoting(quotes), t); q != "" && q[0] == '\\'
  {
    assert "\"\\" == ['"', '\\'];
  }

  /** `text*` finds exactly the strings that start with the text iff the text is not a single backslash. */
  lemma StartFindsIff(col: Column, s: string)
    requires s != ""
    ensures (forall e :: IsString(e) ==> (ElementCondition(col, AtStart(col, s), e) <==> Held(col, s) <= e.plain))
      <==> s != "\\"
  {
    hide ElementCondition, AtStart, Held, JsonText;
    if s != "\\" {
      forall e ensures ElementCondition(col, AtStart(col, s), e) <==> Held(col, s) <= e.plain {
        ElementStarts(col, s, e);
      }
    } else {
      var e := Element("\"" + JsonText(Held(col, s)) + "\"", Held(col, s));
      BackslashFindsNothing(col, e);
      assert IsString(e) && Held(col, s) <= e.plain;
    }
  }

  /** No row is lost by the condition on the whole text, if the text needs no escape of control characters. */
  lemma StartFindsRows(col: Column, s: string, row: Row)
    requires s != "" && s != "\\" && NoControls(Held(col, s))
    requires forall e :: e in row.elements ==> OccursIn(e.text, row.whole) && IsScalar(e)
    ensures JsonCondition(col, AtStart(col, s), row) <==> exists e :: e in row.elements && Held(col, s) <= e.plain
  {
    hide AtStart, ElementCondition, WholeCondition, OccursIn, Held, IsScalar, Pattern, NoBareRuns, PlainLiterals;
    var v := AtStart(col, s);
    StartIsText(col, s);
    EndIsStar(col, s);
    AtStartMeans(col, s);
    TextIsTame(Held(col, s));
    WholeConditionIsRedundant(col, v, row);
    forall e | e in row.elements ensures ElementCondition(col, v, e) <==> Held(col, s) <= e.plain {
      ElementStarts(col, s, e);
    }
  }

  lemma TextIsTame(t: string)
    requires NoControls(t)
    ensures var toks := Lits(t) + [Many]; NoBareRuns(toks) && PlainLiterals(toks)
  {
    var toks := Lits(t) + [Many];
    forall i: nat, k: nat ensures !BareRun(toks, i, k) {
      assert i + 1 < |toks| ==> !toks[i + 1].One?;
    }
    forall x | x in toks && x.Lit? ensures x.c >= ' ' {
      var i :| 0 <= i < |toks| && toks[i] == x;
      assert t[i] in t;
    }
  }
}
