/** When the condition on the whole text keeps every row the condition on elements accepts. */
module JsonPrefilter {
  import opened Wrappers
  import opened Glob
  import opened LikeOperator
  import opened SearchTokens
  import opened LikeTranslation
  import opened PatternEnds
  import opened JsonSearch
  import QuestionMarks

  /** How a column turns values into patterns: as they are, or unicode-escaped for configurations. */
  datatype Column = Json | Cfg

  function Escapes(col: Column): string {
    if col == Cfg then CONTROL_ESCAPES else ""
  }

  function Literal(col: Column): char -> string {
    if col == Cfg then UnicodeEscape else Itself
  }

  /** The pattern a value stands for in the column. */
  function Pattern(col: Column, v: string): seq<Tok> {
    Meaning(Literal(col), Pieces(v, "*?", Escapes(col)))
  }

  /** `_get_value_for_like_statement` */
  function ValueText(col: Column, v: string): string {
    if col == Cfg then ConfigLikeStatement(v) else LikeStatement(v)
  }

  /** `_get_quoted_value_for_like_statement` */
  function QuotedValueText(col: Column, v: string, quotes: bool): string {
    if col == Cfg then QuotedConfigLikeStatement(v, quotes) else QuotedLikeStatement(v, quotes)
  }

  lemma ValueTextMeans(col: Column, v: string)
    ensures ParseLike(ValueText(col, v)) == Some(Pattern(col, v))
  {
    if col == Cfg { ConfigLikeStatementMeans(v); } else { LikeStatementMeans(v); }
  }

  lemma QuotedValueTextMeans(col: Column, v: string, quotes: bool)
    ensures ParseLike(QuotedValueText(col, v, quotes)) == Some(EncodeToks(Quoting(quotes), Pattern(col, v)))
  {
    if col == Cfg { QuotedConfigMeans(v, quotes); } else { QuotedLikeMeans(v, quotes); }
  }

  /** Whether a text matches the quoted pattern with quotes escaped or, if that makes a difference, without. */
  predicate AnyQuotedLike(col: Column, v: string, text: string) {
    Like(text, QuotedValueText(col, v, true)) || Like(text, QuotedValueText(col, v, false))
  }

  /** The condition on the text of the whole column. */
  predicate WholeCondition(col: Column, v: string, whole: string) {
    if IsInnerMatch(v) then AnyQuotedLike(col, v, whole)
      else Like(whole, QuotedValueText(col, EnsureInnerMatch(v), true))
  }

  /** The strings a column may hold: configurations are unicode-escaped when they are stored. */
  ghost predicate Stored(col: Column, s: string) {
    col == Cfg ==> exists x: string :: s == EncodeWith(UnicodeEscape, x)
  }

  /**
   Whatever text holds the JSON text of a stored string the value matches, the condition on the whole text accepts
   it.
   */
  ghost predicate KeepsAll(col: Column, v: string) {
    forall s: string, pre: string, post: string ::
      Stored(col, s) && Like(s, ValueText(col, v)) ==> Keeps(col, v, s, pre, post)
  }

  predicate Keeps(col: Column, v: string, s: string, pre: string, post: string) {
    WholeCondition(col, v, pre + JsonText(s) + post)
  }

  /** By the pattern with quotes escaped, or without. */
  predicate KeepsBy(col: Column, v: string, s: string, pre: string, post: string, quotes: bool) {
    Like(pre + JsonText(s) + post, QuotedValueText(col, EnsureInnerMatch(v), quotes))
  }

  lemma KeepsByEither(col: Column, v: string, s: string, pre: string, post: string)
    ensures KeepsBy(col, v, s, pre, post, true) ==> Keeps(col, v, s, pre, post)
    ensures Keeps(col, v, s, pre, post) ==>
      KeepsBy(col, v, s, pre, post, true) || (IsInnerMatch(v) && KeepsBy(col, v, s, pre, post, false))
  {
    hide Like, QuotedValueText, EncodeWith;
    if IsInnerMatch(v) {
      assert "" + v + "" == v;
    }
  }

  /** The literal characters of a pattern need no escape but those of quotes and backslashes. */
  predicate PlainLiterals(toks: seq<Tok>) {
    forall t :: t in toks && t.Lit? ==> t.c >= ' '
  }

  // ---- What the columns have in common -----------------------------------------------------------------

  lemma NoStarEscapes(col: Column)
    ensures '*' !in Escapes(col) && '\\' !in Escapes(col)
  {
    assert CONTROL_ESCAPES == ['t', 'n', 'r', 'x', 'u', 'U'];
  }

  /** Stars, backslashes and newlines end and start as themselves. */
  lemma SpecialLiterals(col: Column)
    ensures Literal(col)('*') == "*" && Literal(col)('\\') != "" && Literal(col)('\\')[0] == '\\'
    ensures var n := Literal(col)('\n'); n != "" && n[|n| - 1] != '"' && n[|n| - 1] != '\\'
  {}

  lemma {:induction false} MeaningAppends(lit: char -> string, a: seq<Piece>, b: seq<Piece>)
    ensures Meaning(lit, a + b) == Meaning(lit, a) + Meaning(lit, b)
    decreases |a|
  {
    if a == [] {
      assert a + b == b;
    } else {
      assert (a + b)[0] == a[0] && (a + b)[1..] == a[1..] + b;
      MeaningAppends(lit, a[1..], b);
    }
  }

  lemma StarMeans(lit: char -> string)
    ensures Meaning(lit, [Wild('*')]) == [Many] && Meaning(lit, []) == []
  {
    assert [Wild('*')][1..] == [] && [Many] + [] == [Many];
  }

  /** Quoting does what JSON does to characters that need no other escape. */
  lemma {:induction false} QuotedIsJson(toks: seq<Tok>)
    requires PlainLiterals(toks)
    ensures EncodeToks(Quoting(true), toks) == EncodeToks(JsonChar, toks)
    decreases |toks|
  {
    if toks != [] {
      assert toks[0] in toks && forall t :: t in toks[1..] ==> t in toks;
      if toks[0].Lit? {
        assert "\"\\" == ['"', '\\'];
        assert QuoteChar(true, toks[0].c) == JsonChar(toks[0].c);
      }
      QuotedIsJson(toks[1..]);
    }
  }

  // ---- Settled ends: nothing is lost ---------------------------------------------------------------------

  /** The pattern of the ensured value is the value's pattern between two `Many`. */
  lemma WrappedPattern(col: Column, v: string)
    requires StartSettled(v) && EndSettled(v)
    ensures var full, toks := Pattern(col, EnsureInnerMatch(v)), Pattern(col, v);
      && full == (if StartsWithStar(v) then [] else [Many]) + toks + (if EndsWithStar(v) then [] else [Many])
      && full != [] && full[0] == Many && full[|full| - 1] == Many
  {
    hide Pieces, Literal, Meaning, Wrapped, StartsWithStar, EndsWithStar, EnsureInnerMatch, StartSettled, EndSettled;
    var lit := Literal(col);
    var a: seq<Piece> := if StartsWithStar(v) then [] else [Wild('*')];
    var b: seq<Piece> := if EndsWithStar(v) then [] else [Wild('*')];
    var ps, qs := Pieces(v, "*?", Escapes(col)), Pieces(EnsureInnerMatch(v), "*?", Escapes(col));
    WrappedPieces(col, v);
    StarMeans(lit);
    MeaningAppends(lit, a + ps, b);
    MeaningAppends(lit, a, ps);
    PatternEndsAreMany(lit, qs);
  }

  lemma WrappedPieces(col: Column, v: string)
    requires StartSettled(v) && EndSettled(v)
    ensures var ps, qs := Pieces(v, "*?", Escapes(col)), Pieces(EnsureInnerMatch(v), "*?", Escapes(col));
      && qs == (if StartsWithStar(v) then [] else [Wild('*')]) + ps + (if EndsWithStar(v) then [] else [Wild('*')])
      && qs != [] && qs[0] == Wild('*') && qs[|qs| - 1] == Wild('*')
  {
    hide Pieces, StartsWithStar, EndsWithStar, EnsureInnerMatch, StartSettled, EndSettled;
    NoStarEscapes(col);
    SettledIsWrapped(v, Escapes(col));
  }

  lemma PatternEndsAreMany(lit: char -> string, qs: seq<Piece>)
    requires qs != [] && qs[0] == Wild('*') && qs[|qs| - 1] == Wild('*')
    ensures var q := Meaning(lit, qs); q != [] && q[0] == Many && q[|q| - 1] == Many
  {
    StarMeans(lit);
    var init := qs[..|qs| - 1];
    assert qs == init + [Wild('*')];
    MeaningAppends(lit, init, [Wild('*')]);
  }

  lemma EncodedEndsAreMany(enc: char -> string, toks: seq<Tok>)
    requires toks != [] && toks[0] == Many && toks[|toks| - 1] == Many
    ensures var q := EncodeToks(enc, toks); q != [] && q[0] == Many && q[|q| - 1] == Many
  {
    WildsEncode(enc);
    var init := toks[..|toks| - 1];
    assert toks == init + [Many];
    EncodeToksAppends(enc, init, [Many]);
  }

  /** `Many` in front and behind make no new runs, and no new literals. */
  lemma WrappedRuns(a: seq<Tok>, toks: seq<Tok>, b: seq<Tok>)
    requires (a == [] || a == [Many]) && (b == [] || b == [Many])
    ensures NoBareRuns(toks) <==> NoBareRuns(a + toks + b)
    ensures PlainLiterals(toks) ==> PlainLiterals(a + toks + b)
    ensures Lit('\\') !in toks ==> Lit('\\') !in a + toks + b
  {
    var full := a + toks + b;
    forall i: nat, k: nat | BareRun(full, i, k) ensures i >= |a| && BareRun(toks, i - |a|, k - |a|) {
      forall j | i - |a| < j < k - |a| ensures toks[j].One? {
        assert toks[j] == full[j + |a|];
      }
    }
    forall i: nat, k: nat | BareRun(toks, i, k) ensures BareRun(full, i + |a|, k + |a|) {
      forall j | i + |a| < j < k + |a| ensures full[j].One? {
        assert full[j] == toks[j - |a|];
      }
    }
  }

  lemma SettledKeeps(col: Column, v: string, s: string, pre: string, post: string)
    requires StartSettled(v) && EndSettled(v) && PlainLiterals(Pattern(col, v)) && NoBareRuns(Pattern(col, v))
    requires Matches(Pattern(col, v), s)
    ensures Keeps(col, v, s, pre, post)
  {
    hide EncodeToks, Pattern, Matches, EncodeWith, StartSettled, EndSettled, PlainLiterals, StartsWithStar,
      EndsWithStar;
    hide EnsureInnerMatch, QuotedValueText, Quoting, NoBareRuns, SafeRuns, JsonChar;
    hide WholeCondition, IsInnerMatch;
    var toks, full := Pattern(col, v), Pattern(col, EnsureInnerMatch(v));
    var a, b := if StartsWithStar(v) then [] else [Many], if EndsWithStar(v) then [] else [Many];
    WrappedPattern(col, v);
    WrappedRuns(a, toks, b);
    MayMatchMore(a, toks, b, s);
    SafeFrom(full, 0);
    assert full[0..] == full;
    EncodesSomething();
    EncodedMatches(JsonChar, full, s);
    QuotedIsJson(full);
    EncodedEndsAreMany(JsonChar, full);
    var q, text := EncodeToks(JsonChar, full), JsonText(s);
    ManySkips(q, pre, text);
    LastMany(q, pre + text, post);
    QuotedValueTextMeans(col, EnsureInnerMatch(v), true);
    assert KeepsBy(col, v, s, pre, post, true);
    KeepsByEither(col, v, s, pre, post);
  }

  lemma EncodesSomething()
    ensures forall c :: JsonChar(c) != ""
  {}

  lemma MayMatchMore(a: seq<Tok>, t: seq<Tok>, b: seq<Tok>, text: string)
    requires Matches(t, text) && (a == [] || a == [Many]) && (b == [] || b == [Many])
    ensures Matches(a + t + b, text)
  {
    hide Matches;
    MoreMany(t, text);
    assert [] + t == t;
    MoreMany(a + t, text);
    assert a + t + [] == a + t;
  }

  // ---- Other ends: something is lost -----------------------------------------------------------------------

  /** A whole document that is one string. */
  lemma QuotedDocument(s: string)
    ensures var d := "\"" + JsonText(s) + "\""; d[0] == '"' && d[|d| - 1] == '"' && NoControls(d)
  {
    JsonTextIsPlain(s);
  }

  lemma {:induction false} JsonTextIsPlain(s: string)
    ensures NoControls(JsonText(s))
    decreases |s|
  {
    if s != "" {
      JsonTextIsPlain(s[1..]);
      JsonCharIsPlain(s[0]);
    }
  }

  lemma JsonCharIsPlain(c: char)
    ensures NoControls(JsonChar(c))
  {
    if c < ' ' {
      HexIsPlain(c as int, 4);
    }
  }

  /** A string the value matches. */
  function SampleOf(col: Column, v: string): string {
    Sample(Pattern(col, v), 'a', "")
  }

  lemma SampleIsLike(col: Column, v: string)
    ensures Like(SampleOf(col, v), ValueText(col, v))
  {
    ValueTextMeans(col, v);
    SampleMatches(Pattern(col, v), 'a', "");
  }

  /** A quoted pattern that starts with a backslash misses documents that are strings. */
  lemma StartMisses(col: Column, v: string, s: string, quotes: bool)
    requires !StartSettled(v)
    ensures !KeepsBy(col, v, s, "\"", "\"", quotes)
  {
    NoStarEscapes(col);
    SpecialLiterals(col);
    UnsettledStart(v, Escapes(col));
    QuotedDocument(s);
    QuotedValueTextMeans(col, EnsureInnerMatch(v), quotes);
    var toks := Pattern(col, EnsureInnerMatch(v));
    assert toks[0] == Lit('\\');
    var q := EncodeToks(Quoting(quotes), toks);
    assert "\"\\" == ['"', '\\'];
    assert Quoting(quotes)('\\')[0] == '\\';
    assert q[0] == Lit('\\');
  }

  /** The last character of a pattern. */
  lemma LastOfPattern(lit: char -> string, enc: char -> string, ps: seq<Piece>, c: char)
    requires EndsInChar(ps, c) && lit(c) != "" && enc(lit(c)[|lit(c)| - 1]) == [lit(c)[|lit(c)| - 1]]
    ensures var q := EncodeToks(enc, Meaning(lit, ps)); q != [] && q[|q| - 1] == Lit(lit(c)[|lit(c)| - 1])
  {
    hide Meaning, EncodeToks, Lits;
    var init, x := ps[..|ps| - 1], lit(c);
    var last := x[|x| - 1];
    assert ps == init + [Char(c)];
    MeaningAppends(lit, init, [Char(c)]);
    OneCharMeans(lit, c);
    EncodedLast(enc, last);
    EncodeToksAppends(enc, Meaning(lit, init), Lits(x));
    assert x == x[..|x| - 1] + [last];
    LitsAppends(x[..|x| - 1], [last]);
    EncodeToksAppends(enc, Lits(x[..|x| - 1]), Lits([last]));
  }

  lemma OneCharMeans(lit: char -> string, c: char)
    ensures Meaning(lit, [Char(c)]) == Lits(lit(c))
  {
    assert [Char(c)][1..] == [] && Lits(lit(c)) + [] == Lits(lit(c));
  }

  lemma EncodedLast(enc: char -> string, c: char)
    requires enc(c) == [c]
    ensures EncodeToks(enc, Lits([c])) == [Lit(c)]
  {
    assert Lits([c]) == [Lit(c)] && [Lit(c)][1..] == [] && Lits([c]) + [] == [Lit(c)];
  }

  lemma SpecialsStay(col: Column, c: char, quotes: bool)
    requires c == '*' || c == '\n'
    ensures var x := Literal(col)(c); x != "" && x[|x| - 1] != '"' && Quoting(quotes)(x[|x| - 1]) == [x[|x| - 1]]
  {
    SpecialLiterals(col);
    assert "\"\\" == ['"', '\\'];
  }

  /** A quoted pattern that ends in a character that is no quote misses documents that are strings. */
  lemma EndMisses(col: Column, v: string, s: string, quotes: bool)
    requires !EndSettled(v)
    ensures !KeepsBy(col, v, s, "\"", "\"", quotes)
  {
    hide EncodeToks, Meaning, Pieces, EnsureInnerMatch, EndSettled, Matches, Quoting, Literal;
    NoStarEscapes(col);
    UnsettledEnd(v, Escapes(col));
    QuotedDocument(s);
    QuotedValueTextMeans(col, EnsureInnerMatch(v), quotes);
    var ps := Pieces(EnsureInnerMatch(v), "*?", Escapes(col));
    var c := if EndsInChar(ps, '*') then '*' else '\n';
    SpecialsStay(col, c, quotes);
    LastOfPattern(Literal(col), Quoting(quotes), ps, c);
    var q := EncodeToks(Quoting(quotes), Pattern(col, EnsureInnerMatch(v)));
    var d := "\"" + JsonText(s) + "\"";
    if Matches(q, d) {
      LastLiteral(q, d);
    }
  }

  /** A quoted pattern with a control character misses all documents. */
  lemma ControlMisses(col: Column, v: string, s: string, quotes: bool)
    requires StartSettled(v) && EndSettled(v) && !PlainLiterals(Pattern(col, v))
    ensures !KeepsBy(col, v, s, "\"", "\"", quotes)
  {
    var toks := Pattern(col, v);
    var t :| t in toks && t.Lit? && t.c < ' ';
    WrappedPattern(col, v);
    QuotedDocument(s);
    QuotedValueTextMeans(col, EnsureInnerMatch(v), quotes);
    assert Lit(t.c) in Pattern(col, EnsureInnerMatch(v));
    QuotedControl(Pattern(col, EnsureInnerMatch(v)), t.c, quotes);
    var q, d := EncodeToks(Quoting(quotes), Pattern(col, EnsureInnerMatch(v))), "\"" + JsonText(s) + "\"";
    assert Lit(t.c) in q;
    if Matches(q, d) {
      LiteralOccurs(q, d, t.c);
    }
  }

  lemma {:induction false} QuotedControl(toks: seq<Tok>, c: char, quotes: bool)
    requires Lit(c) in toks && c < ' '
    ensures Lit(c) in EncodeToks(Quoting(quotes), toks)
    decreases |toks|
  {
    if toks[0] == Lit(c) {
      assert "\"\\" == ['"', '\\'];
      assert Lits(QuoteChar(quotes, c))[0] == Lit(c);
    } else {
      QuotedControl(toks[1..], c, quotes);
    }
  }

  /** Ends that are not seen rightly, and control characters, lose every document that is one string. */
  lemma UnsettledLoses(col: Column, v: string, s: string)
    requires !StartSettled(v) || !EndSettled(v) || !PlainLiterals(Pattern(col, v))
    ensures !Keeps(col, v, s, "\"", "\"")
  {
    hide StartSettled, EndSettled, PlainLiterals, Pattern, KeepsBy, Keeps;
    KeepsByEither(col, v, s, "\"", "\"");
    if !StartSettled(v) {
      StartMisses(col, v, s, true);
      StartMisses(col, v, s, false);
    } else if !EndSettled(v) {
      EndMisses(col, v, s, true);
      EndMisses(col, v, s, false);
    } else {
      ControlMisses(col, v, s, true);
      ControlMisses(col, v, s, false);
    }
  }

  // ---- Runs that are only `?`: something is lost -----------------------------------------------------------

  /** Without backslashes, nothing is escaped when quotes are not. */
  lemma {:induction false} RawQuoting(toks: seq<Tok>)
    requires Lit('\\') !in toks
    ensures EncodeToks(Quoting(false), toks) == toks
    decreases |toks|
  {
    if toks != [] {
      assert toks == [toks[0]] + toks[1..];
      RawQuoting(toks[1..]);
      if toks[0].Lit? {
        RawLiteral(toks[0].c);
      }
    }
  }

  lemma RawLiteral(c: char)
    requires c != '\\'
    ensures Lits(Quoting(false)(c)) == [Lit(c)]
  {
    assert "\\" == ['\\'];
    assert Quoting(false)(c) == [c];
  }

  function Gap(n: nat): (gap: string)
    ensures |gap| == n && QuestionMarks.AllIn(gap, QuestionMarks.SOFT)
  {
    if n == 0 then "" else "\\" + Gap(n - 1)
  }

  /** A document is missed if both patterns for it miss it; the second one counts for inner patterns only. */
  lemma MissedByBoth(col: Column, v: string, s: string)
    requires StartSettled(v) && EndSettled(v) && PlainLiterals(Pattern(col, v)) && Lit('\\') !in Pattern(col, v)
    requires var toks, d := Pattern(col, v), "\"" + JsonText(s) + "\"";
      var full := (if StartsWithStar(v) then [] else [Many]) + toks + (if EndsWithStar(v) then [] else [Many]);
      && !Matches(EncodeToks(JsonChar, full), d)
      && (toks != [] && toks[0].Many? && toks[|toks| - 1].Many? ==> !Matches(toks, d))
    ensures !Keeps(col, v, s, "\"", "\"")
  {
    hide EncodeToks, Matches, EncodeWith, StartSettled, EndSettled, StartsWithStar, EndsWithStar, Pattern;
    hide EnsureInnerMatch, QuotedValueText, Quoting, JsonChar, PlainLiterals, NoBareRuns, Keeps, ParseLike;
    var toks, full := Pattern(col, v), Pattern(col, EnsureInnerMatch(v));
    var a, b := if StartsWithStar(v) then [] else [Many], if EndsWithStar(v) then [] else [Many];
    WrappedPattern(col, v);
    WrappedRuns(a, toks, b);
    QuotedIsJson(full);
    QuotedValueTextMeans(col, EnsureInnerMatch(v), true);
    KeepsByEither(col, v, s, "\"", "\"");
    if IsInnerMatch(v) {
      assert [] + toks + [] == toks;
      RawQuoting(full);
      QuotedValueTextMeans(col, EnsureInnerMatch(v), false);
    }
  }

  /** A string that is lost: a backslash for every `?`, and many for every `*`. */
  lemma BareRunLoses(v: string) returns (s: string)
    requires StartSettled(v) && EndSettled(v) && PlainLiterals(Pattern(Json, v))
    requires !NoBareRuns(Pattern(Json, v)) && Lit('\\') !in Pattern(Json, v)
    ensures Like(s, ValueText(Json, v)) && !Keeps(Json, v, s, "\"", "\"")
  {
    hide EncodeToks, Pattern, Matches, EncodeWith, StartSettled, EndSettled, StartsWithStar, EndsWithStar, ValueText;
    hide JsonChar, Keeps, Sample;
    var toks := Pattern(Json, v);
    var gap := Gap(|toks| + 1);
    s := Sample(toks, '\\', gap);
    ValueTextMeans(Json, v);
    SampleMatches(toks, '\\', gap);
    var a, b := if StartsWithStar(v) then [] else [Many], if EndsWithStar(v) then [] else [Many];
    var i: nat, k: nat :| BareRun(toks, i, k);
    QuestionMarks.SampleIsMissed(a, toks, b, gap, i, k);
    MissedByBoth(Json, v, s);
  }

  /** Without quotes, another string that is lost: a quote for every `?`, and nothing for every `*`. */
  lemma QuoteLoses(col: Column, v: string)
    requires StartSettled(v) && EndSettled(v) && PlainLiterals(Pattern(col, v)) && !NoBareRuns(Pattern(col, v))
    requires Lit('\\') !in Pattern(col, v) && Lit('"') !in Pattern(col, v)
    ensures var s := Sample(Pattern(col, v), '"', ""); Like(s, ValueText(col, v)) && !Keeps(col, v, s, "\"", "\"")
  {
    hide EncodeToks, Pattern, Matches, EncodeWith, StartSettled, EndSettled, StartsWithStar, EndsWithStar, ValueText;
    hide JsonChar, Keeps, Sample;
    var toks := Pattern(col, v);
    var s := Sample(toks, '"', "");
    ValueTextMeans(col, v);
    SampleMatches(toks, '"', "");
    var a, b := if StartsWithStar(v) then [] else [Many], if EndsWithStar(v) then [] else [Many];
    var i: nat, k: nat :| BareRun(toks, i, k);
    QuestionMarks.QuotedSampleIsMissed(a, toks, b, i, k);
    QuestionMarks.QuotedSampleIsMissed([], toks, [], i, k);
    assert [] + toks + [] == toks;
    QuestionMarks.PlainInJson(toks);
    MissedByBoth(col, v, s);
  }

  /** In configurations that string is one that is stored. */
  lemma ConfigBareRunLoses(v: string)
    requires StartSettled(v) && EndSettled(v) && !NoBareRuns(Pattern(Cfg, v))
    requires Lit('\\') !in Pattern(Cfg, v) && Lit('"') !in Pattern(Cfg, v)
    ensures var s := Sample(Pattern(Cfg, v), '"', "");
      Stored(Cfg, s) && Like(s, ValueText(Cfg, v)) && !Keeps(Cfg, v, s, "\"", "\"")
  {
    hide Pattern, StartSettled, EndSettled, ValueText, Keeps, Sample, UnicodeEscape, Stored, NoBareRuns, Like;
    var toks := Pattern(Cfg, v);
    ConfigLiterals(v);
    SampleIsPrintable(toks);
    PrintableIsStored(Sample(toks, '"', ""));
    QuoteLoses(Cfg, v);
  }

  /** A configuration pattern's characters are printable. */
  lemma ConfigLiterals(v: string)
    ensures PrintableLiterals(Pattern(Cfg, v)) && PlainLiterals(Pattern(Cfg, v))
  {
    hide UnicodeEscape;
    PiecesOf(v, CONTROL_ESCAPES);
    ConfigLiteralsArePrintable(Pieces(v, "*?", CONTROL_ESCAPES));
  }

  ghost predicate PrintableLiterals(toks: seq<Tok>) {
    forall t :: t in toks && t.Lit? ==> ' ' <= t.c <= '~'
  }

  lemma {:induction false} SampleIsPrintable(toks: seq<Tok>)
    requires PrintableLiterals(toks) && Lit('\\') !in toks
    ensures Printable(Sample(toks, '"', "")) && '\\' !in Sample(toks, '"', "")
    decreases |toks|
  {
    if toks != [] {
      assert toks[0] in toks && forall t :: t in toks[1..] ==> t in toks;
      SampleIsPrintable(toks[1..]);
    }
  }

  /** Printable text without backslashes is stored as it is. */
  lemma {:induction false} StoredAsItIs(s: string)
    requires Printable(s) && '\\' !in s
    ensures EncodeWith(UnicodeEscape, s) == s
    decreases |s|
  {
    hide UnicodeEscape;
    if s != "" {
      assert s[0] in s && forall c :: c in s[1..] ==> c in s;
      StoredAsItIs(s[1..]);
      PrintableEscape(s[0]);
      assert s == [s[0]] + s[1..];
    }
  }

  lemma PrintableEscape(c: char)
    requires ' ' <= c <= '~' && c != '\\'
    ensures UnicodeEscape(c) == [c]
  {}

  lemma PrintableIsStored(s: string)
    requires Printable(s) && '\\' !in s
    ensures Stored(Cfg, s)
  {
    StoredAsItIs(s);
  }

  // ---- When nothing is lost --------------------------------------------------------------------------------

  /**
   What suffices for all values: ends seen rightly, no control characters, and every `?` at an end or beside a
   `*`.
   */
  lemma PrefilterKeeps(col: Column, v: string)
    requires StartSettled(v) && EndSettled(v) && PlainLiterals(Pattern(col, v)) && NoBareRuns(Pattern(col, v))
    ensures KeepsAll(col, v)
  {
    hide StartSettled, EndSettled, PlainLiterals, Keeps, Pattern, ValueText, NoBareRuns;
    forall s: string, pre: string, post: string | Stored(col, s) && Like(s, ValueText(col, v))
      ensures Keeps(col, v, s, pre, post)
    {
      ValueTextMeans(col, v);
      SettledKeeps(col, v, s, pre, post);
    }
  }

  /**
   The condition on the whole text keeps every row iff both ends of the value are seen rightly, its characters need
   no escape but those of quotes and backslashes, and no run of wildcards between two characters is only `?`. For
   values that have such a run and a backslash besides, the last part suffices but may not be needed.
   */
  lemma PrefilterKeepsIff(v: string)
    requires NoBareRuns(Pattern(Json, v)) || Lit('\\') !in Pattern(Json, v)
    ensures KeepsAll(Json, v) <==>
      StartSettled(v) && EndSettled(v) && PlainLiterals(Pattern(Json, v)) && NoBareRuns(Pattern(Json, v))
  {
    hide StartSettled, EndSettled, PlainLiterals, Keeps, Pattern, ValueText, NoBareRuns;
    if !StartSettled(v) || !EndSettled(v) || !PlainLiterals(Pattern(Json, v)) {
      var s := SampleOf(Json, v);
      SampleIsLike(Json, v);
      UnsettledLoses(Json, v, s);
    } else if !NoBareRuns(Pattern(Json, v)) {
      var s := BareRunLoses(v);
    } else {
      PrefilterKeeps(Json, v);
    }
  }

  /** The value matches some stored string. */
  ghost predicate MatchesSome(col: Column, v: string) {
    exists s: string :: Stored(col, s) && Like(s, ValueText(col, v))
  }

  /**
   In configurations the characters do not matter, because their text has no control characters; a value that no
   stored string matches loses nothing. The strings are those that unicode escaping gives.
   */
  lemma ConfigPrefilterKeepsIff(v: string)
    requires NoBareRuns(Pattern(Cfg, v)) || (Lit('\\') !in Pattern(Cfg, v) && Lit('"') !in Pattern(Cfg, v))
    ensures KeepsAll(Cfg, v) <==>
      !MatchesSome(Cfg, v) || (StartSettled(v) && EndSettled(v) && NoBareRuns(Pattern(Cfg, v)))
  {
    hide StartSettled, EndSettled, PlainLiterals, Keeps, Pattern, ValueText, NoBareRuns, Stored;
    ConfigLiterals(v);
    if !StartSettled(v) || !EndSettled(v) {
      if s: string :| Stored(Cfg, s) && Like(s, ValueText(Cfg, v)) {
        UnsettledLoses(Cfg, v, s);
      }
    } else if !NoBareRuns(Pattern(Cfg, v)) {
      ConfigBareRunLoses(v);
    } else {
      PrefilterKeeps(Cfg, v);
    }
  }

  lemma {:induction false} ConfigLiteralsArePrintable(ps: seq<Piece>)
    requires forall p :: p in ps && p.Escape? ==> p.c in CONTROL_ESCAPES
    ensures PrintableLiterals(Meaning(UnicodeEscape, ps))
    decreases |ps|
  {
    hide UnicodeEscape;
    if ps != [] {
      assert ps[0] in ps && forall p :: p in ps[1..] ==> p in ps;
      ConfigLiteralsArePrintable(ps[1..]);
      PieceIsPrintable(ps[0]);
      var a, b := PieceMeaning(UnicodeEscape, ps[0]), Meaning(UnicodeEscape, ps[1..]);
      assert forall t :: t in a + b ==> t in a || t in b;
    }
  }

  lemma PieceIsPrintable(p: Piece)
    requires p.Escape? ==> p.c in CONTROL_ESCAPES
    ensures PrintableLiterals(PieceMeaning(UnicodeEscape, p))
  {
    hide UnicodeEscape;
    match p
    case Char(c) =>
      EscapeIsPrintable(c);
      LitsArePrintable(UnicodeEscape(c));
    case Escape(c) =>
      ControlEscapes(c);
      LitsArePrintable(['\\', c]);
    case Wild(_) =>
  }

  lemma LitsArePrintable(s: string)
    requires Printable(s)
    ensures PrintableLiterals(Lits(s))
  {
    forall t | t in Lits(s) ensures t.Lit? && ' ' <= t.c <= '~' {
      var i :| 0 <= i < |s| && Lits(s)[i] == t;
      assert s[i] in s;
    }
  }

  // ---- The condition on a row ----------------------------------------------------------------------------

  /** An element that the jsonpath selects: its JSON text, and the text `#>> '{}'` gives. */
  datatype Element = Element(text: string, plain: string)

  datatype Row = Row(elements: seq<Element>, whole: string)

  predicate ElementCondition(col: Column, v: string, e: Element) {
    if IsInnerMatch(v) then AnyQuotedLike(col, v, e.text) else Like(e.plain, ValueText(col, v))
  }

  ghost predicate SomeElement(col: Column, v: string, row: Row) {
    exists e :: e in row.elements && ElementCondition(col, v, e)
  }

  /** `_get_json_condition` for a value with wildcards. */
  ghost predicate JsonCondition(col: Column, v: string, row: Row) {
    SomeElement(col, v, row) && WholeCondition(col, v, row.whole)
  }

  ghost predicate OccursIn(text: string, whole: string) {
    exists pre: string, post: string :: whole == pre + text + post
  }

  /** A string in quotes, or a number or a word that needs none. */
  predicate IsScalar(e: Element) {
    e.text == "\"" + JsonText(e.plain) + "\"" || (e.text == e.plain && JsonText(e.plain) == e.plain)
  }

  /** An inner pattern matches every text around what it matches. */
  lemma InnerMatchesAround(col: Column, v: string, quotes: bool, pre: string, text: string, post: string)
    requires IsInnerMatch(v) && StartSettled(v) && EndSettled(v) && Like(text, QuotedValueText(col, v, quotes))
    ensures Like(pre + text + post, QuotedValueText(col, v, quotes))
  {
    hide Pieces, Matches, ParseLike, Quoting, EncodeToks, QuotedValueText, StartSettled, EndSettled, Pattern;
    var enc := Quoting(quotes);
    assert EnsureInnerMatch(v) == v by { assert "" + v + "" == v; }
    WrappedPattern(col, v);
    EncodedEndsAreMany(enc, Pattern(col, v));
    QuotedValueTextMeans(col, v, quotes);
    var q := EncodeToks(enc, Pattern(col, v));
    ManySkips(q, pre, text);
    LastMany(q, pre + text, post);
  }

  /**
   If both ends of the value are seen rightly, the condition on the whole text only filters rows that no element
   accepts.
   */
  lemma WholeConditionIsRedundant(col: Column, v: string, row: Row)
    requires StartSettled(v) && EndSettled(v)
    requires forall e :: e in row.elements ==> OccursIn(e.text, row.whole)
    requires IsInnerMatch(v)
      || (NoBareRuns(Pattern(col, v)) && PlainLiterals(Pattern(col, v)) && forall e :: e in row.elements ==>
        IsScalar(e))
    ensures JsonCondition(col, v, row) <==> SomeElement(col, v, row)
  {
    hide StartSettled, EndSettled, PlainLiterals, NoBareRuns, Pattern, OccursIn, ElementCondition, WholeCondition,
      IsScalar, IsInnerMatch;
    if SomeElement(col, v, row) {
      var e :| e in row.elements && ElementCondition(col, v, e);
      if IsInnerMatch(v) {
        InnerElementKeeps(col, v, e, row.whole);
      } else {
        ScalarKeeps(col, v, e, row.whole);
      }
    }
  }

  lemma InnerElementKeeps(col: Column, v: string, e: Element, whole: string)
    requires IsInnerMatch(v) && StartSettled(v) && EndSettled(v) && ElementCondition(col, v, e)
      && OccursIn(e.text, whole)
    ensures WholeCondition(col, v, whole)
  {
    hide StartSettled, EndSettled, IsInnerMatch, Like, QuotedValueText;
    var pre, post :| whole == pre + e.text + post;
    InnerMatchesAround(col, v, Like(e.text, QuotedValueText(col, v, true)), pre, e.text, post);
  }

  lemma ScalarKeeps(col: Column, v: string, e: Element, whole: string)
    requires !IsInnerMatch(v) && StartSettled(v) && EndSettled(v) && NoBareRuns(Pattern(col, v))
      && PlainLiterals(Pattern(col, v))
    requires ElementCondition(col, v, e) && OccursIn(e.text, whole) && IsScalar(e)
    ensures WholeCondition(col, v, whole)
  {
    hide StartSettled, EndSettled, IsInnerMatch, PlainLiterals, NoBareRuns, Pattern, EnsureInnerMatch, QuotedValueText,
      ValueText, EncodeWith, Matches;
    var pre, post :| whole == pre + e.text + post;
    ValueTextMeans(col, v);
    if e.text == "\"" + JsonText(e.plain) + "\"" {
      SettledKeeps(col, v, e.plain, pre + "\"", "\"" + post);
      assert (pre + "\"") + JsonText(e.plain) + ("\"" + post) == whole;
    } else {
      SettledKeeps(col, v, e.plain, pre, post);
    }
  }

  // ---- A `?` between two characters -------------------------------------------------------------------------

  const QUESTION := "a?b"

  lemma QuestionPattern(col: Column)
    ensures Pattern(col, QUESTION) == [Lit('a'), One, Lit('b')]
    ensures StartSettled(QUESTION) && EndSettled(QUESTION)
  {}

  lemma QuestionSample(fill: char)
    ensures Sample([Lit('a'), One, Lit('b')], fill, "") == ['a', fill, 'b']
  {
    var toks: seq<Tok> := [Lit('a'), One, Lit('b')];
    assert toks[1..] == [One, Lit('b')] && toks[1..][1..] == [Lit('b')] && toks[1..][1..][1..] == [];
    var s1, s2 := Sample(toks[1..][1..], fill, ""), Sample(toks[1..], fill, "");
    assert s1 == ['b'] + Sample([], fill, "") == ['b'];
    assert s2 == [fill] + s1 && Sample(toks, fill, "") == ['a'] + s2;
  }

  /** A `?` stands for one character of the encoded text, but a quote is encoded as two; so in configurations. */
  lemma QuestionLoses()
    ensures Stored(Cfg, "a\"b") && Like("a\"b", ValueText(Cfg, QUESTION)) && !Keeps(Cfg, QUESTION, "a\"b", "\"", "\"")
    ensures Stored(Json, "a\"b") && Like("a\"b", ValueText(Json, QUESTION))
      && !Keeps(Json, QUESTION, "a\"b", "\"", "\"")
  {
    hide Keeps, Pattern, ParseLike, ValueText, StartSettled, EndSettled, Matches;
    QuestionPattern(Cfg);
    QuestionPattern(Json);
    QuestionSample('"');
    assert ['a', '"', 'b'] == "a\"b";
    assert BareRun(Pattern(Cfg, QUESTION), 0, 2);
    ConfigBareRunLoses(QUESTION);
    QuoteLoses(Json, QUESTION);
  }
}
