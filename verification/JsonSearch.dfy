/**
 Wildcard searches in JSON columns, `JSONBaseField._get_json_condition` of `fields.py`: the condition on elements
 and the condition on the whole text that is to filter rows first.
 */
module JsonSearch {
  import opened Wrappers
  import opened Glob
  import opened LikeOperator
  import opened SearchTokens
  import opened LikeTranslation

  // ---- Quoted patterns ---------------------------------------------------------------------------

  lemma EncodeLits(enc: char -> string, s: string)
    ensures EncodeToks(enc, Lits(s)) == Lits(EncodeWith(enc, s))
    decreases |s|
  {
    if s != "" {
      assert Lits(s)[1..] == Lits(s[1..]);
      EncodeLits(enc, s[1..]);
      LitsAppends(enc(s[0]), EncodeWith(enc, s[1..]));
    }
  }

  function QuotedLikeChar(quotes: bool): char -> string {
    (c: char) => EscapeLike(QuoteChar(quotes, c))
  }

  lemma QuotedSplits(quotes: bool)
    ensures Splits(QuotedLikeToken(quotes), QuotedLikeChar(quotes))
  {
    hide EncodeWith, QuoteChar, LikeChar;
    forall s ensures QuotedLikeToken(quotes)(Str(s)) == EncodeWith(QuotedLikeChar(quotes), s) {
      EncodeTwice(LikeChar, Quoting(quotes), QuotedLikeChar(quotes), s);
    }
  }

  /** One piece of a quoted pattern. */
  ghost predicate QuotedPiece(f: Token -> string, enc: char -> string, lit: char -> string, quotes: bool, p: Piece) {
    ParseLike(OnePieceText(f, enc, p)) == Some(EncodeToks(Quoting(quotes), PieceMeaning(lit, p)))
  }

  /** A quoted LIKE text put together piece by piece stands for the quoted pattern. */
  lemma {:induction false} ParseQuotedPieces(f: Token -> string, enc: char -> string, lit: char -> string, quotes: bool,
      ps: seq<Piece>)
    requires forall p :: p in ps ==> QuotedPiece(f, enc, lit, quotes, p)
    ensures ParseLike(PieceText(f, enc, ps)) == Some(EncodeToks(Quoting(quotes), Meaning(lit, ps)))
    decreases |ps|
  {
    if ps != [] {
      assert ps[0] in ps && forall p :: p in ps[1..] ==> p in ps;
      ParseQuotedPieces(f, enc, lit, quotes, ps[1..]);
      assert QuotedPiece(f, enc, lit, quotes, ps[0]);
      ParseAppends(OnePieceText(f, enc, ps[0]), PieceText(f, enc, ps[1..]));
      EncodeToksAppends(Quoting(quotes), PieceMeaning(lit, ps[0]), Meaning(lit, ps[1..]));
    }
  }

  lemma WildsEncode(enc: char -> string)
    ensures EncodeToks(enc, [Many]) == [Many] && EncodeToks(enc, [One]) == [One]
  {
    var many, one: seq<Tok> := [Many], [One];
    assert many[1..] == [] && one[1..] == [] && many + [] == many && one + [] == one;
  }

  lemma QuotedLikePiece(quotes: bool, p: Piece)
    requires !p.Escape? && (p.Wild? ==> p.c == '*' || p.c == '?')
    ensures QuotedPiece(QuotedLikeToken(quotes), QuotedLikeChar(quotes), Itself, quotes, p)
  {
    hide ParseLike, QuoteChar;
    ParseWildcards();
    WildsEncode(Quoting(quotes));
    if p.Char? {
      ParseEscaped(QuoteChar(quotes, p.c));
      EncodeLits(Quoting(quotes), [p.c]);
      assert [p.c][1..] == "" && Quoting(quotes)(p.c) + "" == QuoteChar(quotes, p.c);
    }
  }

  /** The quoted LIKE pattern is well formed and stands for the value's pattern, quoted. */
  lemma QuotedLikeMeans(v: string, quotes: bool)
    ensures ParseLike(QuotedLikeStatement(v, quotes)) == Some(EncodeToks(Quoting(quotes), ValuePattern(v)))
  {
    hide Pieces, OnePieceText, ParseLike, PieceMeaning, Meaning, PieceText, Splits, QuotedPiece, QuotedLikeToken,
      QuotedLikeChar, Quoting;
    var ps, f, enc := Pieces(v, "*?", ""), QuotedLikeToken(quotes), QuotedLikeChar(quotes);
    QuotedSplits(quotes);
    JoinedGrouped(f, enc, "", ps);
    PiecesOf(v, "");
    forall p | p in ps ensures QuotedPiece(f, enc, Itself, quotes, p) {
      QuotedLikePiece(quotes, p);
    }
    ParseQuotedPieces(f, enc, Itself, quotes, ps);
    assert "" + PieceText(f, enc, ps) == PieceText(f, enc, ps);
  }

  // ---- Quoted patterns for configurations ----------------------------------------------------------

  /** The LIKE text for a text that is already unicode-escaped. */
  function QuotedText(quotes: bool, s: string): string {
    var escaped := EncodeWith(FourBackslashes, s);
    EncodeWith(WildcardChar, if quotes then EncodeWith(QuoteAfterTwo, escaped) else escaped)
  }

  lemma QuotedTextAppends(quotes: bool, a: string, b: string)
    ensures QuotedText(quotes, a + b) == QuotedText(quotes, a) + QuotedText(quotes, b)
  {
    EncodeAppends(FourBackslashes, a, b);
    var x, y := EncodeWith(FourBackslashes, a), EncodeWith(FourBackslashes, b);
    if quotes {
      EncodeAppends(QuoteAfterTwo, x, y);
      EncodeAppends(WildcardChar, EncodeWith(QuoteAfterTwo, x), EncodeWith(QuoteAfterTwo, y));
    } else {
      EncodeAppends(WildcardChar, x, y);
    }
  }

  lemma EncodeOne(enc: char -> string, c: char)
    ensures EncodeWith(enc, [c]) == enc(c)
  {
    assert [c][1..] == "" && enc(c) + "" == enc(c);
  }

  lemma EncodeFour(enc: char -> string, c: char)
    ensures EncodeWith(enc, [c, c, c, c]) == enc(c) + enc(c) + enc(c) + enc(c)
  {
    assert [c, c, c, c] == [c, c] + [c, c];
    EncodeAppends(enc, [c, c], [c, c]);
    EncodeTwo(enc, c, c);
  }

  /** The LIKE text of one character stands for the quoted character. */
  lemma QuotedCharMeans(quotes: bool, c: char)
    ensures ParseLike(QuotedText(quotes, [c])) == Some(Lits(QuoteChar(quotes, c)))
  {
    hide EncodeWith, ParseLike;
    EncodeOne(FourBackslashes, c);
    if c == '\\' {
      var b := "\\\\\\\\";
      assert b == [c, c, c, c];
      EncodeFour(QuoteAfterTwo, c);
      EncodeFour(WildcardChar, c);
      assert "%_" == ['%', '_'];
      assert [c] + [c] + [c] + [c] == b;
      assert QuotedText(quotes, [c]) == b;
      ParseFourBackslashes();
    } else {
      EncodeOne(QuoteAfterTwo, c);
      if c == '"' && quotes {
        QuoteMeans();
      } else {
        EncodeOne(WildcardChar, c);
        PlainMeans(c);
      }
    }
  }

  lemma ParseFourBackslashes()
    ensures ParseLike("\\\\\\\\") == Some(Lits("\\\\"))
  {
    var b := "\\\\\\\\";
    ParseEscaped("\\\\");
    EncodeTwo(LikeChar, '\\', '\\');
    assert EscapeLike("\\\\") == b;
  }

  lemma QuoteMeans()
    ensures EncodeWith(WildcardChar, "\\\\\"") == "\\\\\"" && ParseLike("\\\\\"") == Some(Lits("\\\""))
  {
    var t := "\\\\\"";
    assert t == "\\\\" + "\"";
    EncodeAppends(WildcardChar, "\\\\", "\"");
    EncodeTwo(WildcardChar, '\\', '\\');
    EncodeOne(WildcardChar, '"');
    ParseEscaped("\\\"");
    EncodeTwo(LikeChar, '\\', '"');
    assert EscapeLike("\\\"") == t;
  }

  lemma PlainMeans(c: char)
    requires c != '\\'
    ensures ParseLike(WildcardChar(c)) == Some(Lits([c]))
  {
    ParseLikeChar(c);
    assert "%_\\" == ['%', '_', '\\'] && "%_" == ['%', '_'];
    assert Lits([c]) == [Lit(c)];
  }

  lemma {:induction false} QuotedTextMeans(quotes: bool, s: string)
    ensures ParseLike(QuotedText(quotes, s)) == Some(Lits(EncodeWith(Quoting(quotes), s)))
    decreases |s|
  {
    if s != "" {
      assert s == [s[0]] + s[1..];
      QuotedTextAppends(quotes, [s[0]], s[1..]);
      QuotedCharMeans(quotes, s[0]);
      QuotedTextMeans(quotes, s[1..]);
      ParseAppends(QuotedText(quotes, [s[0]]), QuotedText(quotes, s[1..]));
      LitsAppends(QuoteChar(quotes, s[0]), EncodeWith(Quoting(quotes), s[1..]));
    } else {
      assert QuotedText(quotes, s) == "";
    }
  }

  function QuotedConfigChar(quotes: bool): char -> string {
    (c: char) => QuotedText(quotes, UnicodeEscape(c))
  }

  lemma {:induction false} QuotedConfigSplitsOn(quotes: bool, s: string)
    ensures QuotedConfigText(s, quotes) == EncodeWith(QuotedConfigChar(quotes), s)
    decreases |s|
  {
    if s != "" {
      QuotedConfigSplitsOn(quotes, s[1..]);
      QuotedTextAppends(quotes, UnicodeEscape(s[0]), EncodeWith(UnicodeEscape, s[1..]));
    }
  }

  lemma QuotedConfigSplits(quotes: bool)
    ensures Splits(QuotedConfigToken(quotes), QuotedConfigChar(quotes))
  {
    hide EncodeWith, QuotedConfigText, UnicodeEscape, QuotedText;
    forall s ensures QuotedConfigToken(quotes)(Str(s)) == EncodeWith(QuotedConfigChar(quotes), s) {
      QuotedConfigSplitsOn(quotes, s);
    }
  }

  lemma QuotedConfigPiece(quotes: bool, p: Piece)
    requires (p.Wild? ==> p.c == '*' || p.c == '?') && (p.Escape? ==> p.c in CONTROL_ESCAPES)
    ensures QuotedPiece(QuotedConfigToken(quotes), QuotedConfigChar(quotes), UnicodeEscape, quotes, p)
  {
    hide ParseLike, QuotedText, UnicodeEscape;
    ParseWildcards();
    WildsEncode(Quoting(quotes));
    match p
    case Char(c) =>
      QuotedTextMeans(quotes, UnicodeEscape(c));
      EncodeLits(Quoting(quotes), UnicodeEscape(c));
    case Wild(_) =>
    case Escape(c) =>
      QuotedTextMeans(quotes, ['\\', c]);
      EncodeLits(Quoting(quotes), ['\\', c]);
      QuotedEscape(quotes, c);
  }

  /** A control escape needs no more than its four backslashes. */
  lemma QuotedEscape(quotes: bool, c: char)
    requires c in CONTROL_ESCAPES
    ensures QuotedText(quotes, ['\\', c]) == EncodeWith(FourBackslashes, ['\\', c])
  {
    hide EncodeWith;
    ControlEscapes(c);
    EncodeTwo(FourBackslashes, '\\', c);
    var b := "\\\\\\\\";
    assert b == ['\\', '\\', '\\', '\\'];
    assert EncodeWith(FourBackslashes, ['\\', c]) == b + [c];
    EncodeAppends(QuoteAfterTwo, b, [c]);
    EncodeFour(QuoteAfterTwo, '\\');
    EncodeOne(QuoteAfterTwo, c);
    EncodeAppends(WildcardChar, b, [c]);
    EncodeFour(WildcardChar, '\\');
    EncodeOne(WildcardChar, c);
    assert "%_" == ['%', '_'];
    assert ['\\'] + ['\\'] + ['\\'] + ['\\'] == b;
    assert EncodeWith(QuoteAfterTwo, b + [c]) == b + [c] && EncodeWith(WildcardChar, b + [c]) == b + [c];
  }

  /** The quoted LIKE pattern for configurations is well formed and stands for the value's pattern there, quoted. */
  lemma QuotedConfigMeans(v: string, quotes: bool)
    ensures ParseLike(QuotedConfigLikeStatement(v, quotes)) == Some(EncodeToks(Quoting(quotes), ConfigPattern(v)))
  {
    hide Pieces, OnePieceText, ParseLike, PieceMeaning, Meaning, PieceText, Splits, QuotedPiece, QuotedConfigToken,
      QuotedConfigChar, Quoting;
    var ps, f, enc := Pieces(v, "*?", CONTROL_ESCAPES), QuotedConfigToken(quotes), QuotedConfigChar(quotes);
    QuotedConfigSplits(quotes);
    JoinedGrouped(f, enc, "", ps);
    PiecesOf(v, CONTROL_ESCAPES);
    forall p | p in ps ensures QuotedPiece(f, enc, UnicodeEscape, quotes, p) {
      QuotedConfigPiece(quotes, p);
    }
    ParseQuotedPieces(f, enc, UnicodeEscape, quotes, ps);
    assert "" + PieceText(f, enc, ps) == PieceText(f, enc, ps);
  }
}
