/** The translations of `parse_helpers.py` from search values to texts of conditions. */
module LikeTranslation {
  import opened Wrappers
  import opened Glob
  import opened LikeOperator
  import opened SearchTokens

  // ---- Characters ------------------------------------------------------------------------------

  /** A backslash in front of a character that is in `special`. */
  function Escaped(special: string, c: char): string {
    if c in special then ['\\', c] else [c]
  }

  /** `re.sub(r"([%_\\])", r"\\\1", text)` on one character. */
  function LikeChar(c: char): string {
    Escaped("%_\\", c)
  }

  /** What quoting in a JSON string does to one character. */
  function QuoteChar(quotes: bool, c: char): string {
    Escaped(if quotes then "\"\\" else "\\", c)
  }

  function HexDigit(d: nat): char
    requires d < 16
  {
    "0123456789abcdef"[d]
  }

  /** `digits` hexadecimal digits of `n`. */
  function Hex(n: nat, digits: nat): string
    decreases digits
  {
    if digits == 0 then "" else Hex(n / 16, digits - 1) + [HexDigit(n % 16)]
  }

  /** `encode("unicode-escape")` of Python on one character. */
  function UnicodeEscape(c: char): string {
    if c == '\\' then "\\\\"
    else if c == '\t' then "\\t"
    else if c == '\n' then "\\n"
    else if c == '\r' then "\\r"
    else if ' ' <= c <= '~' then [c]
    else if c as int < 0x100 then "\\x" + Hex(c as int, 2)
    else if c as int < 0x10000 then "\\u" + Hex(c as int, 4)
    else "\\U" + Hex(c as int, 8)
  }

  /** Text of printable ASCII characters. */
  predicate Printable(s: string) {
    forall c :: c in s ==> ' ' <= c <= '~'
  }

  lemma {:induction false} HexIsPlain(n: nat, digits: nat)
    ensures Printable(Hex(n, digits))
    decreases digits
  {
    if digits > 0 {
      HexIsPlain(n / 16, digits - 1);
      HexDigitIsPlain(n % 16);
    }
  }

  lemma HexDigitIsPlain(d: nat)
    requires d < 16
    ensures ' ' <= HexDigit(d) <= '~'
  {
    assert "0123456789abcdef" == ['0', '1', '2', '3', '4', '5', '6', '7', '8', '9', 'a', 'b', 'c', 'd', 'e', 'f'];
  }

  lemma EscapeIsPrintable(c: char)
    ensures Printable(UnicodeEscape(c))
  {
    hide Hex;
    HexIsPlain(c as int, 2);
    HexIsPlain(c as int, 4);
    HexIsPlain(c as int, 8);
  }

  /** Text without the control characters that section 7 of RFC 8259 makes a JSON string escape. */
  predicate NoControls(s: string) {
    forall c :: c in s ==> c >= ' '
  }

  /** A character of a JSON string, section 7 of RFC 8259. */
  function JsonChar(c: char): string {
    if c == '"' || c == '\\' then ['\\', c]
    else if c == '\U{8}' then "\\b"
    else if c == '\U{c}' then "\\f"
    else if c == '\n' then "\\n"
    else if c == '\r' then "\\r"
    else if c == '\t' then "\\t"
    else if c < ' ' then "\\u" + Hex(c as int, 4)
    else [c]
  }

  function JsonText(s: string): string {
    EncodeWith(JsonChar, s)
  }

  function EscapeLike(s: string): string {
    EncodeWith(LikeChar, s)
  }

  // ---- Tokens ------------------------------------------------------------------------------------

  /** `join_tokenized_string` of translated tokens. */
  function Joined(f: Token -> string, tokens: seq<Token>): string {
    if tokens == [] then "" else f(tokens[0]) + Joined(f, tokens[1..])
  }

  const CONTROL_ESCAPES := "tnrxuU"

  /** `unescape_string` and `transform_for_regular_statement`. */
  function Regular(v: string): string {
    if v == "" then ""
    else if IsEscape(v) then [v[1]] + Regular(v[2..])
    else [v[0]] + Regular(v[1..])
  }

  function WildText(t: Token, other: string): string {
    if t == Control("*") then "%" else if t == Control("?") then "_" else other
  }

  function LikeToken(t: Token): string {
    WildText(t, EscapeLike(t.s))
  }

  /** `transform_for_like_statement` */
  function LikeStatement(v: string): string {
    Joined(LikeToken, Tokens(v, "*?", ""))
  }

  function Quoting(quotes: bool): char -> string {
    (c: char) => QuoteChar(quotes, c)
  }

  function QuotedLikeToken(quotes: bool): Token -> string {
    (t: Token) => WildText(t, EscapeLike(EncodeWith(Quoting(quotes), t.s)))
  }

  /** `transform_for_quoted_like_statement` */
  function QuotedLikeStatement(v: string, quotes: bool): string {
    Joined(QuotedLikeToken(quotes), Tokens(v, "*?", ""))
  }

  function ConfigToken(t: Token): string {
    if t.Str? then EncodeWith(UnicodeEscape, t.s) else t.s
  }

  /** `transform_for_config_regular_statement` */
  function ConfigRegular(v: string): string {
    Joined(ConfigToken, Tokens(v, "", CONTROL_ESCAPES))
  }

  function TwoBackslashes(c: char): string {
    Escaped("\\", c)
  }

  function ConfigLikeToken(t: Token): string {
    WildText(t, if t.Str? then EscapeLike(EncodeWith(UnicodeEscape, t.s)) else EncodeWith(TwoBackslashes, t.s))
  }

  /** `transform_for_config_like_statement` */
  function ConfigLikeStatement(v: string): string {
    Joined(ConfigLikeToken, Tokens(v, "*?", CONTROL_ESCAPES))
  }

  /** Four backslashes for one: one level for LIKE, one for the JSON string. */
  function FourBackslashes(c: char): string {
    if c == '\\' then "\\\\\\\\" else [c]
  }

  function QuoteAfterTwo(c: char): string {
    if c == '"' then "\\\\\"" else [c]
  }

  /** The replacements of `transform_for_quoted_config_like_statement` on a text, one after the other. */
  function QuotedConfigText(s: string, quotes: bool): string {
    var escaped := EncodeWith(FourBackslashes, EncodeWith(UnicodeEscape, s));
    var quoted := if quotes then EncodeWith(QuoteAfterTwo, escaped) else escaped;
    EncodeWith(WildcardChar, quoted)
  }

  function WildcardChar(c: char): string {
    Escaped("%_", c)
  }

  function QuotedConfigToken(quotes: bool): Token -> string {
    (t: Token) => WildText(t, if t.Str? then QuotedConfigText(t.s, quotes) else EncodeWith(FourBackslashes, t.s))
  }

  /** `transform_for_quoted_config_like_statement` */
  function QuotedConfigLikeStatement(v: string, quotes: bool): string {
    Joined(QuotedConfigToken(quotes), Tokens(v, "*?", CONTROL_ESCAPES))
  }

  // ---- What a value stands for -------------------------------------------------------------------

  /** The pattern of a value; `lit` says what its characters stand for. */
  function Meaning(lit: char -> string, ps: seq<Piece>): seq<Tok> {
    if ps == [] then [] else PieceMeaning(lit, ps[0]) + Meaning(lit, ps[1..])
  }

  function PieceMeaning(lit: char -> string, p: Piece): seq<Tok> {
    match p
    case Char(c) => Lits(lit(c))
    case Wild(c) => if c == '*' then [Many] else [One]
    case Escape(c) => Lits(['\\', c])
  }

  function Itself(c: char): string {
    [c]
  }

  /** The pattern a search value stands for. */
  function ValuePattern(v: string): seq<Tok> {
    Meaning(Itself, Pieces(v, "*?", ""))
  }

  /** The pattern a search value stands for in configurations, whose text is stored unicode-escaped. */
  function ConfigPattern(v: string): seq<Tok> {
    Meaning(UnicodeEscape, Pieces(v, "*?", CONTROL_ESCAPES))
  }

  // ---- Translations piece by piece ---------------------------------------------------------------

  /** A translation of tokens that goes character by character and token by token. */
  ghost predicate Splits(f: Token -> string, enc: char -> string) {
    forall s :: f(Str(s)) == EncodeWith(enc, s)
  }

  function PieceText(f: Token -> string, enc: char -> string, ps: seq<Piece>): string {
    if ps == [] then "" else OnePieceText(f, enc, ps[0]) + PieceText(f, enc, ps[1..])
  }

  function OnePieceText(f: Token -> string, enc: char -> string, p: Piece): string {
    match p
    case Char(c) => enc(c)
    case Wild(c) => f(Control([c]))
    case Escape(c) => f(Control(['\\', c]))
  }

  lemma {:induction false} JoinedGrouped(f: Token -> string, enc: char -> string, text: string, ps: seq<Piece>)
    requires Splits(f, enc)
    ensures Joined(f, Grouped(text, ps)) == EncodeWith(enc, text) + PieceText(f, enc, ps)
    decreases |ps|
  {
    assert f(Str(text)) == EncodeWith(enc, text);
    if ps == [] {
      assert text != "" ==> [Str(text)][1..] == [];
    } else {
      match ps[0]
      case Char(c) =>
        JoinedGrouped(f, enc, text + [c], ps[1..]);
        EncodeAppends(enc, text, [c]);
        assert [c][1..] == "";
      case Wild(c) =>
        ControlGrouped(f, enc, text, Control([c]), ps);
      case Escape(c) =>
        ControlGrouped(f, enc, text, Control(['\\', c]), ps);
    }
  }

  lemma {:induction false} ControlGrouped(f: Token -> string, enc: char -> string, text: string, t: Token,
      ps: seq<Piece>)
    requires Splits(f, enc) && ps != []
    ensures Joined(f, Flushed(text) + [t] + Grouped("", ps[1..])) ==
      EncodeWith(enc, text) + (f(t) + PieceText(f, enc, ps[1..]))
    decreases |ps|, 0
  {
    hide PieceText, Grouped, Splits, Flushed;
    var rest := Grouped("", ps[1..]);
    JoinedGrouped(f, enc, "", ps[1..]);
    FlushedJoined(f, enc, text);
    assert EncodeWith(enc, "") + PieceText(f, enc, ps[1..]) == PieceText(f, enc, ps[1..]);
    JoinedAppends(f, Flushed(text) + [t], rest);
    JoinedAppends(f, Flushed(text), [t]);
    assert [t][1..] == [] && f(t) + "" == f(t);
    assert Joined(f, [t]) == f(t);
  }

  lemma FlushedJoined(f: Token -> string, enc: char -> string, text: string)
    requires Splits(f, enc)
    ensures Joined(f, Flushed(text)) == EncodeWith(enc, text)
  {
    assert f(Str(text)) == EncodeWith(enc, text);
    assert text != "" ==> [Str(text)][1..] == [];
  }

  lemma {:induction false} JoinedAppends(f: Token -> string, a: seq<Token>, b: seq<Token>)
    ensures Joined(f, a + b) == Joined(f, a) + Joined(f, b)
    decreases |a|
  {
    if a == [] {
      assert a + b == b;
    } else {
      assert (a + b)[0] == a[0] && (a + b)[1..] == a[1..] + b;
      JoinedAppends(f, a[1..], b);
    }
  }

  /**
   A LIKE text that is put together piece by piece stands for the pattern put together from what the pieces
   stand for.
   */
  lemma {:induction false} ParsePieces(f: Token -> string, enc: char -> string, lit: char -> string, ps: seq<Piece>)
    requires forall p :: p in ps ==> ParseLike(OnePieceText(f, enc, p)) == Some(PieceMeaning(lit, p))
    ensures ParseLike(PieceText(f, enc, ps)) == Some(Meaning(lit, ps))
    decreases |ps|
  {
    if ps != [] {
      assert ps[0] in ps && forall p :: p in ps[1..] ==> p in ps;
      ParsePieces(f, enc, lit, ps[1..]);
      var first := OnePieceText(f, enc, ps[0]);
      assert ParseLike(first) == Some(PieceMeaning(lit, ps[0]));
      ParseAppends(first, PieceText(f, enc, ps[1..]));
    }
  }

  /** Escaped text stands for itself. */
  lemma {:induction false} ParseEscaped(s: string)
    ensures ParseLike(EscapeLike(s)) == Some(Lits(s))
    decreases |s|
  {
    if s != "" {
      ParseEscaped(s[1..]);
      ParseLikeChar(s[0]);
      ParseAppends(LikeChar(s[0]), EscapeLike(s[1..]));
      assert Lits(s) == [Lit(s[0])] + Lits(s[1..]);
    }
  }

  lemma ParseLikeChar(c: char)
    ensures ParseLike(LikeChar(c)) == Some([Lit(c)])
  {
    var t := LikeChar(c);
    assert [Lit(c)] + [] == [Lit(c)];
    if c in "%_\\" {
      assert t[2..] == "";
    } else {
      assert "%_\\"[0] == '%' && "%_\\"[1] == '_' && "%_\\"[2] == '\\';
      assert t[1..] == "";
    }
  }

  lemma ParseWildcards()
    ensures ParseLike("%") == Some([Many]) && ParseLike("_") == Some([One])
  {
    assert "%"[1..] == "" && "_"[1..] == "" && [Many] + [] == [Many] && [One] + [] == [One];
  }

  lemma {:induction false} OnlyPieces(v: string, controls: string, escapes: string, p: Piece)
    requires p in Pieces(v, controls, escapes)
    ensures (p.Wild? ==> p.c in controls) && (p.Escape? ==> p.c in escapes)
    decreases |v|
  {
    if v[0] in controls {
      if p != Wild(v[0]) { OnlyPieces(v[1..], controls, escapes, p); }
    } else if IsEscape(v) {
      if p in Pieces(v[2..], controls, escapes) { OnlyPieces(v[2..], controls, escapes, p); }
    } else if p != Char(v[0]) {
      OnlyPieces(v[1..], controls, escapes, p);
    }
  }

  // ---- The LIKE pattern means the value ------------------------------------------------------------

  /** The wildcards of a value, and which characters may be control escapes. */
  lemma PiecesOf(v: string, escapes: string)
    ensures forall p :: p in Pieces(v, "*?", escapes) ==>
      (p.Wild? ==> p.c == '*' || p.c == '?') && (p.Escape? ==> p.c in escapes)
  {
    forall p | p in Pieces(v, "*?", escapes)
      ensures (p.Wild? ==> p.c == '*' || p.c == '?') && (p.Escape? ==> p.c in escapes) {
      OnlyPieces(v, "*?", escapes, p);
      TwoWildcards(p.c);
    }
  }

  lemma TwoWildcards(c: char)
    ensures c in "*?" <==> c == '*' || c == '?'
  {
    assert "*?"[0] == '*' && "*?"[1] == '?';
  }

  lemma LikePiece(p: Piece)
    requires !p.Escape? && (p.Wild? ==> p.c == '*' || p.c == '?')
    ensures ParseLike(OnePieceText(LikeToken, LikeChar, p)) == Some(PieceMeaning(Itself, p))
  {
    ParseWildcards();
    if p.Char? {
      ParseLikeChar(p.c);
      assert Lits([p.c]) == [Lit(p.c)];
    }
  }

  /** The LIKE pattern is well formed and stands for what the value stands for. */
  lemma LikeStatementMeans(v: string)
    ensures ParseLike(LikeStatement(v)) == Some(ValuePattern(v))
  {
    hide Pieces, OnePieceText, ParseLike, PieceMeaning, Meaning, PieceText;
    var ps := Pieces(v, "*?", "");
    JoinedGrouped(LikeToken, LikeChar, "", ps);
    PiecesOf(v, "");
    forall p | p in ps ensures ParseLike(OnePieceText(LikeToken, LikeChar, p)) == Some(PieceMeaning(Itself, p)) {
      LikePiece(p);
    }
    ParsePieces(LikeToken, LikeChar, Itself, ps);
    assert "" + PieceText(LikeToken, LikeChar, ps) == PieceText(LikeToken, LikeChar, ps);
  }

  // ---- Values without wildcards ----------------------------------------------------------------------

  predicate NoWildcards(ps: seq<Piece>) {
    forall p :: p in ps ==> !p.Wild?
  }

  /** Some wildcard of the value is not escaped. */
  predicate HasWildcard(v: string) {
    !NoWildcards(Pieces(v, "*?", ""))
  }

  /** A value without wildcards stands for its unescaped text. */
  lemma {:induction false} RegularMeans(v: string)
    requires !HasWildcard(v)
    ensures ValuePattern(v) == Lits(Regular(v))
    decreases |v|
  {
    if v != "" {
      var ps := Pieces(v, "*?", "");
      assert ps[0] in ps && forall p :: p in ps[1..] ==> p in ps;
      TwoWildcards(v[0]);
      if IsEscape(v) {
        assert ps[1..] == Pieces(v[2..], "*?", "");
        RegularMeans(v[2..]);
        LitsAppends([v[1]], Regular(v[2..]));
      } else {
        assert ps[1..] == Pieces(v[1..], "*?", "");
        RegularMeans(v[1..]);
        LitsAppends([v[0]], Regular(v[1..]));
      }
    }
  }

  /** `string_equals`; `isPattern` is what luqum says about wildcards in the value. */
  predicate StringEquals(isPattern: bool, column: string, v: string) {
    if isPattern then Like(column, LikeStatement(v)) else column == Regular(v)
  }

  /** A wildcard of the value is one of its pattern. */
  lemma {:induction false} WildcardMeans(lit: char -> string, ps: seq<Piece>)
    requires !NoWildcards(ps)
    ensures exists t :: t in Meaning(lit, ps) && !t.Lit?
    decreases |ps|
  {
    var first, rest := PieceMeaning(lit, ps[0]), Meaning(lit, ps[1..]);
    if ps[0].Wild? {
      assert first[0] in Meaning(lit, ps) && !first[0].Lit?;
    } else {
      var p :| p in ps && p.Wild?;
      assert p in ps[1..];
      WildcardMeans(lit, ps[1..]);
      var t :| t in rest && !t.Lit?;
      assert t in first + rest;
    }
  }

  /** The condition holds of exactly the strings the value matches iff no wildcard is overlooked. */
  lemma StringEqualsMeansGlob(isPattern: bool, v: string)
    ensures (forall column: string :: StringEquals(isPattern, column, v) <==> Matches(ValuePattern(v), column))
            <==> (HasWildcard(v) ==> isPattern)
  {
    var toks := ValuePattern(v);
    if isPattern {
      LikeStatementMeans(v);
    } else if !HasWildcard(v) {
      RegularMeans(v);
      forall column: string ensures StringEquals(isPattern, column, v) <==> Matches(toks, column) {
        LitsMatch(Regular(v), column);
      }
    } else {
      WildcardMeans(Itself, Pieces(v, "*?", ""));
      SamplesDiffer(toks);
      var s, t := Sample(toks, 'a', ""), Sample(toks, 'b', "b");
      SampleMatches(toks, 'a', "");
      SampleMatches(toks, 'b', "b");
      assert !StringEquals(isPattern, s, v) || !StringEquals(isPattern, t, v);
    }
  }

  // ---- Configurations --------------------------------------------------------------------------------

  lemma {:induction false} EncodeTwice(f: char -> string, g: char -> string, fg: char -> string, s: string)
    requires forall c :: fg(c) == EncodeWith(f, g(c))
    ensures EncodeWith(f, EncodeWith(g, s)) == EncodeWith(fg, s)
    decreases |s|
  {
    if s != "" {
      EncodeTwice(f, g, fg, s[1..]);
      EncodeAppends(f, g(s[0]), EncodeWith(g, s[1..]));
    }
  }

  function ConfigLikeChar(c: char): string {
    EscapeLike(UnicodeEscape(c))
  }

  lemma ConfigLikeSplits()
    ensures Splits(ConfigLikeToken, ConfigLikeChar)
  {
    forall s ensures ConfigLikeToken(Str(s)) == EncodeWith(ConfigLikeChar, s) {
      EncodeTwice(LikeChar, UnicodeEscape, ConfigLikeChar, s);
    }
  }

  lemma ControlEscapes(c: char)
    requires c in CONTROL_ESCAPES
    ensures c == 't' || c == 'n' || c == 'r' || c == 'x' || c == 'u' || c == 'U'
  {
    assert CONTROL_ESCAPES == ['t', 'n', 'r', 'x', 'u', 'U'];
  }

  lemma EncodeTwo(enc: char -> string, a: char, b: char)
    ensures EncodeWith(enc, [a, b]) == enc(a) + enc(b)
  {
    assert [a, b][1..] == [b] && [b][1..] == "" && enc(b) + "" == enc(b);
    assert EncodeWith(enc, [b]) == enc(b);
  }

  lemma ConfigLikePiece(p: Piece)
    requires (p.Wild? ==> p.c == '*' || p.c == '?') && (p.Escape? ==> p.c in CONTROL_ESCAPES)
    ensures ParseLike(OnePieceText(ConfigLikeToken, ConfigLikeChar, p)) == Some(PieceMeaning(UnicodeEscape, p))
  {
    hide ParseLike, UnicodeEscape;
    ParseWildcards();
    match p
    case Char(c) => ParseEscaped(UnicodeEscape(c));
    case Wild(_) =>
    case Escape(c) =>
      ControlLikeText(c);
      ParseEscaped(['\\', c]);
  }

  lemma ControlLikeText(c: char)
    requires c in CONTROL_ESCAPES
    ensures EscapeLike(['\\', c]) == EncodeWith(TwoBackslashes, ['\\', c])
  {
    ControlEscapes(c);
    EncodeTwo(TwoBackslashes, '\\', c);
    EncodeTwo(LikeChar, '\\', c);
  }

  /** The LIKE pattern for configurations is well formed and stands for what the value stands for there. */
  lemma ConfigLikeStatementMeans(v: string)
    ensures ParseLike(ConfigLikeStatement(v)) == Some(ConfigPattern(v))
  {
    hide Pieces, OnePieceText, ParseLike, PieceMeaning, Meaning, PieceText, Splits;
    var ps := Pieces(v, "*?", CONTROL_ESCAPES);
    ConfigLikeSplits();
    JoinedGrouped(ConfigLikeToken, ConfigLikeChar, "", ps);
    PiecesOf(v, CONTROL_ESCAPES);
    forall p | p in ps ensures ParseLike(OnePieceText(ConfigLikeToken, ConfigLikeChar, p)) ==
      Some(PieceMeaning(UnicodeEscape, p)) {
      ConfigLikePiece(p);
    }
    ParsePieces(ConfigLikeToken, ConfigLikeChar, UnicodeEscape, ps);
    assert "" + PieceText(ConfigLikeToken, ConfigLikeChar, ps) == PieceText(ConfigLikeToken, ConfigLikeChar, ps);
  }

  /** Without wildcards the two ways to split a configuration value agree. */
  lemma {:induction false} SamePieces(v: string)
    requires NoWildcards(Pieces(v, "*?", CONTROL_ESCAPES))
    ensures Pieces(v, "", CONTROL_ESCAPES) == Pieces(v, "*?", CONTROL_ESCAPES)
    decreases |v|
  {
    if v != "" {
      var ps := Pieces(v, "*?", CONTROL_ESCAPES);
      assert ps[0] in ps && forall p :: p in ps[1..] ==> p in ps;
      if IsEscape(v) {
        TwoWildcards(v[0]);
        assert ps[1..] == Pieces(v[2..], "*?", CONTROL_ESCAPES);
        SamePieces(v[2..]);
      } else {
        assert ps[1..] == Pieces(v[1..], "*?", CONTROL_ESCAPES);
        SamePieces(v[1..]);
      }
    }
  }

  lemma {:induction false} ConfigTextMeans(ps: seq<Piece>)
    requires NoWildcards(ps)
    ensures Meaning(UnicodeEscape, ps) == Lits(PieceText(ConfigToken, UnicodeEscape, ps))
    decreases |ps|
  {
    if ps != [] {
      assert ps[0] in ps && forall p :: p in ps[1..] ==> p in ps;
      ConfigTextMeans(ps[1..]);
      LitsAppends(OnePieceText(ConfigToken, UnicodeEscape, ps[0]), PieceText(ConfigToken, UnicodeEscape, ps[1..]));
    }
  }

  /** Without wildcards, the LIKE pattern for configurations matches the text of the equality translation only. */
  lemma ConfigTranslationsAgree(v: string, column: string)
    requires NoWildcards(Pieces(v, "*?", CONTROL_ESCAPES))
    ensures Like(column, ConfigLikeStatement(v)) <==> column == ConfigRegular(v)
  {
    ConfigLikeStatementMeans(v);
    SamePieces(v);
    var ps := Pieces(v, "*?", CONTROL_ESCAPES);
    ConfigTextMeans(ps);
    JoinedGrouped(ConfigToken, UnicodeEscape, "", ps);
    assert "" + PieceText(ConfigToken, UnicodeEscape, ps) == PieceText(ConfigToken, UnicodeEscape, ps);
    LitsMatch(ConfigRegular(v), column);
  }
}
