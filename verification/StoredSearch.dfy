/**
 Stored text as a search value: what is read in a column, with wildcards escaped, finds exactly itself. For
 configurations the stored text is unicode-escaped already, and its escapes stay as they are.
 */
module StoredSearch {
  import opened Glob
  import opened LikeOperator
  import opened SearchTokens
  import opened LikeTranslation
  import opened JsonSearch

  /** A stored character, written in a value in which `controls` are wildcards. */
  function AsValue(controls: string): char -> string {
    (c: char) => if c in controls then ['\\', c] else UnicodeEscape(c)
  }

  /** Pieces without wildcards whose text is `u`. */
  ghost predicate StandFor(ps: seq<Piece>, u: string) {
    NoWildcards(ps) && PieceText(ConfigToken, UnicodeEscape, ps) == u
  }

  lemma {:induction false} PieceTextAppends(f: Token -> string, enc: char -> string, a: seq<Piece>, b: seq<Piece>)
    ensures PieceText(f, enc, a + b) == PieceText(f, enc, a) + PieceText(f, enc, b)
    decreases |a|
  {
    hide OnePieceText;
    if a == [] {
      assert a + b == b;
    } else {
      assert (a + b)[0] == a[0] && (a + b)[1..] == a[1..] + b;
      PieceTextAppends(f, enc, a[1..], b);
    }
  }

  lemma StandAppends(a: seq<Piece>, b: seq<Piece>, u: string, v: string)
    requires StandFor(a, u) && StandFor(b, v)
    ensures StandFor(a + b, u + v)
  {
    hide PieceText;
    PieceTextAppends(ConfigToken, UnicodeEscape, a, b);
  }

  lemma HexDigitStays(d: nat)
    requires d < 16
    ensures UnicodeEscape(HexDigit(d)) == [HexDigit(d)] && HexDigit(d) !in "*?\\"
  {
    var c := HexDigit(d);
    assert '0' <= c <= '9' || 'a' <= c <= 'f';
    assert "*?\\" == ['*', '?', '\\'];
  }

  /** Hexadecimal digits are plain characters of a value. */
  lemma {:induction false} HexPieces(n: nat, digits: nat, t: string, controls: string) returns (ps: seq<Piece>)
    requires forall c :: c in controls ==> c in "*?"
    ensures Pieces(Hex(n, digits) + t, controls, CONTROL_ESCAPES) == ps + Pieces(t, controls, CONTROL_ESCAPES)
    ensures StandFor(ps, Hex(n, digits))
    decreases digits
  {
    hide UnicodeEscape;
    if digits == 0 {
      ps := [];
      assert Hex(n, digits) + t == t;
    } else {
      var c := HexDigit(n % 16);
      HexDigitStays(n % 16);
      assert "*?" == ['*', '?'] && "*?\\" == ['*', '?', '\\'];
      assert Hex(n, digits) + t == Hex(n / 16, digits - 1) + ([c] + t);
      assert ([c] + t)[1..] == t;
      var first := HexPieces(n / 16, digits - 1, [c] + t, controls);
      ps := first + [Char(c)];
      assert first + ([Char(c)] + Pieces(t, controls, CONTROL_ESCAPES)) == ps + Pieces(t, controls, CONTROL_ESCAPES);
      StandForOne(Char(c));
      StandAppends(first, [Char(c)], Hex(n / 16, digits - 1), [c]);
    }
  }

  lemma StandForOne(p: Piece)
    requires !p.Wild?
    ensures StandFor([p], if p.Char? then UnicodeEscape(p.c) else ['\\', p.c])
  {
    hide UnicodeEscape;
    var ps := [p];
    assert ps[1..] == [] && PieceText(ConfigToken, UnicodeEscape, []) == "";
    assert PieceText(ConfigToken, UnicodeEscape, ps) == OnePieceText(ConfigToken, UnicodeEscape, p) + "";
    assert OnePieceText(ConfigToken, UnicodeEscape, p) + "" == OnePieceText(ConfigToken, UnicodeEscape, p);
  }

  /** A control escape with its hexadecimal digits. */
  lemma EscapePieces(letter: char, n: nat, digits: nat, t: string, controls: string) returns (ps: seq<Piece>)
    requires letter in "tnrxuU" && forall c :: c in controls ==> c in "*?"
    ensures var u := ['\\', letter] + Hex(n, digits);
      Pieces(u + t, controls, CONTROL_ESCAPES) == ps + Pieces(t, controls, CONTROL_ESCAPES) && StandFor(ps, u)
  {
    hide UnicodeEscape, Hex;
    var u := ['\\', letter] + Hex(n, digits);
    assert "*?" == ['*', '?'] && "tnrxuU" == ['t', 'n', 'r', 'x', 'u', 'U'];
    assert (u + t)[0] == '\\' && (u + t)[1] == letter && (u + t)[2..] == Hex(n, digits) + t;
    var rest := HexPieces(n, digits, t, controls);
    ps := [Escape(letter)] + rest;
    StandForOne(Escape(letter));
    StandAppends([Escape(letter)], rest, ['\\', letter], Hex(n, digits));
  }

  lemma StoredChar(c: char, t: string, controls: string) returns (ps: seq<Piece>)
    requires controls == "" || controls == "*?"
    ensures Pieces(AsValue(controls)(c) + t, controls, CONTROL_ESCAPES) == ps + Pieces(t, controls, CONTROL_ESCAPES)
    ensures StandFor(ps, UnicodeEscape(c))
  {
    hide StandFor, Hex;
    var v := AsValue(controls)(c) + t;
    assert "*?" == ['*', '?'] && CONTROL_ESCAPES == ['t', 'n', 'r', 'x', 'u', 'U'];
    StandForOne(Char(c));
    if c in controls || c == '\\' {
      assert v[2..] == t;
      ps := [Char(c)];
    } else if ' ' <= c <= '~' {
      assert v[1..] == t;
      ps := [Char(c)];
    } else {
      var letter, digits := EscapeOf(c);
      ps := EscapePieces(letter, c as int, digits, t, controls);
    }
  }

  /** The form of an escape. */
  lemma EscapeOf(c: char) returns (letter: char, digits: nat)
    requires c != '\\' && !(' ' <= c <= '~')
    ensures letter in "tnrxuU" && UnicodeEscape(c) == ['\\', letter] + Hex(c as int, digits)
  {
    assert "tnrxuU" == ['t', 'n', 'r', 'x', 'u', 'U'];
    if c == '\t' {
      return 't', 0;
    } else if c == '\n' {
      return 'n', 0;
    } else if c == '\r' {
      return 'r', 0;
    } else if c as int < 0x100 {
      return 'x', 2;
    } else if c as int < 0x10000 {
      return 'u', 4;
    }
    return 'U', 8;
  }

  lemma {:induction false} StoredPieces(s: string, controls: string)
    requires controls == "" || controls == "*?"
    ensures StandFor(Pieces(EncodeWith(AsValue(controls), s), controls, CONTROL_ESCAPES), EncodeWith(UnicodeEscape, s))
    decreases |s|
  {
    hide UnicodeEscape, AsValue;
    if s != "" {
      StoredPieces(s[1..], controls);
      var ps := StoredChar(s[0], EncodeWith(AsValue(controls), s[1..]), controls);
      StandAppends(ps, Pieces(EncodeWith(AsValue(controls), s[1..]), controls, CONTROL_ESCAPES), UnicodeEscape(s[0]),
        EncodeWith(UnicodeEscape, s[1..]));
    }
  }

  /** Stored text of a configuration, given as a value, is compared as it is. */
  lemma StoredIsKept(s: string)
    ensures ConfigRegular(EncodeWith(UnicodeEscape, s)) == EncodeWith(UnicodeEscape, s)
  {
    hide UnicodeEscape;
    var v := EncodeWith(UnicodeEscape, s);
    SameEncoding(AsValue(""), UnicodeEscape, s);
    StoredPieces(s, "");
    var ps := Pieces(v, "", CONTROL_ESCAPES);
    JoinedGrouped(ConfigToken, UnicodeEscape, "", ps);
    assert "" + PieceText(ConfigToken, UnicodeEscape, ps) == PieceText(ConfigToken, UnicodeEscape, ps);
  }

  lemma {:induction false} SameEncoding(f: char -> string, g: char -> string, s: string)
    requires forall c :: c in s ==> f(c) == g(c)
    ensures EncodeWith(f, s) == EncodeWith(g, s)
    decreases |s|
  {
    if s != "" {
      SameEncoding(f, g, s[1..]);
    }
  }

  /** With its wildcards escaped it stands for itself in patterns, quoted ones included. */
  lemma StoredFindsItself(s: string, column: string)
    ensures var v := EncodeWith(AsValue("*?"), s);
      && ConfigPattern(v) == Lits(EncodeWith(UnicodeEscape, s))
      && (Like(column, ConfigLikeStatement(v)) <==> column == EncodeWith(UnicodeEscape, s))
      && forall quotes :: (Like(column, QuotedConfigLikeStatement(v, quotes)) <==>
           column == EncodeWith(Quoting(quotes), EncodeWith(UnicodeEscape, s)))
  {
    hide UnicodeEscape, QuotedConfigLikeStatement, Quoting, EncodeToks, ParseLike, ConfigLikeStatement;
    var v, u := EncodeWith(AsValue("*?"), s), EncodeWith(UnicodeEscape, s);
    StoredPieces(s, "*?");
    ConfigTextMeans(Pieces(v, "*?", CONTROL_ESCAPES));
    ConfigLikeStatementMeans(v);
    LitsMatch(u, column);
    forall quotes ensures Like(column, QuotedConfigLikeStatement(v, quotes)) <==>
      column == EncodeWith(Quoting(quotes), u) {
      QuotedConfigMeans(v, quotes);
      EncodeLits(Quoting(quotes), u);
      LitsMatch(EncodeWith(Quoting(quotes), u), column);
    }
  }

  /** Stored text without wildcards needs no escape. */
  lemma StoredWithoutWildcards(s: string, column: string)
    requires '*' !in s && '?' !in s
    ensures Like(column, ConfigLikeStatement(EncodeWith(UnicodeEscape, s))) <==> column == EncodeWith(UnicodeEscape, s)
  {
    hide UnicodeEscape, ConfigLikeStatement;
    assert "*?" == ['*', '?'];
    SameEncoding(AsValue("*?"), UnicodeEscape, s);
    StoredFindsItself(s, column);
  }

  // ---- Columns that hold text as it is -----------------------------------------------------------------

  /** A character written in a value with wildcards and backslashes escaped. */
  function EscapedChar(c: char): string {
    Escaped("*?\\", c)
  }

  /** The first character of an escaped text. */
  lemma EscapedFirst(c: char, rest: string)
    ensures var v := EscapedChar(c) + rest;
      Pieces(v, "*?", "") == [Char(c)] + Pieces(rest, "*?", "") && Regular(v) == [c] + Regular(rest)
  {
    var v := EscapedChar(c) + rest;
    assert "*?\\" == ['*', '?', '\\'] && "*?" == ['*', '?'];
    assert v[|EscapedChar(c)|..] == rest;
  }

  /** Every text can be searched for: with wildcards and backslashes escaped it stands for itself. */
  lemma {:induction false} EscapedStandsForItself(s: string)
    ensures var v := EncodeWith(EscapedChar, s);
      !HasWildcard(v) && ValuePattern(v) == Lits(s) && Regular(v) == s
    decreases |s|
  {
    hide Pieces, EscapedChar, Regular;
    if s != "" {
      var c, rest := s[0], EncodeWith(EscapedChar, s[1..]);
      EscapedStandsForItself(s[1..]);
      EscapedFirst(c, rest);
      var ps := [Char(c)] + Pieces(rest, "*?", "");
      assert ps[1..] == Pieces(rest, "*?", "");
      assert Lits([c]) == [Lit(c)] && Lits(s) == [Lit(c)] + Lits(s[1..]);
      assert s == [c] + s[1..];
    } else {
      NothingEscaped();
    }
  }

  lemma NothingEscaped()
    ensures Pieces("", "*?", "") == [] && Regular("") == ""
  {}

  /** `string_equals` with such a value finds exactly the text, taken for a pattern or not. */
  lemma EscapedFindsItself(isPattern: bool, s: string, column: string)
    ensures StringEquals(isPattern, column, EncodeWith(EscapedChar, s)) <==> column == s
  {
    hide LikeStatement, ParseLike;
    var v := EncodeWith(EscapedChar, s);
    EscapedStandsForItself(s);
    LikeStatementMeans(v);
    LitsMatch(s, column);
  }

  /** A backslash makes any character plain, except a line feed, in front of which it stands for itself. */
  lemma BackslashMakesPlain(c: char)
    ensures ValuePattern(['\\', c]) == if c == '\n' then [Lit('\\'), Lit(c)] else [Lit(c)]
  {
    var v, one := ['\\', c], [Char(c)];
    assert "*?" == ['*', '?'];
    assert v[1..] == [c] && [c][1..] == "" && v[2..] == "" && one[1..] == [];
    assert Meaning(Itself, one) == Lits([c]) + [] && Lits([c]) == [Lit(c)];
    if c == '\n' {
      var two := [Char('\\'), Char(c)];
      assert Pieces(v, "*?", "") == two && two[1..] == one;
      assert Meaning(Itself, two) == Lits("\\") + [Lit(c)] && Lits("\\") == [Lit('\\')];
    } else {
      assert Pieces(v, "*?", "") == one;
    }
  }
}
