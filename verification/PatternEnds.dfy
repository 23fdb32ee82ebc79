/**
 `is_inner_match_pattern` and `ensure_inner_match_pattern` of `parse_helpers.py`: whether a value starts and ends
 with a wildcard `*`, as their regular expression sees it, and for which values it sees rightly.
 */
module PatternEnds {
  import opened SearchTokens

  /** The expression `(?<=[^\\])[*]|\\\\[*]|^[*]` matches up to a `*` at index `i`. */
  predicate StarAt(v: string, i: nat) {
    i < |v| && v[i] == '*' && (i == 0 || v[i - 1] != '\\' || (i >= 2 && v[i - 2] == '\\'))
  }

  /** It matches at the start. */
  predicate StartsWithStar(v: string) {
    (v != "" && v[0] == '*') || (|v| >= 3 && v[..3] == "\\\\*")
  }

  /** It matches in front of `$`, which also stands in front of a final newline. */
  predicate EndsWithStar(v: string) {
    (v != "" && StarAt(v, |v| - 1)) || (|v| >= 2 && v[|v| - 1] == '\n' && StarAt(v, |v| - 2))
  }

  predicate IsInnerMatch(v: string) {
    StartsWithStar(v) && EndsWithStar(v)
  }

  function EnsureInnerMatch(v: string): string {
    (if StartsWithStar(v) then "" else "*") + v + (if EndsWithStar(v) then "" else "*")
  }

  /** The backslashes at the end of a text. */
  function Backslashes(v: string): nat {
    if v != "" && v[|v| - 1] == '\\' then Backslashes(v[..|v| - 1]) + 1 else 0
  }

  /** The expression sees the start of the value rightly. */
  predicate StartSettled(v: string) {
    !(|v| >= 3 && v[..3] == "\\\\*")
  }

  /** The expression sees the end of the value rightly, and a `*` put behind the value is a wildcard. */
  predicate EndSettled(v: string) {
    if v == "" then true
    else if v[|v| - 1] == '*' then
      var n := Backslashes(v[..|v| - 1]); n % 2 == 0 || n == 1
    else if v[|v| - 1] == '\n' then |v| == 1 || !StarAt(v, |v| - 2)
    else Backslashes(v) % 2 == 0
  }

  // ---- Backslashes ---------------------------------------------------------------------------------

  predicate AllBackslashes(v: string) {
    forall c :: c in v ==> c == '\\'
  }

  lemma {:induction false} BackslashesOfConcat(a: string, b: string)
    ensures Backslashes(a + b) == if AllBackslashes(b) then Backslashes(a) + |b| else Backslashes(b)
    decreases |b|
  {
    if b == "" {
      assert a + b == a;
    } else {
      var n := |a + b|;
      assert (a + b)[n - 1] == b[|b| - 1] && (a + b)[..n - 1] == a + b[..|b| - 1];
      assert b == b[..|b| - 1] + [b[|b| - 1]];
      BackslashesOfConcat(a, b[..|b| - 1]);
      if b[|b| - 1] == '\\' {
        SnocBackslash(b[..|b| - 1]);
      } else {
        assert !AllBackslashes(b) by { assert b[|b| - 1] in b; }
      }
    }
  }

  lemma SnocBackslash(v: string)
    ensures AllBackslashes(v + ['\\']) <==> AllBackslashes(v)
  {
    if AllBackslashes(v + ['\\']) {
      forall c | c in v ensures c == '\\' {
        assert c in v + ['\\'];
      }
    }
  }

  lemma {:induction false} AllBackslashesCount(v: string)
    ensures AllBackslashes(v) ==> Backslashes(v) == |v|
    decreases |v|
  {
    if v != "" && AllBackslashes(v) {
      var init := v[..|v| - 1];
      assert v[|v| - 1] in v && forall c :: c in init ==> c in v;
      assert AllBackslashes(init);
      AllBackslashesCount(init);
      assert |init| == |v| - 1;
    }
  }

  /** The part of the text one step of the tokenizer leaves has as many backslashes at its end, or two fewer. */
  lemma StepBackslashes(v: string, k: nat)
    requires 0 < k <= |v| && (k == 1 ==> v[0] != '\\' || (|v| > 1 && v[1] == '\n')) && (k == 2 ==> v[0] == '\\')
      && k <= 2
    ensures Backslashes(v) % 2 == Backslashes(v[k..]) % 2
  {
    hide Backslashes, AllBackslashes;
    var a, b := v[..k], v[k..];
    assert v == a + b;
    BackslashesOfConcat(a, b);
    AllBackslashesCount(b);
    if k == 1 {
      assert a == [v[0]];
      OneCharacter(v[0]);
      assert v[0] == '\\' ==> b[0] == '\n';
      NotAllBackslashes(b);
    } else {
      assert a == ['\\', v[1]];
      TwoCharacters(v[1]);
    }
  }

  lemma NotAllBackslashes(v: string)
    ensures v != "" && v[0] != '\\' ==> !AllBackslashes(v)
  {
    assert v != "" ==> v[0] in v;
  }

  lemma OneCharacter(c: char)
    ensures Backslashes([c]) == if c == '\\' then 1 else 0
  {
    assert [c][..0] == "";
  }

  lemma TwoCharacters(c: char)
    ensures Backslashes(['\\', c]) == if c == '\\' then 2 else 0
  {
    assert ['\\', c][..1] == ['\\'];
    OneCharacter('\\');
  }

  // ---- The last piece --------------------------------------------------------------------------------

  /** A `*` behind a value is a wildcard iff the backslashes in front of it are even. */
  lemma {:induction false} PiecesThenStar(v: string, escapes: string)
    requires '*' !in escapes
    ensures Backslashes(v) % 2 == 0 ==> Pieces(v + "*", "*?", escapes) == Pieces(v, "*?", escapes) + [Wild('*')]
    ensures Backslashes(v) % 2 == 1 ==> EndsInChar(Pieces(v + "*", "*?", escapes), '*')
    decreases |v|
  {
    hide Pieces;
    if v == "" {
      StarFirst("", escapes);
      NoPieces(escapes);
      assert v + "*" == "*" + "";
    } else if v == "\\" {
      DanglingStar(escapes);
    } else {
      var k := if v[0] !in "*?" && IsEscape(v) then 2 else 1;
      assert "*?" == ['*', '?'];
      StepBackslashes(v, k);
      SameFirst(v, "*", escapes, k);
      PiecesThenStar(v[k..], escapes);
    }
  }

  lemma NoPieces(escapes: string)
    ensures Pieces("", "*?", escapes) == [] && [Wild('*')] + Pieces("", "*?", escapes) == [] + [Wild('*')]
  {}

  /** More text behind a value leaves its first piece as it is, unless it is a lone backslash. */
  lemma SameFirst(v: string, more: string, escapes: string, k: nat)
    requires v != "" && v != "\\" && k == (if v[0] !in "*?" && IsEscape(v) then 2 else 1)
    ensures k <= |v| && |Pieces(v, "*?", escapes)| > 0
    ensures var p := [Pieces(v, "*?", escapes)[0]];
      && Pieces(v, "*?", escapes) == p + Pieces(v[k..], "*?", escapes)
      && Pieces(v + more, "*?", escapes) == p + Pieces(v[k..] + more, "*?", escapes)
  {
    var w := v + more;
    assert w[0] == v[0] && IsEscape(w) == IsEscape(v);
    assert w[k..] == v[k..] + more && (k == 2 ==> w[1] == v[1]);
  }

  lemma DanglingStar(escapes: string)
    requires '*' !in escapes
    ensures Backslashes("\\") == 1 && Pieces("\\" + "*", "*?", escapes) == [Char('*')]
  {
    var v, w := "\\", "\\" + "*";
    assert v[..|v| - 1] == "" && Backslashes("") == 0;
    assert |w| == 2 && w[0] == '\\' && w[1] == '*' && w[2..] == "";
    assert "*?" == ['*', '?'];
    assert IsEscape(w) && Pieces(w[2..], "*?", escapes) == [];
  }

  ghost predicate EndsInChar(ps: seq<Piece>, c: char) {
    ps != [] && ps[|ps| - 1] == Char(c)
  }

  ghost predicate EndsInStar(ps: seq<Piece>) {
    ps != [] && ps[|ps| - 1] == Wild('*')
  }

  /** A newline is never part of an escape. */
  lemma {:induction false} NewlineIsLast(v: string, escapes: string)
    requires v != "" && v[|v| - 1] == '\n'
    ensures EndsInChar(Pieces(v, "*?", escapes), '\n')
    decreases |v|
  {
    assert "*?" == ['*', '?'];
    if |v| == 1 {
      assert v[1..] == "";
      assert Pieces(v, "*?", escapes) == [Char('\n')];
    } else {
      var k := if v[0] !in "*?" && IsEscape(v) then 2 else 1;
      assert k < |v|;
      NewlineIsLast(v[k..], escapes);
      assert Pieces(v, "*?", escapes)[1..] == Pieces(v[k..], "*?", escapes);
    }
  }

  /** The pieces of the value that is ensured to be an inner match. */
  ghost predicate Wrapped(v: string, escapes: string) {
    var ps, qs := Pieces(v, "*?", escapes), Pieces(EnsureInnerMatch(v), "*?", escapes);
    && qs == (if StartsWithStar(v) then [] else [Wild('*')]) + ps + (if EndsWithStar(v) then [] else [Wild('*')])
    && qs != [] && qs[0] == Wild('*') && EndsInStar(qs)
  }

  /** If both ends are seen rightly, the ensured value is the value between two wildcards. */
  lemma SettledIsWrapped(v: string, escapes: string)
    requires StartSettled(v) && EndSettled(v) && '*' !in escapes
    ensures Wrapped(v, escapes)
  {
    EndIsRight(v, escapes);
    StarInFront(v, escapes);
  }

  /** A `*` in front is a wildcard, whatever comes behind it. */
  lemma StarInFront(v: string, escapes: string)
    requires StartSettled(v) && '*' !in escapes
    requires var w := if EndsWithStar(v) then v else v + "*";
      && Pieces(w, "*?", escapes) == Pieces(v, "*?", escapes) + (if EndsWithStar(v) then [] else [Wild('*')])
      && EndsInStar(Pieces(w, "*?", escapes))
    ensures Wrapped(v, escapes)
  {
    hide Pieces, EndsWithStar;
    var w := if EndsWithStar(v) then v else v + "*";
    if StartsWithStar(v) {
      assert w != "" && w[0] == '*' && w == "*" + w[1..];
      StarFirst(w[1..], escapes);
      assert EnsureInnerMatch(v) == w;
    } else {
      assert EnsureInnerMatch(v) == "*" + w;
      StarFirst(w, escapes);
    }
  }

  lemma StarFirst(v: string, escapes: string)
    ensures Pieces("*" + v, "*?", escapes) == [Wild('*')] + Pieces(v, "*?", escapes)
  {
    var w := "*" + v;
    assert "*?" == ['*', '?'];
    assert w[0] == '*' && w[1..] == v;
  }

  lemma EndIsRight(v: string, escapes: string)
    requires EndSettled(v) && '*' !in escapes
    ensures var w := if EndsWithStar(v) then v else v + "*";
      && Pieces(w, "*?", escapes) == Pieces(v, "*?", escapes) + (if EndsWithStar(v) then [] else [Wild('*')])
      && EndsInStar(Pieces(w, "*?", escapes))
  {
    if v == "" {
      PiecesThenStar("", escapes);
    } else if v[|v| - 1] == '*' {
      var init := v[..|v| - 1];
      assert v == init + "*";
      LastStar(v);
      PiecesThenStar(init, escapes);
      PiecesThenStar(v, escapes);
    } else {
      PiecesThenStar(v, escapes);
    }
  }

  /** What the expression sees of a `*` at the end. */
  lemma LastStar(v: string)
    requires v != "" && v[|v| - 1] == '*'
    ensures EndsWithStar(v) <==> Backslashes(v[..|v| - 1]) != 1
    ensures Backslashes(v) == 0
  {
    var init := v[..|v| - 1];
    if init != "" && init[|init| - 1] == '\\' {
      var rest := init[..|init| - 1];
      assert Backslashes(init) == Backslashes(rest) + 1;
      assert rest != "" ==> rest[|rest| - 1] == v[|v| - 3];
    }
  }

  /** If the end is not seen rightly, the ensured value ends in a character that is not a quote. */
  lemma UnsettledEnd(v: string, escapes: string)
    requires !EndSettled(v) && '*' !in escapes
    ensures var ps := Pieces(EnsureInnerMatch(v), "*?", escapes); EndsInChar(ps, '*') || EndsInChar(ps, '\n')
  {
    var w := if EndsWithStar(v) then v else v + "*";
    if v[|v| - 1] == '*' {
      assert v == v[..|v| - 1] + "*";
      LastStar(v);
      PiecesThenStar(v[..|v| - 1], escapes);
    } else if v[|v| - 1] == '\n' {
      NewlineIsLast(v, escapes);
    } else {
      PiecesThenStar(v, escapes);
    }
    assert "*?" == ['*', '?'];
    if !StartsWithStar(v) {
      var e := EnsureInnerMatch(v);
      assert e == "*" + w && e[0] == '*' && e[1..] == w;
      assert Pieces(e, "*?", escapes) == [Wild('*')] + Pieces(w, "*?", escapes);
    } else {
      assert EnsureInnerMatch(v) == w;
    }
  }

  /** If the start is not seen rightly, the ensured value starts with a backslash. */
  lemma UnsettledStart(v: string, escapes: string)
    requires !StartSettled(v) && '\\' !in escapes
    ensures var ps := Pieces(EnsureInnerMatch(v), "*?", escapes); ps != [] && ps[0] == Char('\\')
  {
    assert "*?" == ['*', '?'];
    var e := EnsureInnerMatch(v);
    assert v[0] == v[..3][0] && v[1] == v[..3][1];
    assert e[0] == '\\' && e[1] == '\\';
  }
}
