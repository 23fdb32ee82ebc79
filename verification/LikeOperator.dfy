/** LIKE of PostgreSQL, section 9.7.1 of its manual: `%`, `_` and the escape character `\`. */
module LikeOperator {
  import opened Glob
  import opened Wrappers

  /** The pattern a LIKE text stands for; a text that ends in the escape character is an error. */
  function ParseLike(p: string): Option<seq<Tok>> {
    if p == "" then Some([])
    else if p[0] == '\\' then
      if |p| == 1 then None else Prepend(Lit(p[1]), ParseLike(p[2..]))
    else Prepend(if p[0] == '%' then Many else if p[0] == '_' then One else Lit(p[0]), ParseLike(p[1..]))
  }

  function Prepend(t: Tok, toks: Option<seq<Tok>>): Option<seq<Tok>> {
    if toks.Some? then Some([t] + toks.value) else None
  }

  /** `column LIKE pattern` */
  predicate Like(s: string, p: string) {
    ParseLike(p).Some? && Matches(ParseLike(p).value, s)
  }

  /** LIKE texts one behind the other. */
  lemma {:induction false} ParseAppends(p: string, q: string)
    requires ParseLike(p).Some?
    ensures ParseLike(p + q) ==
      match ParseLike(q) case None => None case Some(t) => Some(ParseLike(p).value + t)
    decreases |p|
  {
    if p == "" {
      assert p + q == q;
      if ParseLike(q).Some? {
        assert [] + ParseLike(q).value == ParseLike(q).value;
      }
    } else if p[0] == '\\' {
      assert (p + q)[0] == p[0] && (p + q)[1] == p[1] && (p + q)[2..] == p[2..] + q;
      ParseAppends(p[2..], q);
      PrependAssoc(Lit(p[1]), ParseLike(p[2..]).value, ParseLike(q));
    } else {
      assert (p + q)[0] == p[0] && (p + q)[1..] == p[1..] + q;
      ParseAppends(p[1..], q);
      PrependAssoc(if p[0] == '%' then Many else if p[0] == '_' then One else Lit(p[0]), ParseLike(p[1..]).value,
        ParseLike(q));
    }
  }

  lemma PrependAssoc(t: Tok, a: seq<Tok>, b: Option<seq<Tok>>)
    ensures b.Some? ==> [t] + (a + b.value) == ([t] + a) + b.value
  {}
}
