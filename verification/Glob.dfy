/**
 Patterns of literal characters and the two wildcards, and what they match. Both a search value and a LIKE
 pattern stand for such a pattern.
 */
module Glob {
  datatype Tok = Lit(c: char) | One | Many

  predicate Matches(toks: seq<Tok>, s: string)
    decreases |toks| + |s|
  {
    if toks == [] then s == ""
    else
      match toks[0]
      case Lit(c) => s != "" && s[0] == c && Matches(toks[1..], s[1..])
      case One => s != "" && Matches(toks[1..], s[1..])
      case Many => Matches(toks[1..], s) || (s != "" && Matches(toks, s[1..]))
  }

  function Lits(s: string): (toks: seq<Tok>)
    ensures |toks| == |s| && forall i :: 0 <= i < |s| ==> toks[i] == Lit(s[i])
  {
    seq(|s|, i requires 0 <= i < |s| => Lit(s[i]))
  }

  /** Literals match their own text and nothing else. */
  lemma {:induction false} LitsMatch(t: string, s: string)
    ensures Matches(Lits(t), s) <==> s == t
    decreases |t|
  {
    if t != "" {
      assert Lits(t)[1..] == Lits(t[1..]);
      if s != "" {
        LitsMatch(t[1..], s[1..]);
        assert s == [s[0]] + s[1..] && t == [t[0]] + t[1..];
      }
    }
  }

  /** Text in front that is matched literally. */
  lemma {:induction false} LitsFirst(t: string, toks: seq<Tok>, s: string)
    ensures Matches(Lits(t) + toks, t + s) <==> Matches(toks, s)
    decreases |t|
  {
    if t == "" {
      assert Lits(t) + toks == toks && t + s == s;
    } else {
      assert (Lits(t) + toks)[1..] == Lits(t[1..]) + toks && (t + s)[1..] == t[1..] + s;
      LitsFirst(t[1..], toks, s);
    }
  }

  /** `Many` takes any text in front. */
  lemma {:induction false} ManySkips(toks: seq<Tok>, pre: string, s: string)
    requires toks != [] && toks[0].Many? && Matches(toks, s)
    ensures Matches(toks, pre + s)
    decreases |pre|
  {
    if pre == "" {
      assert pre + s == s;
    } else {
      assert (pre + s)[1..] == pre[1..] + s;
      ManySkips(toks, pre[1..], s);
    }
  }

  /** `Many` takes any text behind, too. */
  lemma {:induction false} ManyEnds(toks: seq<Tok>, s: string, post: string)
    requires Matches(toks, s)
    ensures Matches(toks + [Many], s + post)
    decreases |toks| + |s|
  {
    var all := toks + [Many];
    if toks == [] {
      assert all == [Many] && s + post == post;
      assert [Many][1..] == [] && post + "" == post;
      assert Matches([], "");
      assert Matches([Many], "");
      ManySkips([Many], post, "");
    } else {
      assert all[0] == toks[0] && all[1..] == toks[1..] + [Many];
      if s != "" {
        assert (s + post)[0] == s[0] && (s + post)[1..] == s[1..] + post;
      }
      match toks[0]
      case Many =>
        if Matches(toks[1..], s) {
          ManyEnds(toks[1..], s, post);
        } else {
          ManyEnds(toks, s[1..], post);
        }
      case _ => ManyEnds(toks[1..], s[1..], post);
    }
  }

  /** A pattern that ends in `Many` takes any text behind. */
  lemma {:induction false} LastMany(toks: seq<Tok>, s: string, post: string)
    requires toks != [] && toks[|toks| - 1].Many? && Matches(toks, s)
    ensures Matches(toks, s + post)
    decreases |toks| + |s|
  {
    if |toks| == 1 {
      ManyTakesAll(s + post);
      assert toks == [Many];
    } else {
      assert s != "" ==> (s + post)[0] == s[0] && (s + post)[1..] == s[1..] + post;
      match toks[0]
      case Many =>
        if Matches(toks[1..], s) {
          LastMany(toks[1..], s, post);
        } else {
          LastMany(toks, s[1..], post);
        }
      case _ => LastMany(toks[1..], s[1..], post);
    }
  }

  lemma {:induction false} ManyTakesAll(s: string)
    ensures Matches([Many], s)
    decreases |s|
  {
    assert [Many][1..] == [];
    if s != "" {
      ManyTakesAll(s[1..]);
    }
  }

  /** One more `Many` does not lose a match. */
  lemma MoreMany(toks: seq<Tok>, s: string)
    requires Matches(toks, s)
    ensures Matches([Many] + toks, s) && Matches(toks + [Many], s)
  {
    assert ([Many] + toks)[1..] == toks;
    ManyEnds(toks, s, "");
    assert s + "" == s;
  }

  /** A text of the pattern: `fill` for `One`, `gap` for `Many`. */
  function Sample(toks: seq<Tok>, fill: char, gap: string): string {
    if toks == [] then ""
    else (match toks[0] case Lit(c) => [c] case One => [fill] case Many => gap) + Sample(toks[1..], fill, gap)
  }

  lemma {:induction false} SampleMatches(toks: seq<Tok>, fill: char, gap: string)
    ensures Matches(toks, Sample(toks, fill, gap))
    decreases |toks|
  {
    if toks != [] {
      var rest := Sample(toks[1..], fill, gap);
      SampleMatches(toks[1..], fill, gap);
      var s := Sample(toks, fill, gap);
      if toks[0].Many? {
        assert Matches(toks, rest);
        ManySkips(toks, gap, rest);
      } else {
        assert s[1..] == rest;
      }
    }
  }

  /** A pattern with a wildcard matches two different texts. */
  lemma {:induction false} SamplesDiffer(toks: seq<Tok>)
    ensures |Sample(toks, 'a', "")| <= |Sample(toks, 'b', "b")|
    ensures (exists t :: t in toks && !t.Lit?) ==> Sample(toks, 'a', "") != Sample(toks, 'b', "b")
    decreases |toks|
  {
    if toks != [] {
      SamplesDiffer(toks[1..]);
      var s, t := Sample(toks, 'a', ""), Sample(toks, 'b', "b");
      assert forall x :: x in toks ==> x == toks[0] || x in toks[1..];
      if toks[0].Lit? && s == t {
        assert s[1..] == Sample(toks[1..], 'a', "") && t[1..] == Sample(toks[1..], 'b', "b");
      }
      if toks[0].One? {
        assert s[0] == 'a' && t[0] == 'b';
      }
    }
  }

  /** Every literal of a pattern occurs in whatever it matches. */
  lemma {:induction false} LiteralOccurs(toks: seq<Tok>, s: string, c: char)
    requires Matches(toks, s) && Lit(c) in toks
    ensures c in s
    decreases |toks| + |s|
  {
    if toks[0] != Lit(c) {
      assert Lit(c) in toks[1..];
      if toks[0].Many? {
        if Matches(toks[1..], s) {
          LiteralOccurs(toks[1..], s, c);
        } else {
          LiteralOccurs(toks, s[1..], c);
        }
      } else {
        LiteralOccurs(toks[1..], s[1..], c);
      }
    }
  }

  /** A pattern that ends in a literal matches texts that end in it only. */
  lemma {:induction false} LastLiteral(toks: seq<Tok>, s: string)
    requires toks != [] && toks[|toks| - 1].Lit? && Matches(toks, s)
    ensures s != "" && s[|s| - 1] == toks[|toks| - 1].c
    decreases |toks| + |s|
  {
    if toks[0].Many? {
      if Matches(toks[1..], s) {
        LastLiteral(toks[1..], s);
      } else {
        LastLiteral(toks, s[1..]);
      }
    } else if |toks| > 1 {
      LastLiteral(toks[1..], s[1..]);
    }
  }

  // ---- Texts encoded character by character ----------------------------------------------------------

  function EncodeWith(enc: char -> string, s: string): string {
    if s == "" then "" else enc(s[0]) + EncodeWith(enc, s[1..])
  }

  /** The pattern whose literals are encoded. */
  function EncodeToks(enc: char -> string, toks: seq<Tok>): seq<Tok> {
    if toks == [] then []
    else (if toks[0].Lit? then Lits(enc(toks[0].c)) else [toks[0]]) + EncodeToks(enc, toks[1..])
  }

  // ---- Runs of wildcards ---------------------------------------------------------------------------

  /** Between two literals there is a run of `One` without a `Many`. */
  predicate BareRun(toks: seq<Tok>, i: nat, k: nat) {
    i + 1 < k < |toks| && toks[i].Lit? && toks[k].Lit? && forall j :: i < j < k ==> toks[j].One?
  }

  ghost predicate NoBareRuns(toks: seq<Tok>) {
    forall i: nat, k: nat :: !BareRun(toks, i, k)
  }

  ghost predicate AllWild(toks: seq<Tok>) {
    forall t :: t in toks ==> !t.Lit?
  }

  function Ones(toks: seq<Tok>): nat {
    if toks == [] then 0 else (if toks[0].One? then 1 else 0) + Ones(toks[1..])
  }

  /** The wildcards at the start. */
  function RunLength(toks: seq<Tok>): (n: nat)
    ensures n <= |toks| && (n < |toks| ==> toks[n].Lit?) && forall i :: 0 <= i < n ==> !toks[i].Lit?
  {
    if toks == [] || toks[0].Lit? then 0 else 1 + RunLength(toks[1..])
  }

  /** Every run of wildcards has a `Many`, the first and the last run, too. */
  ghost predicate SafeRuns(toks: seq<Tok>)
    decreases |toks|
  {
    if toks == [] then true
    else if toks[0].Lit? then SafeRuns(toks[1..])
    else Many in toks[..RunLength(toks)] && SafeRuns(toks[RunLength(toks)..])
  }

  /** A run takes at least as many characters as it has `One`. */
  lemma {:induction false} RunSplits(run: seq<Tok>, rest: seq<Tok>, s: string) returns (k: nat)
    requires AllWild(run) && Matches(run + rest, s)
    ensures Ones(run) <= k <= |s| && Matches(rest, s[k..])
    decreases |run| + |s|
  {
    if run == [] {
      assert run + rest == rest && s[0..] == s;
      k := 0;
    } else {
      assert (run + rest)[0] == run[0] && (run + rest)[1..] == run[1..] + rest;
      assert run[0] in run && forall t :: t in run[1..] ==> t in run;
      if run[0].Many? && Matches(run[1..] + rest, s) {
        k := RunSplits(run[1..], rest, s);
      } else {
        k := RunSplits(if run[0].Many? then run else run[1..], rest, s[1..]);
        assert s[1..][k..] == s[k + 1..];
        k := k + 1;
      }
    }
  }

  lemma {:induction false} OnesTake(run: seq<Tok>, rest: seq<Tok>, y: string, z: string)
    requires |y| == |run| && (forall t :: t in run ==> t.One?) && Matches(rest, z)
    ensures Matches(run + rest, y + z)
    decreases |run|
  {
    if run == [] {
      assert run + rest == rest && y + z == z;
    } else {
      assert run[0] in run && forall t :: t in run[1..] ==> t in run;
      assert (run + rest)[0] == run[0] && (run + rest)[1..] == run[1..] + rest && (y + z)[1..] == y[1..] + z;
      OnesTake(run[1..], rest, y[1..], z);
    }
  }

  lemma {:induction false} OnlyOnes(run: seq<Tok>)
    requires forall t :: t in run ==> t.One?
    ensures Ones(run) == |run|
    decreases |run|
  {
    if run != [] {
      assert run[0] in run && forall t :: t in run[1..] ==> t in run;
      OnlyOnes(run[1..]);
    }
  }

  /** With a `Many`, a run takes any text that is long enough. */
  lemma {:induction false} RunTakes(run: seq<Tok>, rest: seq<Tok>, y: string, z: string)
    requires AllWild(run) && Many in run && Ones(run) <= |y| && Matches(rest, z)
    ensures Matches(run + rest, y + z)
    decreases |run|
  {
    assert run[0] in run && forall t :: t in run[1..] ==> t in run;
    assert (run + rest)[0] == run[0] && (run + rest)[1..] == run[1..] + rest;
    if run[0].One? {
      assert (y + z)[1..] == y[1..] + z;
      RunTakes(run[1..], rest, y[1..], z);
    } else if Many in run[1..] {
      RunTakes(run[1..], rest, y, z);
    } else {
      OnlyOnes(run[1..]);
      var front, back := y[..|y| - |run[1..]|], y[|y| - |run[1..]|..];
      OnesTake(run[1..], rest, back, z);
      ManySkips(run + rest, front, back + z);
      assert front + (back + z) == y + z;
    }
  }

  lemma {:induction false} EncodeLonger(enc: char -> string, s: string)
    requires forall c :: enc(c) != ""
    ensures |EncodeWith(enc, s)| >= |s|
    decreases |s|
  {
    if s != "" {
      EncodeLonger(enc, s[1..]);
    }
  }

  lemma {:induction false} WildsStay(enc: char -> string, run: seq<Tok>)
    requires AllWild(run)
    ensures EncodeToks(enc, run) == run
    decreases |run|
  {
    if run != [] {
      assert run[0] in run && forall t :: t in run[1..] ==> t in run;
      WildsStay(enc, run[1..]);
      assert run == [run[0]] + run[1..];
    }
  }

  /** If every run has a `Many`, what matches still matches when pattern and text are encoded alike. */
  lemma {:induction false} EncodedMatches(enc: char -> string, toks: seq<Tok>, s: string)
    requires (forall c :: enc(c) != "") && SafeRuns(toks) && Matches(toks, s)
    ensures Matches(EncodeToks(enc, toks), EncodeWith(enc, s))
    decreases |toks|
  {
    if toks != [] && toks[0].Lit? {
      EncodedMatches(enc, toks[1..], s[1..]);
      LitsFirst(enc(s[0]), EncodeToks(enc, toks[1..]), EncodeWith(enc, s[1..]));
    } else if toks != [] {
      var n := RunLength(toks);
      var run, rest := toks[..n], toks[n..];
      assert toks == run + rest;
      var k := RunSplits(run, rest, s);
      EncodedMatches(enc, rest, s[k..]);
      EncodeLonger(enc, s[..k]);
      WildsStay(enc, run);
      EncodeToksAppends(enc, run, rest);
      EncodeAppends(enc, s[..k], s[k..]);
      assert s == s[..k] + s[k..];
      RunTakes(run, EncodeToks(enc, rest), EncodeWith(enc, s[..k]), EncodeWith(enc, s[k..]));
    }
  }

  /** Between two `Many`, a pattern has no runs without a `Many` but those between literals. */
  lemma {:induction false} SafeFrom(toks: seq<Tok>, p: nat)
    requires NoBareRuns(toks) && p <= |toks| && toks != [] && toks[0].Many? && toks[|toks| - 1].Many?
    requires p == 0 || p == |toks| || toks[p].Lit? || toks[p - 1].Lit?
    ensures SafeRuns(toks[p..])
    decreases |toks| - p
  {
    if p < |toks| && toks[p].Lit? {
      SafeFrom(toks, p + 1);
      assert toks[p..][1..] == toks[p + 1..];
    } else if p < |toks| {
      var n := RunLength(toks[p..]);
      var run := toks[p..][..n];
      assert forall i :: p <= i < p + n ==> toks[i] == run[i - p];
      assert Many in run by {
        if p == 0 {
          assert run[0] == toks[0];
        } else if p + n == |toks| {
          assert run[n - 1] == toks[|toks| - 1];
        } else {
          assert toks[p + n] == toks[p..][n];
          assert !BareRun(toks, p - 1, p + n);
        }
      }
      SafeFrom(toks, p + n);
      assert toks[p..][n..] == toks[p + n..];
    }
  }

  lemma {:induction false} EncodeToksAppends(enc: char -> string, a: seq<Tok>, b: seq<Tok>)
    ensures EncodeToks(enc, a + b) == EncodeToks(enc, a) + EncodeToks(enc, b)
    decreases |a|
  {
    if a == [] {
      assert a + b == b;
    } else {
      assert (a + b)[0] == a[0] && (a + b)[1..] == a[1..] + b;
      EncodeToksAppends(enc, a[1..], b);
    }
  }

  lemma {:induction false} EncodeAppends(enc: char -> string, a: string, b: string)
    ensures EncodeWith(enc, a + b) == EncodeWith(enc, a) + EncodeWith(enc, b)
    decreases |a|
  {
    if a == "" {
      assert a + b == b;
    } else {
      assert (a + b)[0] == a[0] && (a + b)[1..] == a[1..] + b;
      EncodeAppends(enc, a[1..], b);
    }
  }

  lemma LitsAppends(a: string, b: string)
    ensures Lits(a + b) == Lits(a) + Lits(b)
  {}
}
