/**
 The PHP code the deobfuscator works on, and what running it does. A configuration holds the list of
 statements still to run; a jump replaces that list by the one that follows the label. Branches ask an
 oracle that may depend on everything that happened so far, so a statement about all oracles covers
 every meaning of the simple statements and conditions.
 */
module PhpCode {
  import opened Wrappers

  datatype Value = Null | Bool(b: bool) | Int(i: int) | Float(f: real) | Str(s: string)

  datatype Op =
    | BooleanAnd | BooleanOr | LogicalAnd | LogicalOr | LogicalXor | Coalesce
    | Plus | Minus | Mul | Div | Mod | Pow | Concat
    | BitwiseAnd | BitwiseOr | BitwiseXor | ShiftLeft | ShiftRight
    | Equal | NotEqual | Identical | NotIdentical
    | Smaller | SmallerOrEqual | Greater | GreaterOrEqual | Spaceship

  datatype Expr = Lit(v: Value) | Var(x: string) | Bin(op: Op, left: Expr, right: Expr)

  datatype Simple = Assign(x: string, e: Expr) | AssignOp(op: Op, x: string, e: Expr) | Echo(es: seq<Expr>)

  /** `DoTest` is the test at the end of a `do` loop; it occurs in configurations only. */
  datatype LoopKind = While | DoWhile | DoTest

  datatype Stmt =
    | Plain(s: Simple)
    | Return(result: Option<Expr>, implied: bool)
    | Goto(target: string)
    | Label(name: string)
    | If(cond: Expr, thn: seq<Stmt>, els: Else)
    | Loop(kind: LoopKind, cond: Expr, body: seq<Stmt>)

  datatype Else = NoElse | Else(stmts: seq<Stmt>)

  datatype Event = Did(s: Simple) | Tested(cond: Expr,
    outcome: bool) | Ended(result: Option<Expr>) | NoSuchLabel(name: string)

  type Oracle = (seq<Event>, Expr) -> bool

  datatype Config = Running(rest: seq<Stmt>, history: seq<Event>) | Halted(history: seq<Event>)

  /** What runs after label `l` of `ss`, when `k` runs after `ss`; loops cannot be jumped into. */
  function Find(ss: seq<Stmt>, l: string, k: seq<Stmt>): Option<seq<Stmt>>
    decreases ss
  {
    if ss == [] then None
    else if ss[0] == Label(l) then Some(ss[1..] + k)
    else
      var here := if ss[0].If? then FindInIf(ss[0], l, ss[1..] + k) else None;
      if here.Some? then here else Find(ss[1..], l, k)
  }

  function FindInIf(s: Stmt, l: string, k: seq<Stmt>): Option<seq<Stmt>>
    requires s.If?
    decreases s
  {
    var inThen := Find(s.thn, l, k);
    if inThen.Some? || s.els.NoElse? then inThen else Find(s.els.stmts, l, k)
  }

  function ElseOf(s: Stmt): seq<Stmt>
    requires s.If?
  {
    if s.els.Else? then s.els.stmts else []
  }

  /** One step of program `p`. */
  function Step(p: seq<Stmt>, o: Oracle, c: Config): Config {
    if c.Halted? then c
    else if c.rest == [] then Halted(c.history + [Ended(None)])
    else
      var k, h := c.rest[1..], c.history;
      match c.rest[0]
      case Plain(s) => Running(k, h + [Did(s)])
      case Return(e, _) => Halted(h + [Ended(e)])
      case Label(_) => Running(k, h)
      case Goto(l) =>
        (match Find(p, l, [])
         case Some(k') => Running(k', h)
         case None => Halted(h + [NoSuchLabel(l)]))
      case If(cond, thn, _) =>
        var taken := o(h, cond);
        Running((if taken then thn else ElseOf(c.rest[0])) + k, h + [Tested(cond, taken)])
      case Loop(DoWhile, cond, body) => Running(body + ([Loop(DoTest, cond, body)] + k), h)
      case Loop(_, cond, body) =>
        var taken := o(h, cond);
        Running(if taken then body + c.rest else k, h + [Tested(cond, taken)])
  }

  function Steps(p: seq<Stmt>, o: Oracle, c: Config, n: nat): Config
    decreases n
  {
    if n == 0 then c else Steps(p, o, Step(p, o, c), n - 1)
  }

  /** What program `p` has done after `n` steps. */
  function Trace(p: seq<Stmt>, o: Oracle, n: nat): seq<Event> {
    Steps(p, o, Running(p, []), n).history
  }

  /** Program `p` gets as far as having done `h`. */
  ghost predicate Does(p: seq<Stmt>, o: Oracle, h: seq<Event>) {
    exists n: nat :: h <= Trace(p, o, n)
  }

  /**
   Two programs mean the same under an oracle: whatever one has done after any number of steps, the
   other gets as far as having done too. Ending is an event, so one ends iff the other does.
   */
  ghost predicate SameTraces(p: seq<Stmt>, q: seq<Stmt>, o: Oracle) {
    && (forall n: nat :: Does(q, o, Trace(p, o, n)))
    && (forall n: nat :: Does(p, o, Trace(q, o, n)))
  }

  lemma {:induction false} StepsAdd(p: seq<Stmt>, o: Oracle, c: Config, m: nat, n: nat)
    ensures Steps(p, o, c, m + n) == Steps(p, o, Steps(p, o, c, m), n)
    decreases m
  {
    if m > 0 {
      StepsAdd(p, o, Step(p, o, c), m - 1, n);
    }
  }

  lemma {:induction false} StepsExtend(p: seq<Stmt>, o: Oracle, c: Config, n: nat)
    ensures c.history <= Steps(p, o, c, n).history
    decreases n
  {
    if n > 0 {
      assert c.history <= Step(p, o, c).history;
      StepsExtend(p, o, Step(p, o, c), n - 1);
    }
  }

  lemma TraceGrows(p: seq<Stmt>, o: Oracle, m: nat, n: nat)
    requires m <= n
    ensures Trace(p, o, m) <= Trace(p, o, n)
  {
    var c := Running(p, []);
    StepsAdd(p, o, c, m, n - m);
    StepsExtend(p, o, Steps(p, o, c, m), n - m);
  }

  lemma DoesMore(p: seq<Stmt>, q: seq<Stmt>, o: Oracle, h: seq<Event>)
    requires Does(p, o, h)
    requires forall n: nat :: Does(q, o, Trace(p, o, n))
    ensures Does(q, o, h)
  {
    var n: nat :| h <= Trace(p, o, n);
    assert Does(q, o, Trace(p, o, n));
    var m: nat :| Trace(p, o, n) <= Trace(q, o, m);
    assert h <= Trace(q, o, m);
  }

  lemma SameTracesTrans(p: seq<Stmt>, q: seq<Stmt>, r: seq<Stmt>, o: Oracle)
    requires SameTraces(p, q, o) && SameTraces(q, r, o)
    ensures SameTraces(p, r, o)
  {
    forall n: nat ensures Does(r, o, Trace(p, o, n)) {
      DoesMore(q, r, o, Trace(p, o, n));
    }
    forall n: nat ensures Does(p, o, Trace(r, o, n)) {
      DoesMore(q, p, o, Trace(r, o, n));
    }
  }

  lemma SameTracesSymmetric(p: seq<Stmt>, q: seq<Stmt>, o: Oracle)
    requires SameTraces(p, q, o)
    ensures SameTraces(q, p, o)
  {}

  lemma SameTracesReflexive(p: seq<Stmt>, o: Oracle)
    ensures SameTraces(p, p, o)
  {
    forall n: nat ensures Does(p, o, Trace(p, o, n)) {
      assert Trace(p, o, n) <= Trace(p, o, n);
    }
  }

  /** Code that runs after the searched list is just appended. */
  lemma {:induction false} FindAppends(ss: seq<Stmt>, l: string, k: seq<Stmt>, more: seq<Stmt>)
    ensures Find(ss, l, k + more) ==
      match Find(ss, l, k) case None => None case Some(r) => Some(r + more)
    decreases ss
  {
    if ss != [] {
      assert (ss[1..] + k) + more == ss[1..] + (k + more);
      FindAppends(ss[1..], l, k, more);
      if ss[0].If? {
        FindInIfAppends(ss[0], l, ss[1..] + k, more);
      }
    }
  }

  lemma {:induction false} FindInIfAppends(s: Stmt, l: string, k: seq<Stmt>, more: seq<Stmt>)
    requires s.If?
    ensures FindInIf(s, l, k + more) ==
      match FindInIf(s, l, k) case None => None case Some(r) => Some(r + more)
    decreases s
  {
    FindAppends(s.thn, l, k, more);
    if s.els.Else? {
      FindAppends(s.els.stmts, l, k, more);
    }
  }

  /** A search goes on behind a list that does not hold the label. */
  lemma {:induction false} FindConcat(a: seq<Stmt>, b: seq<Stmt>, l: string, k: seq<Stmt>)
    ensures Find(a + b, l, k) == if Find(a, l, b + k).Some? then Find(a, l, b + k) else Find(b, l, k)
    decreases |a|
  {
    if a == [] {
      assert a + b == b;
    } else {
      assert (a + b)[0] == a[0] && (a + b)[1..] == a[1..] + b;
      assert (a[1..] + b) + k == a[1..] + (b + k);
      FindConcat(a[1..], b, l, k);
    }
  }

  /** Ending by running off the end is the same as a final implied return. */
  lemma ImpliedReturnIsSilent(p: seq<Stmt>, o: Oracle)
    ensures SameTraces(p, p + [Return(None, true)], o)
  {
    var q := p + [Return(None, true)];
    forall n: nat ensures Trace(p, o, n) == Trace(q, o, n) {
      ImpliedReturnSteps(p, o, p, [], n);
    }
    forall n: nat ensures Does(q, o, Trace(p, o, n)) && Does(p, o, Trace(q, o, n)) {
      assert Trace(p, o, n) <= Trace(q, o, n) && Trace(q, o, n) <= Trace(p, o, n);
    }
  }

  lemma {:induction false} ImpliedReturnSteps(p: seq<Stmt>, o: Oracle, k: seq<Stmt>, h: seq<Event>, n: nat)
    ensures var r := [Return(None, true)];
      Steps(p, o, Running(k, h), n).history == Steps(p + r, o, Running(k + r, h), n).history
    decreases n
  {
    var r := [Return(None, true)];
    if n > 0 {
      var c, d := Step(p, o, Running(k, h)), Step(p + r, o, Running(k + r, h));
      if k == [] {
        assert k + r == r;
        HaltedStays(p, o, c, n - 1);
        HaltedStays(p + r, o, d, n - 1);
      } else {
        assert (k + r)[0] == k[0] && (k + r)[1..] == k[1..] + r;
        if k[0].Goto? {
          FindConcat(p, r, k[0].target, []);
          FindAppends(p, k[0].target, [], r);
          assert [] + r == r && r + [] == r;
        }
        if c.Running? {
          assert d == Running(c.rest + r, c.history) by {
            if k[0].If? {
              var body := if o(h, k[0].cond) then k[0].thn else ElseOf(k[0]);
              assert body + (k[1..] + r) == (body + k[1..]) + r;
            } else if k[0].Loop? {
              assert [Loop(DoTest, k[0].cond, k[0].body)] + (k[1..] + r) ==
                ([Loop(DoTest, k[0].cond, k[0].body)] + k[1..]) + r;
              assert k[0].body + (([Loop(DoTest, k[0].cond, k[0].body)] + k[1..]) + r) ==
                (k[0].body + ([Loop(DoTest, k[0].cond, k[0].body)] + k[1..])) + r;
              assert k[0].body + (k + r) == (k[0].body + k) + r;
            }
          }
          ImpliedReturnSteps(p, o, c.rest, c.history, n - 1);
        } else {
          HaltedStays(p, o, c, n - 1);
          HaltedStays(p + r, o, d, n - 1);
        }
      }
    }
  }

  lemma {:induction false} HaltedStays(p: seq<Stmt>, o: Oracle, c: Config, n: nat)
    requires c.Halted?
    ensures Steps(p, o, c, n) == c
    decreases n
  {
    if n > 0 {
      HaltedStays(p, o, c, n - 1);
    }
  }
}
