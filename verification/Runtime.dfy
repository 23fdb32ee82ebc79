/**
 What code does when its simple statements and conditions mean what they mean in PHP. The operators are a
 parameter, so nothing here depends on PHP's conversions; only the order of evaluation is fixed.
 */
module Runtime {
  import opened Wrappers
  import opened PhpCode

  /** The operators on values, and what counts as true and as zero. */
  datatype Php = Php(apply: (Op, Value, Value) -> Value, truthy: Value -> bool, isZero: Value -> bool)

  type Store = map<string, Value>

  /** A variable that was never assigned reads as null. */
  function Read(st: Store, x: string): Value {
    if x in st then st[x] else Null
  }

  function Eval(php: Php, st: Store, e: Expr): Value {
    match e
    case Lit(v) => v
    case Var(x) => Read(st, x)
    case Bin(op, l, r) => EvalBin(php, op, Eval(php, st, l), Eval(php, st, r))
  }

  /** Expressions have no effects, so the operand a short circuit skips may as well be evaluated. */
  function EvalBin(php: Php, op: Op, l: Value, r: Value): Value {
    match op
    case BooleanAnd | LogicalAnd => Bool(php.truthy(l) && php.truthy(r))
    case BooleanOr | LogicalOr => Bool(php.truthy(l) || php.truthy(r))
    case Coalesce => if l != Null then l else r
    case _ => php.apply(op, l, r)
  }

  function Exec(php: Php, st: Store, s: Simple): Store {
    match s
    case Assign(x, e) => st[x := Eval(php, st, e)]
    case AssignOp(op, x, e) => st[x := EvalBin(php, op, Read(st, x), Eval(php, st, e))]
    case Echo(_) => st
  }

  /** The variables after everything in `h` happened. */
  function Replay(php: Php, h: seq<Event>): Store {
    if h == [] then map[]
    else
      var st := Replay(php, h[..|h| - 1]);
      if h[|h| - 1].Did? then Exec(php, st, h[|h| - 1].s) else st
  }

  datatype Output = Printed(v: Value) | Finished(result: Option<Value>) | Crashed(name: string)

  function PrintAll(php: Php, st: Store, es: seq<Expr>): seq<Output> {
    if es == [] then [] else [Printed(Eval(php, st, es[0]))] + PrintAll(php, st, es[1..])
  }

  /** What one event shows to the outside. */
  function Shown(php: Php, st: Store, e: Event): seq<Output> {
    match e
    case Did(Echo(es)) => PrintAll(php, st, es)
    case Ended(None) => [Finished(None)]
    case Ended(Some(x)) => [Finished(Some(Eval(php, st, x)))]
    case NoSuchLabel(l) => [Crashed(l)]
    case _ => []
  }

  /** Everything the outside has seen. */
  function Outputs(php: Php, h: seq<Event>): seq<Output> {
    if h == [] then []
    else Outputs(php, h[..|h| - 1]) + Shown(php, Replay(php, h[..|h| - 1]), h[|h| - 1])
  }

  /** Branches go where their conditions say. */
  function Branches(php: Php): Oracle {
    (h, c) => php.truthy(Eval(php, Replay(php, h), c))
  }

  lemma OneMore(php: Php, h: seq<Event>, e: Event)
    ensures Replay(php, h + [e]) == if e.Did? then Exec(php, Replay(php, h), e.s) else Replay(php, h)
    ensures Outputs(php, h + [e]) == Outputs(php, h) + Shown(php, Replay(php, h), e)
  {
    assert (h + [e])[..|h|] == h;
  }

  /** What was shown stays shown. */
  lemma {:induction false} OutputsGrow(php: Php, h: seq<Event>, more: seq<Event>)
    requires h <= more
    ensures Outputs(php, h) <= Outputs(php, more)
    decreases |more|
  {
    if h == more {
    } else {
      assert h <= more[..|more| - 1];
      OutputsGrow(php, h, more[..|more| - 1]);
    }
  }

  /** Everything `p` shows is shown by `q`, too, and the other way round. */
  ghost predicate SameOutputs(php: Php, p: seq<Stmt>, q: seq<Stmt>) {
    && (forall n: nat :: Shows(php, q, Outputs(php, Trace(p, Branches(php), n))))
    && (forall n: nat :: Shows(php, p, Outputs(php, Trace(q, Branches(php), n))))
  }

  /** Program `p` gets as far as having shown `out`. */
  ghost predicate Shows(php: Php, p: seq<Stmt>, out: seq<Output>) {
    exists n: nat :: out <= Outputs(php, Trace(p, Branches(php), n))
  }

  lemma SameTracesSameOutputs(php: Php, p: seq<Stmt>, q: seq<Stmt>)
    requires SameTraces(p, q, Branches(php))
    ensures SameOutputs(php, p, q)
  {
    hide Outputs, Trace, Branches;
    var o := Branches(php);
    forall n: nat ensures Shows(php, q, Outputs(php, Trace(p, o, n))) {
      assert Does(q, o, Trace(p, o, n));
      var m: nat :| Trace(p, o, n) <= Trace(q, o, m);
      OutputsGrow(php, Trace(p, o, n), Trace(q, o, m));
    }
    forall n: nat ensures Shows(php, p, Outputs(php, Trace(q, o, n))) {
      assert Does(p, o, Trace(q, o, n));
      var m: nat :| Trace(q, o, n) <= Trace(p, o, m);
      OutputsGrow(php, Trace(q, o, n), Trace(p, o, m));
    }
  }

  lemma ShowsMore(php: Php, p: seq<Stmt>, q: seq<Stmt>, out: seq<Output>)
    requires Shows(php, p, out) && forall n: nat :: Shows(php, q, Outputs(php, Trace(p, Branches(php), n)))
    ensures Shows(php, q, out)
  {
    var o := Branches(php);
    var n: nat :| out <= Outputs(php, Trace(p, o, n));
    assert Shows(php, q, Outputs(php, Trace(p, o, n)));
    var m: nat :| Outputs(php, Trace(p, o, n)) <= Outputs(php, Trace(q, o, m));
    assert out <= Outputs(php, Trace(q, o, m));
  }

  lemma SameOutputsTrans(php: Php, p: seq<Stmt>, q: seq<Stmt>, r: seq<Stmt>)
    requires SameOutputs(php, p, q) && SameOutputs(php, q, r)
    ensures SameOutputs(php, p, r)
  {
    hide Shows;
    forall n: nat ensures Shows(php, r, Outputs(php, Trace(p, Branches(php), n))) {
      ShowsMore(php, q, r, Outputs(php, Trace(p, Branches(php), n)));
    }
    forall n: nat ensures Shows(php, p, Outputs(php, Trace(r, Branches(php), n))) {
      ShowsMore(php, q, p, Outputs(php, Trace(r, Branches(php), n)));
    }
  }
}
