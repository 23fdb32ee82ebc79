/**
 What folding achieves: an expression is computed exactly when everything its evaluation looks at can be relied on,
 and in the folded program every expression that the code in front of it determines is a literal.
 */
module FoldingComplete {
  import opened Wrappers
  import opened PhpCode
  import opened Runtime
  import opened Folding
  import opened FoldingSound

  /** The left operand decides, so the right one is not looked at. */
  predicate LeftDecides(php: Php, op: Op, v: Value) {
    match op
    case BooleanAnd | LogicalAnd => !php.truthy(v)
    case BooleanOr | LogicalOr => php.truthy(v)
    case Coalesce => v != Null
    case _ => false
  }

  /** The variables that evaluating `e` looks at. */
  function LookedAt(php: Php, st: Store, e: Expr): set<string> {
    match e
    case Lit(_) => {}
    case Var(x) => {x}
    case Bin(op, l, r) =>
      LookedAt(php, st, l) + if LeftDecides(php, op, Eval(php, st, l)) then {} else LookedAt(php, st, r)
  }

  /** Evaluating `e` divides by zero nowhere. */
  predicate DividesWell(php: Php, st: Store, e: Expr) {
    e.Bin? ==>
      && DividesWell(php, st, e.left)
      && (LeftDecides(php, e.op, Eval(php, st, e.left)) || DividesWell(php, st, e.right))
      && (e.op == Div ==> !php.isZero(Eval(php, st, e.right)))
  }

  /** The value attribute of a visited expression. */
  function ValueOf(php: Php, sc: Scope, e: Expr): Lookup {
    var r := FoldExpr(php, sc, e);
    Look(r.scope, r.ref)
  }

  /** What the visits of the operands leave for the operator. */
  lemma Operands(php: Php, sc: Scope, e: Expr)
    requires ScopeOk(sc) && e.Bin?
    ensures var left := FoldExpr(php, sc, e.left);
      var right := FoldExpr(php, left.scope, e.right);
      && ScopeOk(left.scope) && Relied(left.scope) == Relied(sc)
      && Look(right.scope, left.ref) == ValueOf(php, sc, e.left)
      && Look(right.scope, right.ref) == ValueOf(php, left.scope, e.right)
  {
    hide FoldExpr, Relied;
    var left := FoldExpr(php, sc, e.left);
    ExprMade(php, sc, e.left);
    MadeRelied(sc, left.scope);
    ExprMade(php, left.scope, e.right);
  }

  /** The value attribute of an operator's expression. */
  lemma OperatorValue(php: Php, sc: Scope, e: Expr)
    requires e.Bin?
    ensures var left := FoldExpr(php, sc, e.left);
      var right := FoldExpr(php, left.scope, e.right);
      var v := Reduce(php, e.op, Look(right.scope, left.ref), Look(right.scope, right.ref));
      && ValueOf(php, sc, e) == (if v.Some? then Lookup.Known(v.value) else Unknown)
      && FoldExpr(php, sc, e).e == if v.Some? then Lit(v.value) else Bin(e.op, left.e, right.e)
  {
    hide Reduce;
  }

  /** A reducer needs the left value, the right one unless the left decides, and a divisor that is not zero. */
  lemma ReduceIff(php: Php, op: Op, l: Lookup, r: Lookup, lv: Value, rv: Value)
    requires (l.Known? ==> l.v == lv) && (r.Known? ==> r.v == rv)
    ensures Reduce(php, op, l, r).Some? <==>
      l.Known? && (LeftDecides(php, op, lv) || r.Known?) && (op == Div ==> !php.isZero(rv))
    ensures Reduce(php, op, l, r).Some? ==> Reduce(php, op, l, r).value == EvalBin(php, op, lv, rv)
  {}

  lemma DivisionLooks(php: Php, op: Op, l: Value)
    requires LeftDecides(php, op, l)
    ensures op != Div
  {}

  lemma LeftIsEnough(php: Php, op: Op, l: Value, r: Value, r': Value)
    requires LeftDecides(php, op, l)
    ensures EvalBin(php, op, l, r) == EvalBin(php, op, l, r')
  {}

  /** An expression is computed iff all it looks at is relied on and it divides by zero nowhere. */
  lemma {:induction false} FoldKnowsIff(php: Php, sc: Scope, st: Store, e: Expr)
    requires ScopeOk(sc) && Agrees(Relied(sc), st)
    ensures ValueOf(php, sc, e).Known? <==> LookedAt(php, st, e) <= Relied(sc).Keys && DividesWell(php, st, e)
    ensures ValueOf(php, sc, e).Known? ==> ValueOf(php, sc, e).v == Eval(php, st, e)
    ensures ValueOf(php, sc, e).Known? && e.Bin? ==> FoldExpr(php, sc, e).e == Lit(Eval(php, st, e))
    decreases e
  {
    if e.Bin? {
      hide FoldExpr, Relied, ValueOf, ScopeOk, Reduce, EvalBin, LeftDecides;
      var left := FoldExpr(php, sc, e.left);
      var right := FoldExpr(php, left.scope, e.right);
      Operands(php, sc, e);
      OperatorValue(php, sc, e);
      FoldKnowsIff(php, sc, st, e.left);
      FoldKnowsIff(php, left.scope, st, e.right);
      ReduceIff(php, e.op, Look(right.scope, left.ref), Look(right.scope, right.ref), Eval(php, st, e.left),
        Eval(php, st, e.right));
    }
  }

  // ---- Programs ---------------------------------------------------------------------------------------

  /** The variables of `k` and no division by zero determine the value of `e`. */
  predicate Determined(php: Php, k: Knowledge, e: Expr) {
    LookedAt(php, k, e) <= k.Keys && DividesWell(php, k, e)
  }

  /** `f` is `e` with every operator whose value is determined replaced by that value. */
  predicate Computed(php: Php, k: Knowledge, e: Expr, f: Expr) {
    match e
    case Lit(_) => f == e
    case Var(_) => f == e
    case Bin(op, l, r) =>
      if Determined(php, k, e) then f == Lit(Eval(php, k, e))
      else f.Lit? || (f.Bin? && f.op == op && Computed(php, k, l, f.left) && Computed(php, k, r, f.right))
  }

  /** The expression an assignment assigns. */
  function Assigned(s: Simple): Expr
    requires !s.Echo?
  {
    if s.Assign? then s.e else Bin(s.op, Var(s.x), s.e)
  }

  /** The values that are certain, and variables that share their cell with no other. */
  datatype Sure = Sure(k: Knowledge, own: set<string>)

  const NOTHING_SURE := Sure(map[], {})

  /** Behind an assignment; a value that is not determined spoils the variable and those that may share its cell. */
  function AfterAssign(php: Php, c: Sure, x: string, e: Expr): Sure {
    var own := if e.Var? then c.own - {x, e.x} else if Determined(php, c.k, e) then c.own + {x} else c.own;
    if Determined(php, c.k, e) then Sure(c.k[x := Eval(php, c.k, e)], own)
    else Sure(map y | y in c.k && y != x && (x in c.own || y in c.own) :: c.k[y], own)
  }

  /** What straight-line code makes certain; behind branches, loops and labels nothing is. */
  function Certain(php: Php, c: Sure, s: Stmt): Sure {
    match s
    case Plain(x) => if x.Echo? then c else AfterAssign(php, c, x.x, Assigned(x))
    case Return(_, _) => c
    case Goto(_) => c
    case _ => NOTHING_SURE
  }

  function AllCertain(php: Php, c: Sure, ss: seq<Stmt>): Sure
    decreases |ss|
  {
    if ss == [] then c else AllCertain(php, Certain(php, c, ss[0]), ss[1..])
  }

  /** What is the same on both ways to an `else`: past its `then` branch and through it. */
  function Common(k: Knowledge, c: Sure): Sure {
    Sure(map x | x in k && x in c.k && c.k[x] == k[x] :: k[x], c.own)
  }

  /** The operators that combine or compare; they have no assignment form. */
  predicate GivesTruth(op: Op) {
    match op
    case BooleanAnd | BooleanOr | LogicalAnd | LogicalOr | LogicalXor => true
    case Equal | NotEqual | Identical | NotIdentical => true
    case Smaller | SmallerOrEqual | Greater | GreaterOrEqual | Spaceship => true
    case _ => false
  }

  lemma TruthIsNotAssigned(op: Op)
    ensures HasAssignOp(op) <==> !GivesTruth(op)
  {}

  /** `f` is the assignment `s`, computed; where an operator is left that has an assignment form, it is used. */
  predicate AssignComputed(php: Php, k: Knowledge, s: Simple, f: Simple)
    requires !s.Echo?
  {
    && !f.Echo? && f.x == s.x && Computed(php, k, Assigned(s), Assigned(f))
    && (f.Assign? ==> !f.e.Bin? || f.e.left != Var(f.x) || GivesTruth(f.e.op))
    && (f.AssignOp? ==> !GivesTruth(f.op))
  }

  ghost predicate EchoComputed(php: Php, k: Knowledge, es: seq<Expr>, f: Simple) {
    && f.Echo? && |f.es| == |es|
    && (forall i :: 0 <= i < |es| ==> f.es[i].Lit? || Computed(php, k, es[i], f.es[i]))
    && ((forall i :: 0 <= i < |es| ==> Determined(php, k, es[i])) ==>
      forall i :: 0 <= i < |es| ==> f.es[i] == Lit(Eval(php, k, es[i])))
  }

  ghost predicate SimpleComputed(php: Php, k: Knowledge, s: Simple, f: Simple) {
    if s.Echo? then EchoComputed(php, k, s.es, f) else AssignComputed(php, k, s, f)
  }

  /** `ff` is `ss` with all that the code in front determines computed, in branches and bodies as well. */
  ghost predicate Complete(php: Php, c: Sure, ss: seq<Stmt>, ff: seq<Stmt>)
    decreases ss
  {
    |ff| == |ss| && (ss != [] ==>
      && StmtComplete(php, c, ss[0], ff[0])
      && Complete(php, Certain(php, c, ss[0]), ss[1..], ff[1..]))
  }

  ghost predicate StmtComplete(php: Php, c: Sure, s: Stmt, f: Stmt)
    decreases s
  {
    match s
    case Plain(x) => f.Plain? && SimpleComputed(php, c.k, x, f.s)
    case Return(Some(e), _) =>
      f.Return? && f.result.Some?
        && if Determined(php, c.k, e) then f.result.value == Lit(Eval(php, c.k, e)) && !f.implied
           else f.result.value.Lit? || Computed(php, c.k, e, f.result.value)
    case If(cond, thn, els) =>
      && f.If? && Computed(php, c.k, cond, f.cond) && Complete(php, c, thn, f.thn) && f.els.Else? == els.Else?
      && (els.Else? ==> Complete(php, Common(c.k, AllCertain(php, c, thn)), els.stmts, f.els.stmts))
    case Loop(kind, cond, body) =>
      && f.Loop? && f.kind == kind && Complete(php, NOTHING_SURE, body, f.body)
      && Computed(php, if kind == While then map[] else AllCertain(php, NOTHING_SURE, body).k, cond, f.cond)
    case _ => f == s
  }

  /** A visit computes what is determined. */
  lemma {:induction false} ExprComputed(php: Php, sc: Scope, k: Knowledge, e: Expr)
    requires ScopeOk(sc) && Less(k, Relied(sc))
    ensures Computed(php, k, e, FoldExpr(php, sc, e).e)
    ensures Determined(php, k, e) ==> ValueOf(php, sc, e) == Lookup.Known(Eval(php, k, e))
    decreases e
  {
    if e.Bin? {
      hide FoldExpr, Relied, ValueOf, ScopeOk, Reduce, EvalBin, LeftDecides;
      var left := FoldExpr(php, sc, e.left);
      var right := FoldExpr(php, left.scope, e.right);
      Operands(php, sc, e);
      OperatorValue(php, sc, e);
      ExprComputed(php, sc, k, e.left);
      ExprComputed(php, left.scope, k, e.right);
      if Determined(php, k, e) {
        var l, r := Look(right.scope, left.ref), Look(right.scope, right.ref);
        var v := if r.Known? then r.v else Eval(php, k, e.right);
        ReduceIff(php, e.op, l, r, Eval(php, k, e.left), v);
        if LeftDecides(php, e.op, Eval(php, k, e.left)) {
          LeftIsEnough(php, e.op, Eval(php, k, e.left), Eval(php, k, e.right), v);
          DivisionLooks(php, e.op, Eval(php, k, e.left));
        }
      }
    }
  }

  /** Assigning a value that is determined: it can be relied on, and so can everything as before. */
  lemma AssignedIsRelied(php: Php, sc: Scope, k: Knowledge, x: string, e: Expr)
    requires ScopeOk(sc) && Less(k, Relied(sc)) && Determined(php, k, e)
    ensures var after := FoldAssign(php, sc, x, e).scope;
      ScopeOk(after) && Relied(after) == Relied(sc)[x := Eval(php, k, e)]
  {
    hide Determined, Eval, Computed;
    var r := FoldExpr(php, sc, e);
    ExprComputed(php, sc, k, e);
    ExprMade(php, sc, e);
    MadeRelied(sc, r.scope);
    hide FoldExpr;
    AssignRelies(r.scope, x, r.ref);
  }

  lemma AssignRelies(sc: Scope, x: string, ref: Option<nat>)
    requires ScopeOk(sc) && Look(sc, ref).Known?
    ensures ScopeOk(AssignRef(sc, x, ref)) && Relied(AssignRef(sc, x, ref)) == Relied(sc)[x := Look(sc, ref).v]
  {}

  predicate ShareCell(sc: Scope, x: string, y: string) {
    x in sc.vars && y in sc.vars && sc.vars[x] == sc.vars[y]
  }

  /** An unknown value spoils exactly the variables that share the old cell; a mutable cell is shared from then on. */
  lemma UnknownSpoilsExactly(sc: Scope, x: string, ref: Option<nat>)
    requires ScopeOk(sc) && !Look(sc, ref).Known? && (ref.Some? ==> ref.value < |sc.cells|)
    ensures ScopeOk(AssignRef(sc, x, ref))
    ensures var k := Relied(AssignRef(sc, x, ref)); forall y ::
      && (y in k <==> y in Relied(sc) && y != x && !(ref.None? && ShareCell(sc, x, y)))
      && (y in k ==> k[y] == Relied(sc)[y])
  {}

  /** The variables `own` have a cell each. */
  ghost predicate Owns(sc: Scope, own: set<string>) {
    && (forall x :: x in own ==> x in sc.vars)
    && (forall x, y :: x in own && y != x ==> !ShareCell(sc, x, y))
  }

  lemma SameOwns(sc: Scope, sc': Scope, own: set<string>)
    requires Owns(sc, own) && sc'.vars == sc.vars
    ensures Owns(sc', own)
  {
    assert forall x, y :: ShareCell(sc', x, y) == ShareCell(sc, x, y);
  }

  /** What is certain is relied on, and cells are shared by no more variables than expected. */
  ghost predicate Holds(sc: Scope, c: Sure) {
    ScopeOk(sc) && Less(c.k, Relied(sc)) && Owns(sc, c.own)
  }

  /** The cell of a visited expression: of a variable its own, of anything else a new one. */
  lemma NewCells(php: Php, sc: Scope, e: Expr)
    requires ScopeOk(sc)
    ensures var r := FoldExpr(php, sc, e);
      && (e.Var? ==> r.ref == (if e.x in sc.vars then Some(sc.vars[e.x]) else None) && r.scope == sc)
      && (!e.Var? && r.ref.Some? ==> forall x :: x in sc.vars ==> sc.vars[x] != r.ref.value)
  {
    if e.Bin? {
      var left := FoldExpr(php, sc, e.left);
      ExprMade(php, sc, e.left);
      MadeRelied(sc, left.scope);
      ExprMade(php, left.scope, e.right);
    }
  }

  lemma AssignedOwns(sc: Scope, own: set<string>, x: string, ref: Option<nat>, e: Expr, known: bool)
    requires ScopeOk(sc) && Owns(sc, own) && (ref.Some? ==> ref.value < |sc.cells|) && (known ==> ref.Some?)
    requires e.Var? ==> ref == if e.x in sc.vars then Some(sc.vars[e.x]) else None
    requires !e.Var? && ref.Some? ==> forall y :: y in sc.vars ==> sc.vars[y] != ref.value
    ensures Owns(AssignRef(sc, x, ref), if e.Var? then own - {x, e.x} else if known then own + {x} else own)
  {
    var sc', own' := AssignRef(sc, x, ref), if e.Var? then own - {x, e.x} else if known then own + {x} else own;
    forall z, y | z in own' && y != z ensures !ShareCell(sc', z, y) {
      assert z in own ==> !ShareCell(sc, z, y);
      assert e.Var? && z in own ==> !ShareCell(sc, z, e.x);
    }
  }

  lemma AssignHolds(php: Php, sc: Scope, c: Sure, x: string, e: Expr)
    requires Holds(sc, c)
    ensures Holds(FoldAssign(php, sc, x, e).scope, AfterAssign(php, c, x, e))
  {
    hide Determined, Eval, Computed, Look, AssignRef, Relied;
    var r := FoldExpr(php, sc, e);
    ExprComputed(php, sc, c.k, e);
    ExprMade(php, sc, e);
    MadeRelied(sc, r.scope);
    NewCells(php, sc, e);
    hide FoldExpr;
    var known := Look(r.scope, r.ref).Known?;
    SomeIsKnown(r.scope, r.ref);
    SameOwns(sc, r.scope, c.own);
    if known {
      AssignRelies(r.scope, x, r.ref);
    } else {
      UnknownSpoilsExactly(r.scope, x, r.ref);
      assert forall y :: ShareCell(r.scope, x, y) == ShareCell(r.scope, y, x);
    }
    AssignedOwns(r.scope, c.own, x, r.ref, e, Determined(php, c.k, e));
  }

  lemma SomeIsKnown(sc: Scope, ref: Option<nat>)
    ensures Look(sc, ref).Known? ==> ref.Some?
  {}

  // ---- The traversal computes everything that is determined ----------------------------------------------

  lemma AssignIsComputed(php: Php, sc: Scope, c: Sure, s: Simple)
    requires Holds(sc, c) && !s.Echo?
    ensures var r := FoldSimple(php, sc, s);
      AssignComputed(php, c.k, s, r.s) && Holds(r.scope, Certain(php, c, Plain(s)))
  {
    hide Computed, Determined, Eval, FoldExpr, AssignRef, Relied, HasAssignOp, GivesTruth, Owns, AfterAssign;
    var e := Assigned(s);
    forall op ensures HasAssignOp(op) <==> !GivesTruth(op) { TruthIsNotAssigned(op); }
    ExprComputed(php, sc, c.k, e);
    AssignHolds(php, sc, c, s.x, e);
  }

  lemma {:induction false} ExprsComputed(php: Php, sc: Scope, k: Knowledge, es: seq<Expr>)
    requires ScopeOk(sc) && Less(k, Relied(sc))
    ensures var r := FoldExprs(php, sc, es);
      forall i :: 0 <= i < |es| ==>
        && Computed(php, k, es[i], r.es[i])
        && (Determined(php, k, es[i]) ==> Look(r.scope, r.refs[i]) == Lookup.Known(Eval(php, k, es[i])))
    decreases |es|
  {
    if es != [] {
      hide FoldExpr, Relied, Computed, Determined, Eval, ScopeOk;
      var first := FoldExpr(php, sc, es[0]);
      ExprComputed(php, sc, k, es[0]);
      ExprMade(php, sc, es[0]);
      MadeRelied(sc, first.scope);
      ExprsComputed(php, first.scope, k, es[1..]);
      ExprsMade(php, first.scope, es[1..]);
    }
  }

  /** A reduced `echo` has literals where the values are known. */
  lemma {:induction false} ReducedEcho(sc: Scope, es: seq<Expr>, refs: seq<Option<nat>>)
    requires |es| == |refs|
    ensures var r := ReduceEcho(sc, es, refs);
      && (r.Some? ==> |r.value| == |es| && forall i :: 0 <= i < |es| ==>
           r.value[i] == if Look(sc, refs[i]).Known? then Lit(Look(sc, refs[i]).v) else es[i])
      && (r.None? <==> exists i :: 0 <= i < |es| && Look(sc, refs[i]).Mutable?)
    decreases |es|
  {
    if es != [] {
      ReducedEcho(sc, es[1..], refs[1..]);
      hide Look;
      if i :| 0 <= i < |es| && Look(sc, refs[i]).Mutable? && i > 0 {
        assert refs[1..][i - 1] == refs[i];
      }
    }
  }

  lemma EchoIsComputed(php: Php, sc: Scope, c: Sure, es: seq<Expr>)
    requires Holds(sc, c)
    ensures var r := FoldSimple(php, sc, Echo(es)); EchoComputed(php, c.k, es, r.s) && Holds(r.scope, c)
  {
    hide Computed, Determined, Eval, FoldExpr, Relied, ReduceEcho;
    var r := FoldExprs(php, sc, es);
    ExprsComputed(php, sc, c.k, es);
    ExprsMade(php, sc, es);
    MadeHolds(sc, r.scope, c);
    ReducedEcho(r.scope, r.es, r.refs);
  }

  /** Visiting expressions makes nothing less certain. */
  lemma MadeHolds(sc: Scope, sc': Scope, c: Sure)
    requires Holds(sc, c) && OnlyMade(sc, sc')
    ensures Holds(sc', c)
  {
    hide Owns;
    MadeRelied(sc, sc');
    SameOwns(sc, sc', c.own);
  }

  lemma NothingHolds(sc: Scope)
    requires ScopeOk(sc)
    ensures Holds(sc, NOTHING_SURE)
  {}

  lemma {:induction false} StmtIsComplete(php: Php, sc: Scope, c: Sure, s: Stmt)
    requires Holds(sc, c)
    ensures var r := FoldStmt(php, sc, s); StmtComplete(php, c, s, r.s) && Holds(r.scope, Certain(php, c, s))
    decreases s, 1
  {
    hide Computed, Determined, Eval, FoldExpr, Relied, MarkAll, EchoComputed, AssignComputed, FoldSimple, Owns,
      AfterAssign;
    StmtScopeOk(php, sc, s);
    NothingHolds(FoldStmt(php, sc, s).scope);
    match s
    case Plain(x) =>
      if x.Echo? {
        EchoIsComputed(php, sc, c, x.es);
      } else {
        AssignIsComputed(php, sc, c, x);
      }
    case Return(None, _) =>
    case Return(Some(e), _) =>
      ExprComputed(php, sc, c.k, e);
      ExprMade(php, sc, e);
      MadeHolds(sc, FoldExpr(php, sc, e).scope, c);
    case Goto(_) =>
    case Label(_) =>
    case If(cond, thn, els) => IfComplete(php, sc, c, cond, thn, els);
    case Loop(kind, cond, body) => LoopComplete(php, sc, c, kind, cond, body);
  }

  lemma {:induction false} IfComplete(php: Php, sc: Scope, c: Sure, cond: Expr, thn: seq<Stmt>, els: Else)
    requires Holds(sc, c)
    ensures StmtComplete(php, c, If(cond, thn, els), FoldStmt(php, sc, If(cond, thn, els)).s)
    decreases If(cond, thn, els), 0
  {
    hide Computed, Determined, Eval, FoldExpr, Relied, MarkAll, Owns;
    var test := FoldExpr(php, sc, cond);
    ExprComputed(php, sc, c.k, cond);
    ExprMade(php, sc, cond);
    MadeHolds(sc, test.scope, c);
    AllComplete(php, test.scope, c, thn);
    if els.Else? {
      AllComplete(php, FoldAll(php, test.scope, thn).scope, Common(c.k, AllCertain(php, c, thn)), els.stmts);
    }
  }

  lemma {:induction false} LoopComplete(php: Php, sc: Scope, c: Sure, kind: LoopKind, cond: Expr, body: seq<Stmt>)
    requires ScopeOk(sc)
    ensures StmtComplete(php, c, Loop(kind, cond, body), FoldStmt(php, sc, Loop(kind, cond, body)).s)
    decreases body, 1
  {
    hide Computed, Determined, Eval, FoldExpr, Relied, MarkAll, Owns;
    MarkAllForgets(sc);
    var start := MarkAll(sc);
    NothingHolds(start);
    if kind == While {
      var test := FoldExpr(php, start, cond);
      ExprComputed(php, start, map[], cond);
      ExprMade(php, start, cond);
      MadeHolds(start, test.scope, NOTHING_SURE);
      AllComplete(php, test.scope, NOTHING_SURE, body);
    } else {
      AllComplete(php, start, NOTHING_SURE, body);
      ExprComputed(php, FoldAll(php, start, body).scope, AllCertain(php, NOTHING_SURE, body).k, cond);
    }
  }

  lemma {:induction false} AllComplete(php: Php, sc: Scope, c: Sure, ss: seq<Stmt>)
    requires Holds(sc, c)
    ensures var r := FoldAll(php, sc, ss); Complete(php, c, ss, r.ss) && Holds(r.scope, AllCertain(php, c, ss))
    decreases ss, 0
  {
    hide FoldStmt, StmtComplete, Certain, Holds;
    if ss != [] {
      var first := FoldStmt(php, sc, ss[0]);
      StmtIsComplete(php, sc, c, ss[0]);
      AllComplete(php, first.scope, Certain(php, c, ss[0]), ss[1..]);
      var rest := FoldAll(php, first.scope, ss[1..]);
      assert ([first.s] + rest.ss)[1..] == rest.ss;
    }
  }

  /** In a folded program everything that straight-line code in front of it determines is computed. */
  lemma FoldingIsComplete(php: Php, p: seq<Stmt>)
    ensures Complete(php, NOTHING_SURE, p, Folded(php, p))
  {
    AllComplete(php, Scope(map[], []), NOTHING_SURE, p);
  }
}
