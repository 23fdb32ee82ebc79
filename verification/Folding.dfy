/**
 Constant folding of `Resolver.php`, `ResolveValueVisitor.php` and the reducers on values. A variable refers to
 a cell that it may share with other variables; a cell holds a value and the mark that the value can no
 longer be relied on.
 */
module Folding {
  import opened Wrappers
  import opened PhpCode
  import opened Runtime

  datatype Cell = Cell(value: Value, isMutable: bool)

  /** The variables of the current scope and the cells made so far. */
  datatype Scope = Scope(vars: map<string, nat>, cells: seq<Cell>)

  /** Variables refer to cells that exist. */
  ghost predicate ScopeOk(sc: Scope) {
    forall x :: x in sc.vars ==> sc.vars[x] < |sc.cells|
  }

  function NewCell(sc: Scope, v: Value): Scope {
    sc.(cells := sc.cells + [Cell(v, false)])
  }

  function MarkCell(sc: Scope, c: nat): Scope {
    if c < |sc.cells| then sc.(cells := sc.cells[c := sc.cells[c].(isMutable := true)]) else sc
  }

  function CellsInUse(sc: Scope): set<nat> {
    set x | x in sc.vars :: sc.vars[x]
  }

  /** `setCurrentVarsMutable` */
  function MarkAll(sc: Scope): Scope {
    sc.(cells := seq(|sc.cells|, c requires 0 <= c < |sc.cells| =>
      if c in CellsInUse(sc) then sc.cells[c].(isMutable := true) else sc.cells[c]))
  }

  /** `getValue` of an expression's value attribute: unknown and mutable are different exceptions. */
  datatype Lookup = Known(v: Value) | Unknown | Mutable

  function Look(sc: Scope, ref: Option<nat>): Lookup {
    if ref.None? || ref.value >= |sc.cells| then Unknown
    else if sc.cells[ref.value].isMutable then Mutable
    else Known(sc.cells[ref.value].value)
  }

  /** The reducers of binary operators: an operand that is looked at must be known; a short circuit does not look. */
  function Reduce(php: Php, op: Op, l: Lookup, r: Lookup): Option<Value> {
    if !l.Known? then None
    else
      match op
      case BooleanAnd | LogicalAnd => if !php.truthy(l.v) then Some(Bool(false))
        else if r.Known? then Some(Bool(php.truthy(r.v))) else None
      case BooleanOr | LogicalOr => if php.truthy(l.v) then Some(Bool(true))
        else if r.Known? then Some(Bool(php.truthy(r.v))) else None
      case Coalesce => if l.v != Null then Some(l.v) else if r.Known? then Some(r.v) else None
      case Div => if r.Known? && !php.isZero(r.v) then Some(php.apply(op, l.v, r.v)) else None
      case _ => if r.Known? then Some(php.apply(op, l.v, r.v)) else None
  }

  /** An expression after its visit, and its value attribute. */
  datatype Valued = Valued(e: Expr, ref: Option<nat>, scope: Scope)

  function FoldExpr(php: Php, sc: Scope, e: Expr): Valued
    decreases e
  {
    match e
    case Lit(v) => Valued(e, Some(|sc.cells|), NewCell(sc, v))
    case Var(x) => Valued(e, if x in sc.vars then Some(sc.vars[x]) else None, sc)
    case Bin(op, l, r) =>
      var left := FoldExpr(php, sc, l);
      var right := FoldExpr(php, left.scope, r);
      var k := right.scope;
      match Reduce(php, op, Look(k, left.ref), Look(k, right.ref))
      case Some(v) => Valued(Lit(v), Some(|k.cells|), NewCell(k, v))
      case None => Valued(Bin(op, left.e, right.e), None, k)
  }

  /** The operators with an assignment form. */
  predicate HasAssignOp(op: Op) {
    op in {BitwiseAnd, BitwiseOr, BitwiseXor, Coalesce, Concat, Div, Minus, Mod, Mul, Plus, Pow, ShiftLeft, ShiftRight}
  }

  /** `assign`: the variable takes over the cell, or what it had is marked. */
  function AssignRef(sc: Scope, x: string, ref: Option<nat>): Scope {
    if ref.Some? then sc.(vars := sc.vars[x := ref.value])
    else if x in sc.vars then MarkCell(sc, sc.vars[x])
    else sc
  }

  /** The assignment that is left: with an operator again if it has that form. */
  function Restored(x: string, e: Expr): Simple {
    if e.Bin? && e.left == Var(x) && HasAssignOp(e.op) then AssignOp(e.op, x, e.right) else Assign(x, e)
  }

  datatype SimpleFolded = SimpleFolded(s: Simple, scope: Scope)

  function FoldAssign(php: Php, sc: Scope, x: string, e: Expr): SimpleFolded {
    var r := FoldExpr(php, sc, e);
    SimpleFolded(Restored(x, r.e), AssignRef(r.scope, x, r.ref))
  }

  /** The expressions of an `echo` after their visits. */
  datatype AllValued = AllValued(es: seq<Expr>, refs: seq<Option<nat>>, scope: Scope)

  function FoldExprs(php: Php, sc: Scope, es: seq<Expr>): (r: AllValued)
    ensures |r.es| == |r.refs| == |es|
    decreases |es|
  {
    if es == [] then AllValued([], [], sc)
    else
      var first := FoldExpr(php, sc, es[0]);
      var rest := FoldExprs(php, first.scope, es[1..]);
      AllValued([first.e] + rest.es, [first.ref] + rest.refs, rest.scope)
  }

  /** `reduceEcho`: a mutable value stops the reduction of the whole statement, an unknown one keeps its expression. */
  function ReduceEcho(sc: Scope, es: seq<Expr>, refs: seq<Option<nat>>): Option<seq<Expr>>
    requires |es| == |refs|
  {
    if es == [] then Some([])
    else
      match Look(sc, refs[0])
      case Mutable => None
      case Known(v) => PrependTo(Lit(v), ReduceEcho(sc, es[1..], refs[1..]))
      case Unknown => PrependTo(es[0], ReduceEcho(sc, es[1..], refs[1..]))
  }

  function PrependTo(e: Expr, es: Option<seq<Expr>>): Option<seq<Expr>> {
    if es.Some? then Some([e] + es.value) else None
  }

  function FoldSimple(php: Php, sc: Scope, s: Simple): SimpleFolded {
    match s
    case Assign(x, e) => FoldAssign(php, sc, x, e)
    case AssignOp(op, x, e) => FoldAssign(php, sc, x, Bin(op, Var(x), e))
    case Echo(es) =>
      var r := FoldExprs(php, sc, es);
      var reduced := ReduceEcho(r.scope, r.es, r.refs);
      SimpleFolded(Echo(if reduced.Some? then reduced.value else r.es), r.scope)
  }

  datatype StmtFolded = StmtFolded(s: Stmt, scope: Scope)

  datatype AllFolded = AllFolded(ss: seq<Stmt>, scope: Scope)

  function FoldStmt(php: Php, sc: Scope, s: Stmt): StmtFolded
    decreases s
  {
    match s
    case Plain(x) =>
      var r := FoldSimple(php, sc, x);
      StmtFolded(Plain(r.s), r.scope)
    case Return(None, _) => StmtFolded(s, sc)
    case Return(Some(e), implied) =>
      var r := FoldExpr(php, sc, e);
      var v := Look(r.scope, r.ref);
      StmtFolded(if v.Known? then Return(Some(Lit(v.v)), false) else Return(Some(r.e), implied), r.scope)
    case Goto(_) => StmtFolded(s, sc)
    case Label(_) => StmtFolded(s, MarkAll(sc))
    case If(c, thn, els) =>
      var cond := FoldExpr(php, sc, c);
      var body := FoldAll(php, cond.scope, thn);
      if els.NoElse? then StmtFolded(If(cond.e, body.ss, NoElse), MarkAll(body.scope))
      else
        var other := FoldAll(php, body.scope, els.stmts);
        StmtFolded(If(cond.e, body.ss, Else(other.ss)), MarkAll(other.scope))
    case Loop(While, c, stmts) =>
      var cond := FoldExpr(php, MarkAll(sc), c);
      var body := FoldAll(php, cond.scope, stmts);
      StmtFolded(Loop(While, cond.e, body.ss), MarkAll(body.scope))
    case Loop(kind, c, stmts) =>
      var body := FoldAll(php, MarkAll(sc), stmts);
      var cond := FoldExpr(php, body.scope, c);
      StmtFolded(Loop(kind, cond.e, body.ss), MarkAll(cond.scope))
  }

  function FoldAll(php: Php, sc: Scope, ss: seq<Stmt>): AllFolded
    decreases ss
  {
    if ss == [] then AllFolded([], sc)
    else
      var first := FoldStmt(php, sc, ss[0]);
      var rest := FoldAll(php, first.scope, ss[1..]);
      AllFolded([first.s] + rest.ss, rest.scope)
  }

  /** The second traversal of `deobfuscate`, which starts with no variables. */
  function Folded(php: Php, p: seq<Stmt>): seq<Stmt> {
    FoldAll(php, Scope(map[], []), p).ss
  }
}
