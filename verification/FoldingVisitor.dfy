/**
 The second pass on objects: value cells that variables and expression nodes refer to and whose mark is set in
 place. Each method is proved to do what the function of the `Folding` module does on values.
 */
module FoldingVisitor {
  import opened Wrappers
  import opened PhpCode
  import opened Runtime
  import opened Folding
  import opened FoldingSound

  /** `ScalarValue.php` with the mark of `AbstractValRef.php`; the number is for the proofs. */
  class ScalarValue {
    const value: Value
    var isMutable: bool
    ghost const number: nat

    constructor (value: Value, ghost number: nat)
      ensures this.value == value && !isMutable && this.number == number
    {
      this.value, isMutable, this.number := value, false, number;
    }

    method SetMutable(mutable: bool)
      modifies this
      ensures isMutable == mutable
    {
      isMutable := mutable;
    }

    /** `getValue`: a mutable value is an exception. */
    function GetValue(): Lookup
      reads this
    {
      if isMutable then Mutable else Lookup.Known(value)
    }
  }

  ghost function CellsOf(cells: seq<ScalarValue>): (cs: seq<Cell>)
    reads set c | c in cells
    ensures |cs| == |cells| && forall i :: 0 <= i < |cells| ==> cs[i] == Cell(cells[i].value, cells[i].isMutable)
  {
    seq(|cells|, i requires 0 <= i < |cells| reads set c | c in cells => Cell(cells[i].value, cells[i].isMutable))
  }

  ghost function NumberOf(c: ScalarValue?): Option<nat> {
    if c == null then None else Some(c.number)
  }

  /** The variables of `Scope.php`, and every cell made so far. */
  class ValueScope {
    var variables: map<string, ScalarValue>
    ghost var cells: seq<ScalarValue>

    constructor ()
      ensures Valid() && Abs() == Scope(map[], []) && cells == []
    {
      variables, cells := map[], [];
    }

    ghost predicate Valid()
      reads this
    {
      && (forall i :: 0 <= i < |cells| ==> cells[i].number == i)
      && (forall x :: x in variables ==> Knows(variables[x]))
    }

    ghost predicate Knows(c: ScalarValue)
      reads this`cells
    {
      c.number < |cells| && cells[c.number] == c
    }

    ghost function CellSet(): set<ScalarValue>
      reads this`cells
    {
      set c | c in cells
    }

    ghost function Abs(): Scope
      reads this, CellSet()
    {
      Scope(map x | x in variables :: variables[x].number, CellsOf(cells))
    }

    method SetVariable(name: string, val: ScalarValue)
      requires Valid() && Knows(val)
      modifies this`variables
      ensures Valid() && Abs() == var sc := old(Abs()); sc.(vars := sc.vars[name := val.number])
    {
      hide CellsOf;
      variables := variables[name := val];
    }

    method GetVariable(name: string) returns (c: ScalarValue?)
      requires Valid()
      ensures c == if name in variables then variables[name] else null
      ensures c != null ==> Knows(c)
    {
      c := if name in variables then variables[name] else null;
    }

    method MakeCell(v: Value) returns (c: ScalarValue)
      requires Valid()
      modifies this`cells
      ensures Valid() && fresh(c) && cells == old(cells) + [c] && Abs() == NewCell(old(Abs()), v) && Knows(c)
        && c.number == |old(cells)|
    {
      c := new ScalarValue(v, |cells|);
      cells := cells + [c];
    }
  }

  /** `Resolver`, `ResolveValueVisitor` and `ReducerVisitor` of one traversal. */
  class SecondPass {
    const php: Php
    const scope: ValueScope

    constructor (php: Php)
      ensures this.php == php && scope.Valid() && scope.Abs() == Scope(map[], []) && fresh(scope) && scope.cells == []
    {
      this.php := php;
      scope := new ValueScope();
    }

    /** `setCurrentVarsMutable` */
    method SetCurrentVarsMutable()
      requires scope.Valid()
      modifies scope.CellSet()
      ensures scope.Valid() && scope.Abs() == MarkAll(old(scope.Abs()))
    {
      var vars := scope.variables;
      var todo := vars.Keys;
      while todo != {}
        invariant todo <= vars.Keys
        invariant forall i :: 0 <= i < |scope.cells| ==>
          (scope.cells[i].isMutable <==>
            old(scope.cells[i].isMutable) || exists x :: x in vars && x !in todo && vars[x] == scope.cells[i])
      {
        var x :| x in todo;
        vars[x].SetMutable(true);
        todo := todo - {x};
      }
      ghost var was := old(scope.Abs());
      forall i | 0 <= i < |scope.cells| ensures scope.Abs().cells[i] == MarkAll(was).cells[i] {
        if exists x :: x in vars && vars[x] == scope.cells[i] {
          var x :| x in vars && vars[x] == scope.cells[i];
          assert was.vars[x] == i && i in CellsInUse(was);
        }
        if i in CellsInUse(was) {
          var x :| x in was.vars && was.vars[x] == i;
          assert scope.Knows(vars[x]) && vars[x] == scope.cells[i];
        }
      }
    }

    /** `assign`: the variable takes over the cell, or what it had is marked. */
    method Assign(x: string, val: ScalarValue?)
      requires scope.Valid() && (val != null ==> scope.Knows(val))
      modifies scope`variables, scope.CellSet()
      ensures scope.Valid() && scope.Abs() == AssignRef(old(scope.Abs()), x, NumberOf(val))
    {
      if val != null {
        scope.SetVariable(x, val);
      } else {
        var oldValue := scope.GetVariable(x);
        if oldValue != null {
          ghost var was := scope.Abs();
          oldValue.SetMutable(true);
          assert scope.Abs().cells == MarkCell(was, oldValue.number).cells;
        }
      }
    }

    /** `Utils::getValue` of an expression whose value attribute is `c`. */
    function GetValue(c: ScalarValue?): (v: Lookup)
      requires scope.Valid() && (c != null ==> scope.Knows(c))
      reads scope, scope.CellSet()
      ensures v == Look(scope.Abs(), NumberOf(c))
    {
      if c == null then Unknown else c.GetValue()
    }

    /** The visit of an expression: what it becomes, and its value attribute. */
    method VisitExpr(e: Expr) returns (r: Expr, val: ScalarValue?)
      requires scope.Valid()
      modifies scope`cells
      ensures scope.Valid() && Grown(scope, old(scope.cells)) && fresh(scope.CellSet() - old(scope.CellSet()))
      ensures Valued(r, NumberOf(val), scope.Abs()) == FoldExpr(php, old(scope.Abs()), e)
      ensures val != null ==> scope.Knows(val)
      decreases e
    {
      r, val := e, null;
      match e
      case Lit(v) =>
        val := scope.MakeCell(v);
      case Var(x) =>
        val := scope.GetVariable(x);
      case Bin(op, left, right) =>
        var l, lv := VisitExpr(left);
        var r1, rv := VisitExpr(right);
        r := Bin(op, l, r1);
        var reduced := Reduce(php, op, GetValue(lv), GetValue(rv));
        if reduced.Some? {
          r := Lit(reduced.value);
          val := scope.MakeCell(reduced.value);
        }
    }

    /** An assignment, with an operator or without. */
    method VisitAssign(x: string, e: Expr) returns (s: Simple)
      requires scope.Valid()
      modifies scope, scope.CellSet()
      ensures scope.Valid() && Grown(scope, old(scope.cells)) && fresh(scope.CellSet() - old(scope.CellSet()))
      ensures SimpleFolded(s, scope.Abs()) == FoldAssign(php, old(scope.Abs()), x, e)
    {
      var r, val := VisitExpr(e);
      Assign(x, val);
      s := Restored(x, r);
    }

    method VisitSimple(s: Simple) returns (r: Simple)
      requires scope.Valid()
      modifies scope, scope.CellSet()
      ensures scope.Valid() && Grown(scope, old(scope.cells)) && fresh(scope.CellSet() - old(scope.CellSet()))
      ensures SimpleFolded(r, scope.Abs()) == FoldSimple(php, old(scope.Abs()), s)
    {
      match s
      case Assign(x, e) => r := VisitAssign(x, e);
      case AssignOp(op, x, e) => r := VisitAssign(x, Bin(op, Var(x), e));
      case Echo(es) =>
        var rs, vals := VisitExprs(es);
        var ok, reduced := ReduceEchoExprs(rs, vals);
        r := Echo(if ok then reduced else rs);
    }

    method VisitExprs(es: seq<Expr>) returns (rs: seq<Expr>, vals: seq<ScalarValue?>)
      requires scope.Valid()
      modifies scope`cells
      ensures scope.Valid() && Grown(scope, old(scope.cells)) && fresh(scope.CellSet() - old(scope.CellSet()))
        && |vals| == |es|
      ensures AllValued(rs, NumbersOf(vals), scope.Abs()) == FoldExprs(php, old(scope.Abs()), es)
      ensures forall i :: 0 <= i < |vals| && vals[i] != null ==> scope.Knows(vals[i])
    {
      hide ValueScope.Abs, ValueScope.Valid, FoldExpr, FoldExprs, NumbersOf;
      rs, vals := [], [];
      assert es[0..] == es;
      NoNumbers();
      for i := 0 to |es|
        invariant scope.Valid() && Grown(scope, old(scope.cells)) && fresh(scope.CellSet() - old(scope.CellSet()))
          && |vals| == |rs| == i
        invariant Prepended(rs, NumbersOf(vals), FoldExprs(php, scope.Abs(), es[i..])) ==
          FoldExprs(php, old(scope.Abs()), es)
        invariant forall j :: 0 <= j < |vals| && vals[j] != null ==> scope.Knows(vals[j])
      {
        NextExpr(php, scope.Abs(), es, i, rs, NumbersOf(vals));
        ghost var cells := scope.cells;
        assert forall j :: 0 <= j < |vals| && vals[j] != null ==>
          vals[j].number < |cells| && cells[vals[j].number] == vals[j];
        var r, val := VisitExpr(es[i]);
        assert forall j :: 0 <= j < |cells| ==> j < |scope.cells| && scope.cells[j] == cells[j];
        NextNumber(vals, val);
        rs, vals := rs + [r], vals + [val];
      }
      LastExpr(php, scope.Abs(), es, rs, NumbersOf(vals));
    }

    /** `reduceEcho`: an unknown value keeps its expression, a mutable one stops the reduction. */
    method ReduceEchoExprs(es: seq<Expr>, vals: seq<ScalarValue?>) returns (ok: bool, reduced: seq<Expr>)
      requires scope.Valid() && |es| == |vals|
      requires forall i :: 0 <= i < |vals| && vals[i] != null ==> scope.Knows(vals[i])
      ensures ReduceEcho(scope.Abs(), es, NumbersOf(vals)) == if ok then Some(reduced) else None
    {
      hide ValueScope.Abs, NumbersOf, ReduceEcho;
      reduced := [];
      ghost var sc, refs := scope.Abs(), NumbersOf(vals);
      EchoStarts(sc, es, refs);
      for i := 0 to |es|
        invariant scope.Valid() && scope.Abs() == sc && forall i :: 0 <= i < |vals| && vals[i] != null ==>
          scope.Knows(vals[i])
        invariant EchoFrom(reduced, ReduceEcho(sc, es[i..], refs[i..])) == ReduceEcho(sc, es, refs)
      {
        NumberAt(vals, i);
        NextEcho(sc, es, refs, i, reduced);
        match GetValue(vals[i])
        case Mutable => return false, [];
        case Known(v) => reduced := reduced + [Lit(v)];
        case Unknown => reduced := reduced + [es[i]];
      }
      EchoEnds(sc, es, refs, reduced);
      return true, reduced;
    }

    /** `enterNode` and `leaveNode` of a statement, and the traversal of what is in it. */
    method VisitStmt(s: Stmt) returns (r: Stmt)
      requires scope.Valid()
      modifies scope, scope.CellSet()
      ensures scope.Valid() && Grown(scope, old(scope.cells)) && fresh(scope.CellSet() - old(scope.CellSet()))
      ensures StmtFolded(r, scope.Abs()) == FoldStmt(php, old(scope.Abs()), s)
      decreases s
    {
      hide ValueScope.Abs, ValueScope.Valid, MarkAll, FoldExpr, FoldSimple;
      r := s;
      match s
      case Plain(x) =>
        var y := VisitSimple(x);
        r := Plain(y);
      case Return(result, implied) =>
        r := VisitReturn(result, implied);
      case Goto(_) =>
      case Label(_) =>
        SetCurrentVarsMutable();
      case If(c, thn, els) =>
        var cond, _ := VisitExpr(c);
        var body := VisitAll(thn);
        var other := NoElse;
        if els.Else? {
          var stmts := VisitAll(els.stmts);
          other := Else(stmts);
        }
        SetCurrentVarsMutable();
        r := If(cond, body, other);
      case Loop(kind, c, stmts) =>
        SetCurrentVarsMutable();
        if kind == While {
          var cond, _ := VisitExpr(c);
          var body := VisitAll(stmts);
          r := Loop(kind, cond, body);
        } else {
          var body := VisitAll(stmts);
          var cond, _ := VisitExpr(c);
          r := Loop(kind, cond, body);
        }
        SetCurrentVarsMutable();
    }

    /** `reduceReturn`: a new node, without the mark of an implied return. */
    method VisitReturn(result: Option<Expr>, implied: bool) returns (r: Stmt)
      requires scope.Valid()
      modifies scope`cells
      ensures scope.Valid() && Grown(scope, old(scope.cells)) && fresh(scope.CellSet() - old(scope.CellSet()))
      ensures StmtFolded(r, scope.Abs()) == FoldStmt(php, old(scope.Abs()), Return(result, implied))
    {
      hide ValueScope.Abs, ValueScope.Valid, FoldExpr;
      if result.None? {
        return Return(result, implied);
      }
      var e, val := VisitExpr(result.value);
      var v := GetValue(val);
      r := if v.Known? then Return(Some(Lit(v.v)), false) else Return(Some(e), implied);
    }

    method VisitAll(ss: seq<Stmt>) returns (rs: seq<Stmt>)
      requires scope.Valid()
      modifies scope, scope.CellSet()
      ensures scope.Valid() && Grown(scope, old(scope.cells)) && fresh(scope.CellSet() - old(scope.CellSet()))
      ensures AllFolded(rs, scope.Abs()) == FoldAll(php, old(scope.Abs()), ss)
      decreases ss
    {
      hide ValueScope.Abs, ValueScope.Valid, FoldStmt;
      rs := [];
      assert ss[0..] == ss;
      StmtsStart(FoldAll(php, scope.Abs(), ss));
      for i := 0 to |ss|
        invariant scope.Valid() && Grown(scope, old(scope.cells)) && fresh(scope.CellSet() - old(scope.CellSet()))
        invariant StmtsFrom(rs, FoldAll(php, scope.Abs(), ss[i..])) == FoldAll(php, old(scope.Abs()), ss)
      {
        NextStmt(php, scope.Abs(), ss, i, rs);
        var r := VisitStmt(ss[i]);
        rs := rs + [r];
      }
      LastStmt(php, scope.Abs(), ss, rs);
    }
  }

  /** The second traversal of `deobfuscate`. */
  method FoldProgram(php: Php, p: seq<Stmt>) returns (q: seq<Stmt>)
    ensures q == Folded(php, p)
    ensures ElsesApart(php, p) ==> forall n: nat ::
        Outputs(php, Trace(p, Branches(php), n)) == Outputs(php, Trace(q, Branches(php), n))
  {
    hide ValueScope.Abs, ValueScope.Valid, FoldAll, Outputs, ElsesApart, Trace;
    var pass := new SecondPass(php);
    q := pass.VisitAll(p);
    if ElsesApart(php, p) {
      forall n: nat ensures Outputs(php, Trace(p, Branches(php), n)) == Outputs(php, Trace(q, Branches(php), n)) {
        FoldingKeepsOutput(php, p, n);
      }
    }
  }

  function StmtsFrom(done: seq<Stmt>, rest: AllFolded): AllFolded {
    AllFolded(done + rest.ss, rest.scope)
  }

  lemma StmtsStart(r: AllFolded)
    ensures StmtsFrom([], r) == r
  {
    assert [] + r.ss == r.ss;
  }

  lemma NextStmt(php: Php, sc: Scope, ss: seq<Stmt>, i: nat, done: seq<Stmt>)
    requires i < |ss|
    ensures var r := FoldStmt(php, sc, ss[i]);
      StmtsFrom(done + [r.s], FoldAll(php, r.scope, ss[i + 1..])) == StmtsFrom(done, FoldAll(php, sc, ss[i..]))
  {
    assert ss[i..][0] == ss[i] && ss[i..][1..] == ss[i + 1..];
    var r := FoldStmt(php, sc, ss[i]);
    var rest := FoldAll(php, r.scope, ss[i + 1..]);
    assert (done + [r.s]) + rest.ss == done + ([r.s] + rest.ss);
  }

  lemma LastStmt(php: Php, sc: Scope, ss: seq<Stmt>, done: seq<Stmt>)
    ensures StmtsFrom(done, FoldAll(php, sc, ss[|ss|..])) == AllFolded(done, sc)
  {
    assert ss[|ss|..] == [] && done + [] == done;
  }

  /** Cells were made. */
  ghost predicate Grown(scope: ValueScope, was: seq<ScalarValue>)
    reads scope`cells
  {
    was <= scope.cells
  }

  ghost function NumbersOf(vals: seq<ScalarValue?>): (ns: seq<Option<nat>>)
    ensures |ns| == |vals|
  {
    seq(|vals|, i requires 0 <= i < |vals| => NumberOf(vals[i]))
  }

  function EchoFrom(done: seq<Expr>, rest: Option<seq<Expr>>): Option<seq<Expr>> {
    if rest.Some? then Some(done + rest.value) else None
  }

  lemma EchoStarts(sc: Scope, es: seq<Expr>, refs: seq<Option<nat>>)
    requires |es| == |refs|
    ensures EchoFrom([], ReduceEcho(sc, es[0..], refs[0..])) == ReduceEcho(sc, es, refs)
  {
    assert es[0..] == es && refs[0..] == refs;
    var r := ReduceEcho(sc, es, refs);
    if r.Some? {
      assert [] + r.value == r.value;
    }
  }

  lemma NextEcho(sc: Scope, es: seq<Expr>, refs: seq<Option<nat>>, i: nat, done: seq<Expr>)
    requires i < |es| == |refs|
    ensures var rest, here := EchoFrom(done, ReduceEcho(sc, es[i..], refs[i..])), Look(sc, refs[i]);
      rest == if here.Mutable? then None
        else EchoFrom(done + [if here.Known? then Lit(here.v) else es[i]], ReduceEcho(sc, es[i + 1..], refs[i + 1..]))
  {
    assert es[i..][0] == es[i] && es[i..][1..] == es[i + 1..];
    assert refs[i..][0] == refs[i] && refs[i..][1..] == refs[i + 1..];
    var r, here := ReduceEcho(sc, es[i + 1..], refs[i + 1..]), Look(sc, refs[i]);
    if r.Some? {
      var e := if here.Known? then Lit(here.v) else es[i];
      assert (done + [e]) + r.value == done + ([e] + r.value);
    }
  }

  lemma EchoEnds(sc: Scope, es: seq<Expr>, refs: seq<Option<nat>>, done: seq<Expr>)
    requires |es| == |refs|
    ensures EchoFrom(done, ReduceEcho(sc, es[|es|..], refs[|es|..])) == Some(done)
  {
    assert es[|es|..] == [] && done + [] == done;
  }

  lemma NumberAt(vals: seq<ScalarValue?>, i: nat)
    requires i < |vals|
    ensures NumbersOf(vals)[i] == NumberOf(vals[i])
  {}

  lemma NoNumbers()
    ensures NumbersOf([]) == []
  {}

  lemma NextNumber(vals: seq<ScalarValue?>, val: ScalarValue?)
    ensures NumbersOf(vals + [val]) == NumbersOf(vals) + [NumberOf(val)]
  {}

  lemma NextExpr(php: Php, sc: Scope, es: seq<Expr>, i: nat, rs: seq<Expr>, refs: seq<Option<nat>>)
    requires i < |es|
    ensures var r := FoldExpr(php, sc, es[i]);
      Prepended(rs + [r.e], refs + [r.ref], FoldExprs(php, r.scope, es[i + 1..])) ==
        Prepended(rs, refs, FoldExprs(php, sc, es[i..]))
  {
    assert es[i..][0] == es[i] && es[i..][1..] == es[i + 1..];
    var r := FoldExpr(php, sc, es[i]);
    var rest := FoldExprs(php, r.scope, es[i + 1..]);
    assert (rs + [r.e]) + rest.es == rs + ([r.e] + rest.es);
    assert (refs + [r.ref]) + rest.refs == refs + ([r.ref] + rest.refs);
  }

  lemma LastExpr(php: Php, sc: Scope, es: seq<Expr>, rs: seq<Expr>, refs: seq<Option<nat>>)
    ensures Prepended(rs, refs, FoldExprs(php, sc, es[|es|..])) == AllValued(rs, refs, sc)
  {
    assert es[|es|..] == [];
    var none: seq<Option<nat>> := [];
    assert rs + [] == rs && refs + none == refs;
  }

  function Prepended(es: seq<Expr>, refs: seq<Option<nat>>, r: AllValued): AllValued {
    AllValued(es + r.es, refs + r.refs, r.scope)
  }
}
