/** `deobfuscate` of `Deobfuscator.php`: goto elimination, then constant folding of what it gives. */
module Deobfuscator {
  import opened Wrappers
  import opened PhpCode
  import opened Runtime
  import opened Annotated
  import opened CodeBlocks
  import opened BlockCode
  import opened BodyVisits
  import opened Accounting
  import opened TopVisits
  import opened GotoElimination
  import opened Folding
  import opened FoldingSound
  import ControlFlowVisitor
  import FoldingVisitor

  function Deobfuscated(php: Php, src: seq<Stmt>): seq<Stmt>
    requires InFragment(src)
  {
    Folded(php, Eliminated(src))
  }

  ghost predicate AllJumpsNoElses(p: seq<Stmt>) {
    forall l :: After(p, l).Some? ==> NoElses(After(p, l).value)
  }

  lemma {:induction false} NoElsesConcat(a: seq<Stmt>, b: seq<Stmt>)
    ensures NoElses(a + b) <==> NoElses(a) && NoElses(b)
    decreases |a|
  {
    if a == [] {
      assert a + b == b;
    } else {
      assert (a + b)[0] == a[0] && (a + b)[1..] == a[1..] + b;
      NoElsesConcat(a[1..], b);
    }
  }

  /** Code that stands for code without `else` has none. */
  lemma {:induction false} MirroredNoElses(p: seq<Stmt>, ks: seq<Stmt>, ka: seq<AStmt>)
    requires AllJumpsNoElses(p) && NoElses(ks) && Mirrors(p, ks, ka) && Tight(ka)
    ensures NoElses(Erase(ka))
    decreases ka
  {
    if ka != [] {
      var first := EraseStmt(ka[0]);
      assert Erase(ka) == first + Erase(ka[1..]);
      NoElsesConcat(first, Erase(ka[1..]));
      match ka[0]
      case AReturn(_, _) => assert ka[1..] == [];
      case AGoto(l, kept) =>
        if kept {
          assert ka[1..] == [];
        } else {
          EnteredNoElses(p, l, ka[1..]);
        }
      case AIf(_, thn, _) =>
        MirroredNoElses(p, ks[0].thn, thn);
        MirroredNoElses(p, ks[1..], ka[1..]);
      case ALoop(_, _, body) =>
        MirroredNoElses(p, ks[0].body, body);
        MirroredNoElses(p, ks[1..], ka[1..]);
      case _ => MirroredNoElses(p, ks[1..], ka[1..]);
    }
  }

  lemma {:induction false} EnteredNoElses(p: seq<Stmt>, l: string, ka: seq<AStmt>)
    requires AllJumpsNoElses(p) && Entered(p, l, ka) && Tight(ka)
    ensures NoElses(Erase(ka))
    decreases ka
  {
    var first := EraseStmt(ka[0]);
    assert Erase(ka) == first + Erase(ka[1..]);
    NoElsesConcat(first, Erase(ka[1..]));
    MirroredNoElses(p, After(p, ka[0].name).value, ka[1..]);
  }

  lemma JumpsNoElses(p: seq<Stmt>)
    requires TopLabels(p) && NoElses(p)
    ensures AllJumpsNoElses(p)
  {
    forall l | After(p, l).Some? ensures NoElses(After(p, l).value) {
      if l in AllLabels(p) {
        var i := LabelIndex(p, l);
        JumpToTop(p, i);
        assert p == p[..i + 1] + p[i + 1..];
        NoElsesConcat(p[..i + 1], p[i + 1..]);
      } else {
        NoLabelNoFind(p, l, []);
      }
    }
  }

  lemma {:induction false} TrimNoElses(ss: seq<Stmt>)
    requires NoElses(ss)
    ensures NoElses(Trim(ss))
    decreases |ss|
  {
    if ss != [] && IsImplied(ss[|ss| - 1]) {
      assert ss == ss[..|ss| - 1] + [ss[|ss| - 1]];
      NoElsesConcat(ss[..|ss| - 1], [ss[|ss| - 1]]);
      TrimNoElses(ss[..|ss| - 1]);
    }
  }

  lemma FaithfulNoElses(p: seq<Stmt>, code: seq<AStmt>)
    requires Faithful(p, code) && AllJumpsNoElses(p) && NoElses(p)
    ensures NoElses(Erase(code))
  {
    MirroredNoElses(p, p, code);
  }

  /** Code without `else` stays without, also where blocks are inlined into bodies. */
  lemma EliminatedNoElses(php: Php, src: seq<Stmt>)
    requires InFragment(src) && NoElses(src)
    ensures NoElses(Eliminated(src)) && ElsesApart(php, Eliminated(src))
  {
    hide ElsesApart, NoElses, InFragment, Represents, Faithful, Build, TopLabels, AllJumpsNoElses;
    var p, st := Whole(src), Build(src);
    var starts := BuildRepresents(src);
    RebuildIsFaithful(st.blocks, p, starts, Root(st, MAIN));
    RepresentsWired(st.blocks, p, starts, Root(st, MAIN));
    WholeNoElses(src);
    JumpsNoElses(p);
    FaithfulNoElses(p, Rebuilt(src));
    TrimNoElses(Erase(Rebuilt(src)));
    NothingStale(php, Eliminated(src));
  }

  lemma WholeNoElses(src: seq<Stmt>)
    requires NoElses(src)
    ensures NoElses(Whole(src))
  {
    NoElsesConcat(src, [IMPLIED_RETURN]);
  }

  lemma NothingStale(php: Php, p: seq<Stmt>)
    requires NoElses(p)
    ensures ElsesApart(php, p)
  {
    NoElsesApart(php, map[], p);
  }

  /** Whatever a program shows, the deobfuscated program shows, too, and it shows nothing else. */
  lemma DeobfuscationKeepsOutput(php: Php, src: seq<Stmt>)
    requires IsSource(src) && ElsesApart(php, Eliminated(src))
    ensures SameOutputs(php, src, Deobfuscated(php, src))
  {
    hide InFragment, SameTraces, SameOutputs, Shows, ElsesApart, Folded, Eliminated;
    EliminationKeepsMeaning(src, Branches(php));
    SameTracesSameOutputs(php, src, Eliminated(src));
    FoldedSameOutputs(php, Eliminated(src));
    SameOutputsTrans(php, src, Eliminated(src), Deobfuscated(php, src));
  }

  lemma FoldedSameOutputs(php: Php, p: seq<Stmt>)
    requires ElsesApart(php, p)
    ensures SameOutputs(php, p, Folded(php, p))
  {
    hide Outputs, Trace, Branches, Folded, ElsesApart, Shows;
    var q, o := Folded(php, p), Branches(php);
    forall n: nat ensures Shows(php, q, Outputs(php, Trace(p, o, n))) && Shows(php, p, Outputs(php, Trace(q, o, n))) {
      FoldingKeepsOutput(php, p, n);
      ShowsItsOutput(php, p, n);
      ShowsItsOutput(php, q, n);
    }
  }

  lemma ShowsItsOutput(php: Php, p: seq<Stmt>, n: nat)
    ensures Shows(php, p, Outputs(php, Trace(p, Branches(php), n)))
  {
    hide Outputs, Trace, Branches;
    var out := Outputs(php, Trace(p, Branches(php), n));
    assert out <= out;
  }

  /** The two passes, run on a program. */
  method Deobfuscate(php: Php, src: seq<Stmt>) returns (code: seq<Stmt>)
    requires InFragment(src)
    ensures code == Deobfuscated(php, src)
    ensures IsSource(src) && ElsesApart(php, Eliminated(src)) ==> SameOutputs(php, src, code)
  {
    hide InFragment, IsSource, ElsesApart, SameOutputs, SameTraces, Eliminated, Folded, Outputs;
    var tree := ControlFlowVisitor.EliminateGotos(src);
    code := FoldingVisitor.FoldProgram(php, tree);
    if IsSource(src) && ElsesApart(php, Eliminated(src)) {
      DeobfuscationKeepsOutput(php, src);
    }
  }

  // ---- Why no `else` may read what is stale -----------------------------------------------------------------------

  const ELSE_DEMO: seq<Stmt> := [If(Var("u"), [Plain(Assign("x", Lit(Int(1))))], Else([Plain(Echo([Var("x")]))]))]
  const ELSE_FOLDED: seq<Stmt> := [If(Var("u"), [Plain(Assign("x", Lit(Int(1))))], Else([Plain(Echo([Lit(Int(1))]))]))]

  lemma ElseIsFolded(php: Php)
    ensures Folded(php, ELSE_DEMO) == ELSE_FOLDED
  {
    var thn, els := ELSE_DEMO[0].thn, ELSE_DEMO[0].els.stmts;
    var sc := Scope(map[], []);
    var sc1 := Scope(map["x" := 0], [Cell(Int(1), false)]);
    assert FoldAssign(php, sc, "x", Lit(Int(1))) == SimpleFolded(Assign("x", Lit(Int(1))), sc1);
    assert FoldAll(php, sc, thn) == AllFolded(thn, sc1);
    assert Look(sc1, Some(0)) == Lookup.Known(Int(1));
    assert FoldExprs(php, sc1, [Var("x")]) == AllValued([Var("x")], [Some(0)], sc1);
    var none: seq<Option<nat>> := [];
    assert ReduceEcho(sc1, [], none) == Some([]) && [Some(0)][1..] == none && [Var("x")][1..] == []
      && [Lit(Int(1))] + [] == [Lit(Int(1))];
    assert ReduceEcho(sc1, [Var("x")], [Some(0)]) == Some([Lit(Int(1))]);
    assert FoldAll(php, sc1, els) == AllFolded([Plain(Echo([Lit(Int(1))]))], sc1);
    assert ELSE_DEMO[1..] == [];
  }

  /** What the `else` branch prints when the condition does not hold. */
  lemma ElsePrints(php: Php, thn: seq<Stmt>, e: Expr)
    requires !php.truthy(Null)
    ensures var p := [If(Var("u"), thn, Else([Plain(Echo([e]))]))];
      Outputs(php, Trace(p, Branches(php), 2)) == [Printed(Eval(php, map[], e))]
  {
    hide Trace, Eval, Outputs, Replay;
    var tested, printed := Tested(Var("u"), false), Did(Echo([e]));
    ElseSteps(php, thn, e);
    NothingDone(php);
    OneMore(php, [], tested);
    OneMore(php, [tested], printed);
    assert [] + [tested] == [tested] && [tested] + [printed] == [tested, printed];
    OnePrinted(php, e);
  }

  lemma NothingDone(php: Php)
    ensures Replay(php, []) == map[] && Outputs(php, []) == []
  {}

  lemma OnePrinted(php: Php, e: Expr)
    ensures Shown(php, map[], Did(Echo([e]))) == [Printed(Eval(php, map[], e))]
  {
    hide Eval;
    assert [e][1..] == [] && PrintAll(php, map[], []) == [];
  }

  lemma ElseSteps(php: Php, thn: seq<Stmt>, e: Expr)
    requires !php.truthy(Null)
    ensures var p := [If(Var("u"), thn, Else([Plain(Echo([e]))]))];
      Trace(p, Branches(php), 2) == [Tested(Var("u"), false), Did(Echo([e]))]
  {
    hide PrintAll, Outputs;
    var echo := Plain(Echo([e]));
    var p := [If(Var("u"), thn, Else([echo]))];
    var o := Branches(php);
    var h1, h2 := [Tested(Var("u"), false)], [Tested(Var("u"), false), Did(Echo([e]))];
    assert Replay(php, []) == map[];
    assert p[1..] == [] && [echo] + [] == [echo] && [] + h1 == h1;
    assert Eval(php, map[], Var("u")) == Null;
    assert p[0].els.Else? && ElseOf(p[0]) == [echo];
    assert Step(p, o, Running(p, [])) == Running([echo], h1);
    assert Step(p, o, Running([echo], h1)) ==
      Running([], h2) by { assert [echo][1..] == [] && h1 + [Did(Echo([e]))] == h2; }
    assert Steps(p, o, Running(p, []), 2) == Steps(p, o, Running([echo], h1), 1) == Running([], h2);
  }

  /** An `else` sees what the `then` branch assigned; if it reads that, the output may change. */
  lemma ElseReliesOnThen(php: Php)
    requires !php.truthy(Null)
    ensures InFragment(ELSE_DEMO) && !ElsesApart(php, ELSE_DEMO)
    ensures Outputs(php, Trace(ELSE_DEMO, Branches(php), 2)) != Outputs(php,
      Trace(Folded(php, ELSE_DEMO), Branches(php), 2))
  {
    hide Folded, Trace, InFragment;
    ElseIsFolded(php);
    ElsePrints(php, ELSE_DEMO[0].thn, Var("x"));
    ElsePrints(php, ELSE_DEMO[0].thn, Lit(Int(1)));
    ElseInFragment();
    ElseIsStale(php);
  }

  lemma ElseIsStale(php: Php)
    ensures !ElsesApart(php, ELSE_DEMO)
  {
    var s := ELSE_DEMO[0];
    assert s.thn[1..] == [] && StaleFor(php, map[], s.thn, {}) == {"x"};
    assert Reads([Var("x")][0]) == {"x"};
    assert !SimpleApart(Echo([Var("x")]), {"x"});
  }

  /** A variable that the `then` branch gave an unknown value may be read: it is marked. */
  lemma ElseMayReadUnknown(php: Php)
    ensures ElsesApart(php, [If(Var("u"), [Plain(Assign("x", Var("u")))], Else([Plain(Echo([Var("x")]))]))])
  {
    var thn, els := [Plain(Assign("x", Var("u")))], [Plain(Echo([Var("x")]))];
    var p := [If(Var("u"), thn, Else(els))];
    assert thn[1..] == [] && els[1..] == [] && p[1..] == [];
    assert StaleFor(php, map[], thn, {}) == {} && Apart(php, map[], thn, {}) && Apart(php, map[], els, {});
  }

  lemma ElseInFragment()
    ensures InFragment(ELSE_DEMO)
  {
    assert TopNames(ELSE_DEMO) == {};
    var s := ELSE_DEMO[0];
    assert s.thn[1..] == [] && s.els.stmts[1..] == [];
    assert BodyStmtOk(s, false, {});
  }
}
