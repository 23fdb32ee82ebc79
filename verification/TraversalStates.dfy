/** Every state of the traversal: between any two statements of a program, in bodies at any depth. */
module TraversalStates {
  import opened Wrappers
  import opened PhpCode
  import opened CodeBlocks
  import opened BlockCode
  import opened BlockInvariant
  import opened BlockVisits
  import opened BodyVisits
  import opened TopVisits
  import opened FinishedBlocks
  import opened GotoElimination

  /**
   What the source's internal exceptions and reference counts are about: no exception was thrown, every chain of
   aliases ends, what became an alias has no exit, and a block counts under each name the blocks that exit to it by
   that name. That a block has one exit at most is in the type: setting a second one fails.
   */
  ghost predicate Consistent(st: State) {
    !st.failed && forall n :: n in st.blocks ==> BlockIsConsistent(st, n)
  }

  ghost predicate BlockIsConsistent(st: State, n: Name)
    requires n in st.blocks
  {
    var b := st.blocks[n];
    && Root(st, n) in st.blocks && st.blocks[Root(st, n)].aliasOf.None?
    && (b.aliasOf.Some? ==> b.exit.None? && b.aliasOf.value in st.blocks && b.defAt < st.blocks[b.aliasOf.value].defAt)
    && (b.aliasOf.None? ==> forall l :: EnterCount(b, l) == |Exiters(st.blocks, n, l)|)
  }

  lemma OkIsConsistent(st: State)
    requires BlocksOk(st.blocks, st.clock) && !st.failed
    ensures Consistent(st)
  {
    hide BlocksOk, BlockIsConsistent, Root;
    forall n | n in st.blocks ensures BlockIsConsistent(st, n) {
      OkBlockIsConsistent(st, n);
    }
  }

  lemma OkBlockIsConsistent(st: State, n: Name)
    requires BlocksOk(st.blocks, st.clock) && n in st.blocks
    ensures BlockIsConsistent(st, n)
  {
    hide RefsOk, Root, BlocksOk, HasLabel, EnterCount, Exiters;
    RootIsLive(st, n);
    OneLocal(st, n);
    if st.blocks[n].aliasOf.None? {
      forall l ensures EnterCount(st.blocks[n], l) == |Exiters(st.blocks, n, l)| {
        CountsAgree(st, n, l);
      }
    }
  }

  // ---- The states of a traversal ---------------------------------------------------------------------

  /** The visit of `ss`, which starts in `st`, passes through `st'`: between two statements, or inside of one. */
  ghost predicate Passes(st: State, ss: seq<Stmt>, st': State)
    decreases ss, 0
  {
    st' == st || (ss != [] && (PassesWithin(st, ss[0], st') || Passes(Visit(st, ss[0]), ss[1..], st')))
  }

  ghost predicate PassesWithin(st: State, s: Stmt, st': State)
    decreases s, 1
  {
    match s
    case If(c, thn, els) =>
      var sub := MkName(st.current, IF_KEY, st.counter);
      var st1 := EnterNested(st, NIf(c, sub), IF_KEY);
      Passes(st1, thn, st') || (els.Else? && Passes(EnterElse(VisitAll(st1, thn), sub), els.stmts, st'))
    case Loop(kind, c, body) =>
      Passes(EnterNested(st, NLoop(kind, c, MkName(st.current, LoopKey(kind), st.counter)), LoopKey(kind)), body, st')
    case _ => false
  }

  lemma {:induction false} BodyPasses(st: State, ss: seq<Stmt>, inLoop: bool, labels: set<Name>, st': State)
    requires Ready(st, labels) && LabelNames(labels) && BodyOk(ss, inLoop, labels) && Current(st).inLoop == inLoop
    requires Passes(st, ss, st')
    ensures Ready(st', labels)
    decreases ss, 0
  {
    hide Ready, LabelNames, PassesWithin, Visit, Visited;
    if st' != st {
      if PassesWithin(st, ss[0], st') {
        StmtPasses(st, ss[0], inLoop, labels, st');
      } else {
        VisitStmt(st, ss[0], inLoop, labels);
        VisitedGrew(st, Visit(st, ss[0]), [ss[0]], labels);
        VisitedStays(st, Visit(st, ss[0]), [ss[0]], labels);
        BodyPasses(Visit(st, ss[0]), ss[1..], inLoop, labels, st');
      }
    }
  }

  lemma {:induction false} StmtPasses(st: State, s: Stmt, inLoop: bool, labels: set<Name>, st': State)
    requires Ready(st, labels) && LabelNames(labels) && BodyStmtOk(s, inLoop, labels) && Current(st).inLoop == inLoop
    requires PassesWithin(st, s, st')
    ensures Ready(st', labels)
    decreases s, 1
  {
    hide Ready, LabelNames, Passes, Visited, EnterNested, EnterElse;
    StateOfReady(st, labels);
    CurrentIsOk(st);
    match s
    case If(c, thn, els) =>
      var sub := MkName(st.current, IF_KEY, st.counter);
      var st1 := EnterNested(st, NIf(c, sub), IF_KEY);
      EnterNestedReady(st, NIf(c, sub), IF_KEY, labels);
      AppendKeepsCurrent(st, NIf(c, sub));
      OpenedCurrent(Append(st, NIf(c, sub)), sub, NextHome(st), inLoop);
      if Passes(st1, thn, st') {
        BodyPasses(st1, thn, inLoop, labels, st');
      } else {
        ElsePasses(st1, sub, thn, els, inLoop, labels, st');
      }
    case Loop(kind, c, body) =>
      var node := NLoop(kind, c, MkName(st.current, LoopKey(kind), st.counter));
      EnterNestedReady(st, node, LoopKey(kind), labels);
      AppendKeepsCurrent(st, node);
      OpenedCurrent(Append(st, node), node.sub, NextHome(st), true);
      BodyPasses(EnterNested(st, node, LoopKey(kind)), body, true, labels, st');
  }

  lemma OpenedCurrent(st: State, n: Name, home: Option<Home>, inLoop: bool)
    requires st.current in st.blocks && n !in st.blocks
    ensures var open := Opened(st, n, home, inLoop);
      open.current == n && n in open.blocks && Current(open).inLoop == inLoop && Current(open).home == home
        && Current(open).elseBlock.None?
  {}

  lemma AppendKeepsCurrent(st: State, node: Node)
    requires st.current in st.blocks
    ensures Append(st, node).current == st.current && Append(st, node).blocks.Keys == st.blocks.Keys
  {}

  lemma {:induction false} ElsePasses(st1: State, sub: Name, thn: seq<Stmt>, els: Else, inLoop: bool, labels: set<Name>,
      st': State)
    requires Ready(st1, labels) && LabelNames(labels) && els.Else? && BodyOk(thn, inLoop, labels)
      && BodyOk(els.stmts, inLoop, labels)
    requires st1.current == sub && sub in st1.blocks
    requires Current(st1).inLoop == inLoop && Current(st1).elseBlock.None? && Current(st1).home.Some?
    requires Passes(EnterElse(VisitAll(st1, thn), sub), els.stmts, st')
    ensures Ready(st', labels)
    decreases els, 0
  {
    hide Ready, LabelNames, Passes, Visited, EnterElse;
    var st2 := VisitAll(st1, thn);
    VisitBody(st1, thn, inLoop, labels);
    VisitedGrew(st1, st2, thn, labels);
    VisitedStays(st1, st2, thn, labels);
    EnterElseReady(st2, sub, labels);
    OpenedElse(st2, sub);
    BodyPasses(EnterElse(st2, sub), els.stmts, inLoop, labels, st');
  }

  lemma OpenedElse(st: State, sub: Name)
    requires st.current == sub && sub in st.blocks && MkName(sub, ELSE_KEY, st.counter) !in st.blocks
    ensures var eb := MkName(sub, ELSE_KEY, st.counter);
      var open := Opened(st, eb, st.blocks[sub].home, st.blocks[sub].inLoop);
      Current(Put(open, sub, open.blocks[sub].(elseBlock := Some(eb)))).inLoop == st.blocks[sub].inLoop
  {}

  lemma {:induction false} TopPasses(st: State, p: seq<Stmt>, i: nat, starts: Starts, st': State)
    requires TopInv(st, p, i, starts) && InFragment(p) && i <= |p| && Passes(st, p[i..], st')
    ensures Ready(st', TopNames(p))
    decreases |p| - i
  {
    hide Ready, InFragment, PassesWithin, Visit;
    if st' != st {
      assert p[i..][0] == p[i] && p[i..][1..] == p[i + 1..];
      if PassesWithin(st, p[i], st') {
        TopStmtPasses(st, p, i, starts, st');
      } else if p[i].Label? {
        var starts' := LabelKeepsTop(st, p, i, starts);
        TopPasses(Visit(st, p[i]), p, i + 1, starts', st');
      } else {
        StmtKeepsTop(st, p, i, starts);
        TopPasses(Visit(st, p[i]), p, i + 1, starts, st');
      }
    }
  }

  lemma TopStmtPasses(st: State, p: seq<Stmt>, i: nat, starts: Starts, st': State)
    requires TopInv(st, p, i, starts) && InFragment(p) && i < |p| && PassesWithin(st, p[i], st')
    ensures Ready(st', TopNames(p))
  {
    hide Ready, LabelNames, Passes, EnterNested, EnterElse, BodyStmtOk;
    CurrentIsTop(st, p, i, starts);
    StmtPasses(st, p[i], false, TopNames(p), st');
  }

  /** In every state of every traversal of a program of the fragment, at any depth, the blocks are consistent. */
  lemma EveryStateIsConsistent(src: seq<Stmt>, st: State)
    requires InFragment(src) && Passes(InitialState(), Whole(src), st)
    ensures Consistent(st)
  {
    hide InFragment, BlocksOk, Consistent, Passes, TopInv, Ready, StateOk;
    var p := Whole(src);
    WholeInFragment(src);
    InitialTop(p);
    assert p[0..] == p;
    TopPasses(InitialState(), p, 0, map[MAIN := 0], st);
    StateOfReady(st, TopNames(p));
    NotFailed(st);
    BlocksAreOk(st);
    OkIsConsistent(st);
  }

  lemma NotFailed(st: State)
    requires StateOk(st)
    ensures !st.failed
  {}

  /** The states between top-level statements, the last one included, are passed. */
  lemma {:induction false} PrefixesPass(st: State, ss: seq<Stmt>, j: nat)
    requires j <= |ss|
    ensures Passes(st, ss, VisitAll(st, ss[..j]))
    decreases j
  {
    hide Visit;
    if j > 0 {
      assert ss[..j][0] == ss[0] && ss[..j][1..] == ss[1..][..j - 1];
      PrefixesPass(Visit(st, ss[0]), ss[1..], j - 1);
    }
  }
}
