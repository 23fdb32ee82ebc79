/** The blocks at the end of the traversal represent the program. */
module FinishedBlocks {
  import opened Wrappers
  import opened PhpCode
  import opened Annotated
  import opened CodeBlocks
  import opened Rebuild
  import opened BlockCode
  import opened BlockInvariant
  import opened BodyVisits
  import opened TopVisits

  lemma InitialTop(p: seq<Stmt>)
    requires InFragment(p)
    ensures TopInv(InitialState(), p, 0, map[MAIN := 0])
  {
    hide InFragment;
    var st := InitialState();
    var b := st.blocks[MAIN];
    forall t ensures EnterersBy(b.enters, t) == {} {}
    assert LocalOk(b, st.clock) && LinksOk(st.blocks, MAIN) && RefsOk(st.blocks, MAIN);
    assert MAIN !in TopNames(p) by { MainIsNoLabel(p); }
    assert Root(st, MAIN) == MAIN;
    assert LiveOnes(st, map[MAIN := 0]) == {MAIN};
    assert p[0..0] == [];
  }

  lemma MainIsNoLabel(p: seq<Stmt>)
    requires InFragment(p)
    ensures MAIN !in TopNames(p)
  {}

  lemma {:induction false} VisitsKeepTop(st: State, p: seq<Stmt>, i: nat, j: nat, starts: Starts)
      returns (starts': Starts)
    requires TopInv(st, p, i, starts) && InFragment(p) && i <= j <= |p|
    ensures TopInv(VisitAll(st, p[i..j]), p, j, starts')
    decreases j - i
  {
    hide TopInv, InFragment, Visit;
    starts' := starts;
    if i < j {
      assert p[i..j][0] == p[i] && p[i..j][1..] == p[i + 1..j];
      if p[i].Label? {
        starts' := LabelKeepsTop(st, p, i, starts);
      } else {
        StmtKeepsTop(st, p, i, starts);
      }
      starts' := VisitsKeepTop(Visit(st, p[i]), p, i + 1, j, starts');
    }
  }

  lemma {:induction false} BodyLabelsEmpty(ss: seq<Stmt>, inLoop: bool, labels: set<Name>)
    requires BodyOk(ss, inLoop, labels)
    ensures AllLabels(ss) == {}
    decreases ss, 0
  {
    if ss != [] {
      StmtLabelsEmpty(ss[0], inLoop, labels);
      BodyLabelsEmpty(ss[1..], inLoop, labels);
    }
  }

  lemma {:induction false} StmtLabelsEmpty(s: Stmt, inLoop: bool, labels: set<Name>)
    requires BodyStmtOk(s, inLoop, labels)
    ensures BodyLabels(s) == {}
    decreases s, 1
  {
    match s
    case If(_, thn, els) =>
      BodyLabelsEmpty(thn, inLoop, labels);
      if els.Else? {
        BodyLabelsEmpty(els.stmts, inLoop, labels);
      }
    case Loop(_, _, body) => BodyLabelsEmpty(body, true, labels);
    case _ =>
  }

  lemma FragmentLabels(p: seq<Stmt>)
    requires InFragment(p) && Closed(p)
    ensures TopLabels(p)
  {
    hide LabelNames;
    forall i | 0 <= i < |p| ensures BodyLabels(p[i]) == {} {
      if !p[i].Label? {
        StmtLabelsEmpty(p[i], false, TopNames(p));
      }
    }
  }

  /** At the end every label has been defined. */
  lemma AllDefined(st: State, p: seq<Stmt>, n: Name)
    requires LabelsSeen(st, p, |p|) && n in st.blocks
    ensures st.blocks[n].defined
  {
    assert n in TopNames(p) ==> Label(n) in p;
  }

  lemma FinishedWellBuilt(st: State, p: seq<Stmt>)
    requires BlocksOk(st.blocks, st.clock) && LabelsSeen(st, p, |p|)
    ensures WellBuilt(st.blocks)
  {
    hide LabelsSeen, NodesOwn, QuietRefs, QuietItself, ExitIsLast, ReturnIsLast, RefsExist;
    var blocks := st.blocks;
    forall n | n in blocks
      ensures RefsExist(blocks, blocks[n].nodes) && RefsExist(blocks, blocks[n].unreachableNodes)
      ensures NodesOwn(blocks, n) && ExitIsLast(blocks[n]) && ReturnIsLast(blocks[n]) && QuietItself(blocks[n])
        && QuietRefs(blocks, blocks[n])
      ensures blocks[n].exit.Some? ==> var to := blocks[n].exit.value.to;
        to in blocks && blocks[to].aliasOf.None? && blocks[to].defined && blocks[to].home.None?
    {
      assert LocalOk(blocks[n], st.clock) && LinksOk(blocks, n) && RefsOk(blocks, n);
      if blocks[n].exit.Some? {
        AllDefined(st, p, blocks[n].exit.value.to);
      }
    }
  }

  /** The top-level blocks that are no aliases, and the places of their code. */
  function LiveStarts(st: State, starts: Starts): Starts {
    map n | n in starts && IsLive(st, starts, n) :: starts[n]
  }

  lemma FinishedHolds(st: State, p: seq<Stmt>, starts: Starts, n: Name)
    requires TopInv(st, p, |p|, starts) && n in LiveStarts(st, starts)
    ensures var b := st.blocks[n];
      && n in st.blocks && b.aliasOf.None? && b.defined && b.home.None? && starts[n] <= |p|
      && HoldsFromLabels(st.blocks, b.defAt, b.nodes, p[starts[n]..])
  {
    hide Ready, HoldsFromLabels, HasLabel, Root, LabelsSeen, LabelsFirst, OnlyLabels, HasTerm, TopNames;
    assert p[starts[n]..|p|] == p[starts[n]..];
    assert IsLive(st, starts, n);
  }

  lemma LabelIsInRun(st: State, p: seq<Stmt>, starts: Starts, n: Name, l: Name)
    requires TopInv(st, p, |p|, starts) && LiveLabel(st.blocks, n, l)
    ensures n in LiveStarts(st, starts) && InRun(p, starts[n], l)
  {
    hide Ready, HoldsFromLabels, Root, LabelsSeen, Growing, LeftHold, TopNames;
    assert n in starts;
    assert IsLive(st, starts, n);
    FinishedHolds(st, p, starts, n);
    var b := st.blocks[n];
    LabelsOfRun(st.blocks, b.defAt, b.nodes, p[starts[n]..], l);
    assert p[starts[n]..|p|] == p[starts[n]..];
    InRunOfSuffix(p, starts[n], |p|, l);
  }

  lemma OneBlockPerLabel(st: State, p: seq<Stmt>, starts: Starts, m: Name, n: Name, l: Name)
    requires TopInv(st, p, |p|, starts) && InFragment(p) && LiveLabel(st.blocks, m, l) && LiveLabel(st.blocks, n, l)
    ensures m == n
  {
    hide Ready, HoldsFromLabels, Root, LabelsSeen, Growing, LeftHold, TopNames, HasLabel, LabelNames, BodyStmtOk;
    LabelIsInRun(st, p, starts, m, l);
    LabelIsInRun(st, p, starts, n, l);
    var i :| starts[m] <= i < |p| && p[i] == Label(l) && forall j :: starts[m] <= j < i ==> p[j].Label?;
    var k :| starts[n] <= k < |p| && p[k] == Label(l) && forall j :: starts[n] <= j < k ==> p[j].Label?;
    assert i == k;
    SamePlace(p, starts[m], starts[n], i);
  }

  lemma SamePlace(p: seq<Stmt>, s: nat, t: nat, i: nat)
    requires s <= i < |p| && t <= i
    requires forall j :: s <= j < i || t <= j < i ==> p[j].Label?
    requires (s > 0 ==> !p[s - 1].Label?) && (t > 0 ==> !p[t - 1].Label?)
    ensures s == t
  {}

  lemma CountsAgree(st: State, n: Name, l: Name)
    requires BlocksOk(st.blocks, st.clock) && n in st.blocks && st.blocks[n].aliasOf.None?
    ensures EnterCount(st.blocks[n], l) == |Exiters(st.blocks, n, l)|
      && (HasLabel(st.blocks[n], l) ==> l in st.blocks[n].entersPerName)
  {
    hide RefsOk, BlocksOk;
    var blocks := st.blocks;
    OneLocal(st, n);
    forall m | m in blocks ensures (m in blocks[n].enters && blocks[n].enters[m] == l) <==>
      blocks[m].exit == Some(Exit(n, l)) {
      OneLocal(st, m);
      hide LocalOk;
      assert LinksOk(blocks, n) && LinksOk(blocks, m);
    }
    forall m | m in blocks[n].enters ensures m in blocks {
      hide LocalOk;
      assert LinksOk(blocks, n);
    }
    assert EnterersBy(blocks[n].enters, l) == Exiters(blocks, n, l);
  }

  lemma OneLocal(st: State, n: Name)
    requires BlocksOk(st.blocks, st.clock) && n in st.blocks
    ensures LocalOk(st.blocks[n], st.clock) && LinksOk(st.blocks, n)
  {}

  lemma ExitsLand(st: State, p: seq<Stmt>, starts: Starts, n: Name)
    requires TopInv(st, p, |p|, starts) && n in st.blocks && st.blocks[n].exit.Some?
    ensures var e := st.blocks[n].exit.value;
      e.to in LiveStarts(st, starts) && InRun(p, starts[e.to], e.origName) && LiveLabel(st.blocks, e.to, e.origName)
  {
    hide StartsOk, HoldsFromLabels, Root, Growing, LeftHold, TopNames, LabelsSeen, InRun, LiveStarts, LocalOk, RefsOk;
    var e := st.blocks[n].exit.value;
    assert LinksOk(st.blocks, n);
    AllDefined(st, p, e.to);
    LabelIsInRun(st, p, starts, e.to, e.origName);
  }

  lemma FinishedRepresents(st: State, p: seq<Stmt>, starts: Starts)
    requires InFragment(p) && Closed(p) && TopInv(st, p, |p|, starts)
    ensures MAIN in st.blocks && Root(st, MAIN) in st.blocks && st.blocks[Root(st, MAIN)].aliasOf.None?
    ensures Represents(st.blocks, p, LiveStarts(st, starts), Root(st, MAIN))
  {
    hide TopInv, InFragment, WellBuilt, TopLabels, HoldsFromLabels, InRun, BlocksOk, HasLabel, Root, Ready, LiveStarts,
      Exiters;
    var blocks, starts', root := st.blocks, LiveStarts(st, starts), Root(st, MAIN);
    FinishedOk(st, p, starts);
    FragmentLabels(p);
    FinishedWellBuilt(st, p);
    RootIsLive(st, MAIN);
    InLiveStarts(st, starts, root);
    forall n | n in starts'
      ensures n in blocks && blocks[n].aliasOf.None? && blocks[n].defined && blocks[n].home.None?
      ensures starts'[n] <= |p| && HoldsFromLabels(blocks, blocks[n].defAt, blocks[n].nodes, p[starts'[n]..])
    {
      FinishedHolds(st, p, starts, n);
      InLiveStarts(st, starts, n);
    }
    forall n | n in blocks && blocks[n].exit.Some?
      ensures var e := blocks[n].exit.value;
        e.to in starts' && InRun(p, starts'[e.to], e.origName) && HasLabel(blocks[e.to], e.origName)
    {
      ExitsLand(st, p, starts, n);
      InLiveStarts(st, starts, blocks[n].exit.value.to);
    }
    forall m, n, l | LiveLabel(blocks, m, l) && LiveLabel(blocks, n, l) ensures m == n {
      OneBlockPerLabel(st, p, starts, m, n, l);
    }
    forall n, l | LiveLabel(blocks, n, l)
      ensures l in blocks[n].entersPerName && EnterCount(blocks[n], l) == |Exiters(blocks, n, l)| {
      CountsAgree(st, n, l);
    }
  }

  lemma FinishedOk(st: State, p: seq<Stmt>, starts: Starts)
    requires TopInv(st, p, |p|, starts)
    ensures BlocksOk(st.blocks, st.clock) && !st.failed && LabelsSeen(st, p, |p|) && MAIN in st.blocks
    ensures Root(st, MAIN) in starts && starts[Root(st, MAIN)] == 0
  {}

  lemma InLiveStarts(st: State, starts: Starts, n: Name)
    ensures n in LiveStarts(st, starts) <==> IsLive(st, starts, n)
    ensures n in LiveStarts(st, starts) ==> LiveStarts(st, starts)[n] == starts[n]
  {}
}
