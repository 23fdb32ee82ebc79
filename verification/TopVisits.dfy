/** Visiting a whole program: the finished blocks hold it. */
module TopVisits {
  import opened Wrappers
  import opened PhpCode
  import opened Annotated
  import opened CodeBlocks
  import opened BlockCode
  import opened BlockInvariant
  import opened BlockNames
  import opened BodyVisits
  import opened LabelVisits

  /** The label names of a program. */
  function TopNames(p: seq<Stmt>): set<Name> {
    set s | s in p && s.Label? :: s.name
  }

  /**
   The programs whose gotos can be eliminated: distinct labels, all of them outside of bodies and none a
   name that `mkname` generates; every goto has its label; inside of loops there are no gotos.
   */
  ghost predicate InFragment(p: seq<Stmt>) {
    && (forall i, j :: 0 <= i < j < |p| && p[i].Label? ==> p[i] != p[j])
    && (forall i :: 0 <= i < |p| && !p[i].Label? ==> BodyStmtOk(p[i], false, TopNames(p)))
    && LabelNames(TopNames(p))
  }

  predicate OnlyLabels(ks: seq<Stmt>) {
    forall s :: s in ks ==> s.Label?
  }

  /** A run of labels, then statements that are no labels. */
  ghost predicate LabelsFirst(ks: seq<Stmt>)
    decreases |ks|
  {
    if ks != [] && ks[0].Label? then LabelsFirst(ks[1..]) else NoLabels(ks)
  }

  // ---- Code behind a run of labels --------------------------------------------------------------

  lemma {:induction false} FromLabelsStays(blocks: Blocks, blocks': Blocks, d: nat, ns: seq<Node>, ks: seq<Stmt>)
    requires HoldsFromLabels(blocks, d, ns, ks) && CodeKept(blocks, blocks', d)
    ensures HoldsFromLabels(blocks', d, ns, ks)
    decreases |ks|
  {
    if ks != [] && ks[0].Label? {
      FromLabelsStays(blocks, blocks', d, ns[1..], ks[1..]);
    } else {
      HoldsStays(blocks, blocks', d, d, ns, ks);
    }
  }

  lemma {:induction false} FromLabelsConcat(blocks: Blocks, d: nat, ns: seq<Node>, ks: seq<Stmt>, ns': seq<Node>,
      ks': seq<Stmt>)
    requires LabelsFirst(ks) && !HasTerm(ks) && HoldsFromLabels(blocks, d, ns, ks)
    requires OnlyLabels(ks) ==> HoldsFromLabels(blocks, d, ns', ks')
    requires !OnlyLabels(ks) ==> Holds(blocks, d, ns', ks')
    ensures HoldsFromLabels(blocks, d, ns + ns', ks + ks')
    decreases |ks|
  {
    if ks == [] {
      assert ns + ns' == ns' && ks + ks' == ks';
    } else {
      assert (ks + ks')[0] == ks[0] && (ks + ks')[1..] == ks[1..] + ks';
      if ks[0].Label? {
        assert (ns + ns')[0] == ns[0] && (ns + ns')[1..] == ns[1..] + ns';
        assert ks == [ks[0]] + ks[1..];
        TermOfConcat([ks[0]], ks[1..]);
        FromLabelsConcat(blocks, d, ns[1..], ks[1..], ns', ks');
      } else {
        assert ks[0] in ks;
        HoldsConcat(blocks, d, ns, ks, ns', ks');
      }
    }
  }

  lemma {:induction false} FromLabelsDead(blocks: Blocks, d: nat, ns: seq<Node>, ks: seq<Stmt>, ks': seq<Stmt>)
    requires LabelsFirst(ks) && HasTerm(ks) && HoldsFromLabels(blocks, d, ns, ks)
    ensures HoldsFromLabels(blocks, d, ns, ks + ks')
    decreases |ks|
  {
    assert (ks + ks')[0] == ks[0] && (ks + ks')[1..] == ks[1..] + ks';
    if ks[0].Label? {
      assert ks == [ks[0]] + ks[1..];
      TermOfConcat([ks[0]], ks[1..]);
      FromLabelsDead(blocks, d, ns[1..], ks[1..], ks');
    } else {
      HoldsDead(blocks, d, ns, ks, ks');
    }
  }

  lemma {:induction false} LabelsFirstAppend(ks: seq<Stmt>, s: Stmt)
    requires LabelsFirst(ks) && (s.Label? ==> OnlyLabels(ks))
    ensures LabelsFirst(ks + [s])
    decreases |ks|
  {
    if ks == [] {
      assert ks + [s] == [s] && [s][1..] == [];
    } else {
      assert (ks + [s])[0] == ks[0] && (ks + [s])[1..] == ks[1..] + [s];
      if ks[0].Label? {
        LabelsFirstAppend(ks[1..], s);
      } else {
        assert ks[0] in ks;
      }
    }
  }

  lemma {:induction false} HoldsNoLabelNodes(blocks: Blocks, d: nat, ns: seq<Node>, ks: seq<Stmt>, l: Name)
    requires Holds(blocks, d, ns, ks)
    ensures NLabel(l) !in ns
    decreases |ks|
  {
    if ks != [] && (ks[0].Plain? || ks[0].If? || ks[0].Loop?) {
      HoldsNoLabelNodes(blocks, d, ns[1..], ks[1..], l);
    }
  }

  /** The labels of a block are those its code starts with. */
  lemma {:induction false} LabelsOfRun(blocks: Blocks, d: nat, ns: seq<Node>, ks: seq<Stmt>, l: Name)
    requires HoldsFromLabels(blocks, d, ns, ks) && NLabel(l) in ns
    ensures InRun(ks, 0, l)
    decreases |ks|
  {
    if ks != [] && ks[0].Label? {
      if ks[0].name != l {
        assert NLabel(l) in ns[1..];
        LabelsOfRun(blocks, d, ns[1..], ks[1..], l);
        var i :| 0 <= i < |ks[1..]| && ks[1..][i] == Label(l) && forall j :: 0 <= j < i ==> ks[1..][j].Label?;
        assert ks[i + 1] == Label(l);
        forall j | 0 <= j < i + 1 ensures ks[j].Label? {
          assert j > 0 ==> ks[j] == ks[1..][j - 1];
        }
      }
    } else {
      HoldsNoLabelNodes(blocks, d, ns, ks, l);
    }
  }

  lemma InRunOfSuffix(p: seq<Stmt>, s: nat, i: nat, l: Name)
    requires s <= i <= |p| && InRun(p[s..i], 0, l)
    ensures InRun(p, s, l)
  {
    var ks := p[s..i];
    var j :| 0 <= j < |ks| && ks[j] == Label(l) && forall k :: 0 <= k < j ==> ks[k].Label?;
    assert p[s + j] == Label(l);
    forall k | s <= k < s + j ensures p[k].Label? {
      assert p[k] == ks[k - s];
    }
  }

  /** A block that holds labels only. */
  lemma {:induction false} EmptyHoldsLabels(blocks: Blocks, d: nat, ns: seq<Node>, ks: seq<Stmt>)
    requires HoldsFromLabels(blocks, d, ns, ks)
    ensures OnlyLabels(ks) <==> forall n :: n in ns ==> n.NLabel?
    decreases |ks|
  {
    if ks != [] && ks[0].Label? {
      EmptyHoldsLabels(blocks, d, ns[1..], ks[1..]);
      assert ks == [ks[0]] + ks[1..] && ns == [ns[0]] + ns[1..];
    } else if ks != [] {
      assert ks[0] in ks && ns[0] in ns;
      if ns[0].NLabel? {
        HoldsNoLabelNodes(blocks, d, ns, ks, ns[0].name);
      }
    }
  }

  // ---- The state after the first statements of a program ------------------------------------------

  type Starts = map<Name, nat>

  predicate IsLive(st: State, starts: Starts, n: Name) {
    n in starts && n in st.blocks && st.blocks[n].aliasOf.None?
  }

  function LiveOnes(st: State, starts: Starts): set<Name> {
    set n | n in starts && IsLive(st, starts, n)
  }

  /** Different blocks have different places, and a place is not within a run of labels. */
  ghost predicate Places(live: set<Name>, current: Name, p: seq<Stmt>, i: nat, starts: Starts) {
    && i <= |p|
    && (forall n :: n in live ==> n in starts && starts[n] <= i && (starts[n] > 0 ==> !p[starts[n] - 1].Label?))
    && (forall n :: n in live && n != current ==> starts[n] < i)
    && (forall m, n :: m in live && n in live && starts[m] == starts[n] ==> m == n)
  }

  /** The top-level blocks and the places of their code. */
  ghost predicate StartsOk(st: State, p: seq<Stmt>, i: nat, starts: Starts) {
    && i <= |p| && st.current in starts && st.current in st.blocks && st.blocks[st.current].aliasOf.None?
    && (forall n :: n in starts ==>
        && n in st.blocks && st.blocks[n].defined && st.blocks[n].home.None? && !st.blocks[n].inLoop && starts[n] <= i)
    && Places(LiveOnes(st, starts), st.current, p, i, starts)
    && (forall n, l :: n in st.blocks && st.blocks[n].aliasOf.None? && n !in starts ==> !HasLabel(st.blocks[n], l))
    && MAIN in st.blocks && Root(st, MAIN) in starts && starts[Root(st, MAIN)] == 0
  }

  /** The blocks that are left hold all the code from their place on: control leaves them before it ends. */
  ghost predicate LeftHold(st: State, p: seq<Stmt>, starts: Starts)
    requires forall n :: n in starts ==> starts[n] <= |p|
  {
    forall n :: IsLive(st, starts, n) && n != st.current ==>
      HoldsFromLabels(st.blocks, st.blocks[n].defAt, st.blocks[n].nodes, p[starts[n]..])
  }

  /** The current block holds the code `ks` from its place up to here. */
  ghost predicate Growing(st: State, ks: seq<Stmt>) {
    && st.current in st.blocks
    && var b := st.blocks[st.current];
    && HoldsFromLabels(st.blocks, b.defAt, b.nodes, ks) && LabelsFirst(ks) && b.unreachable == HasTerm(ks)
    && (OnlyLabels(ks) ==> b.nested == [])
    && (ks != [] && ks[|ks| - 1].Label? ==> OnlyLabels(ks))
  }

  /** The defined label blocks are those of the labels before index `i`. */
  ghost predicate LabelsSeen(st: State, p: seq<Stmt>, i: nat)
    requires i <= |p|
  {
    && (forall j :: 0 <= j < i && p[j].Label? ==> p[j].name in st.blocks && st.blocks[p[j].name].defined)
    && (forall l :: l in TopNames(p) && l in st.blocks && st.blocks[l].defined ==> Label(l) in p[..i])
    && (forall n :: n in st.blocks && !st.blocks[n].defined ==> n in TopNames(p))
  }

  ghost predicate TopInv(st: State, p: seq<Stmt>, i: nat, starts: Starts) {
    && Ready(st, TopNames(p)) && StartsOk(st, p, i, starts) && LeftHold(st, p, starts)
    && Growing(st, p[starts[st.current]..i]) && LabelsSeen(st, p, i)
  }

  // ---- A statement that is no label ---------------------------------------------------------------

  lemma StmtKeepsTop(st: State, p: seq<Stmt>, i: nat, starts: Starts)
    requires TopInv(st, p, i, starts) && InFragment(p) && i < |p| && !p[i].Label?
    ensures TopInv(Visit(st, p[i]), p, i + 1, starts)
  {
    hide Ready, StateOk, BlocksOk, LabelNames, BodyStmtOk, Visited, Visit, Growing, LeftHold, StartsOk, LabelsSeen,
      Grew, TopNames;
    var labels := TopNames(p);
    StateOfReady(st, labels);
    BlocksAreOk(st);
    CurrentIsTop(st, p, i, starts);
    VisitStmt(st, p[i], false, labels);
    var st' := Visit(st, p[i]);
    VisitedGrew(st, st', [p[i]], labels);
    GrewKeepsStarts(st, st', p, i, starts);
    GrewKeepsLeft(st, st', p, i, starts);
    GrewKeepsSeen(st, st', p, i);
    var s := starts[st.current];
    assert p[s..i + 1] == p[s..i] + [p[i]];
    GrewKeepsGrowing(st, st', p[s..i], p[i], labels);
  }

  lemma CurrentIsTop(st: State, p: seq<Stmt>, i: nat, starts: Starts)
    requires StartsOk(st, p, i, starts)
    ensures st.current in st.blocks && st.current in starts && starts[st.current] <= i <= |p|
    ensures !Current(st).inLoop && Current(st).home.None? && Current(st).defined && Current(st).aliasOf.None?
  {}

  lemma GrewKeepsStarts(st: State, st': State, p: seq<Stmt>, i: nat, starts: Starts)
    requires StartsOk(st, p, i, starts) && Grew(st, st', TopNames(p)) && i < |p| && BlocksOk(st.blocks, st.clock)
    ensures StartsOk(st', p, i + 1, starts)
  {
    hide BlocksOk, TopNames, Root, HasLabel, Places, LiveOnes, NewBlockFits;
    LiveStays(st, st', starts, TopNames(p));
    LaterPlaces(LiveOnes(st, starts), st.current, p, i, starts);
    GrewKeepsRoot(st, st', MAIN, TopNames(p));
    forall n, l | n in st'.blocks && st'.blocks[n].aliasOf.None? && n !in starts ensures !HasLabel(st'.blocks[n], l) {
      if n in st.blocks {
        assert SameCode(st.blocks[n], st'.blocks[n]);
        SameLabels(st.blocks[n], st'.blocks[n], l);
      } else {
        assert NewBlockFits(n, st'.blocks[n], st.clock, TopNames(p));
        NewHasNoLabel(n, st'.blocks[n], st.clock, TopNames(p), l);
      }
    }
  }

  lemma NewHasNoLabel(n: Name, b: Block, clock: nat, labels: set<Name>, l: Name)
    requires NewBlockFits(n, b, clock, labels)
    ensures !HasLabel(b, l)
  {}

  lemma LiveStays(st: State, st': State, starts: Starts, labels: set<Name>)
    requires Grew(st, st', labels) && forall n :: n in starts ==> n in st.blocks
    ensures LiveOnes(st', starts) == LiveOnes(st, starts)
  {
    hide HasLabel;
  }

  lemma LaterPlaces(live: set<Name>, current: Name, p: seq<Stmt>, i: nat, starts: Starts)
    requires Places(live, current, p, i, starts) && i < |p|
    ensures Places(live, current, p, i + 1, starts)
  {}

  lemma GrewKeepsRoot(st: State, st': State, n: Name, labels: set<Name>)
    requires n in st.blocks && Grew(st, st', labels) && BlocksOk(st.blocks, st.clock)
    ensures Root(st', n) == Root(st, n)
  {
    hide BlocksOk;
    RootUnmoved(st, st', n);
  }

  lemma GrewKeepsLeft(st: State, st': State, p: seq<Stmt>, i: nat, starts: Starts)
    requires StartsOk(st, p, i, starts) && Grew(st, st', TopNames(p)) && LeftHold(st, p, starts)
    ensures LeftHold(st', p, starts)
  {
    forall n | IsLive(st', starts, n) && n != st'.current
      ensures HoldsFromLabels(st'.blocks, st'.blocks[n].defAt, st'.blocks[n].nodes, p[starts[n]..])
    {
      hide HoldsFromLabels;
      assert IsLive(st, starts, n);
      TopCodeKept(st, st', st.blocks[n].defAt, TopNames(p));
      FromLabelsStays(st.blocks, st'.blocks, st.blocks[n].defAt, st.blocks[n].nodes, p[starts[n]..]);
    }
  }

  lemma TopCodeKept(st: State, st': State, d: nat, labels: set<Name>)
    requires Grew(st, st', labels) && st.blocks[st.current].home.None?
    ensures CodeKept(st.blocks, st'.blocks, d)
  {}

  lemma GrewKeepsSeen(st: State, st': State, p: seq<Stmt>, i: nat)
    requires i < |p| && LabelsSeen(st, p, i) && Grew(st, st', TopNames(p)) && !p[i].Label?
    ensures LabelsSeen(st', p, i + 1)
  {
    assert forall s :: s in p[..i] ==> s in p[..i + 1];
  }

  lemma GrewKeepsGrowing(st: State, st': State, ks: seq<Stmt>, s: Stmt, labels: set<Name>)
    requires Growing(st, ks) && Visited(st, st', [s], labels) && !s.Label? && st.blocks[st.current].home.None?
    requires StateOk(st)
    ensures Growing(st', ks + [s])
  {
    hide Ready, Holds, StateOk, LabelsFirst, OnlyLabels;
    var b, b' := st.blocks[st.current], st'.blocks[st.current];
    VisitedGrew(st, st', [s], labels);
    TopCodeKept(st, st', b.defAt, labels);
    FromLabelsStays(st.blocks, st'.blocks, b.defAt, b.nodes, ks);
    TermOfConcat(ks, [s]);
    LabelsFirstAppend(ks, s);
    assert (ks + [s])[|ks|] == s && s in ks + [s];
    assert !OnlyLabels(ks + [s]) by { NotOnlyLabels(ks + [s], s); }
    if b.unreachable {
      FromLabelsDead(st'.blocks, b.defAt, b.nodes, ks, [s]);
    } else {
      assert b'.nodes == b.nodes + b'.nodes[|b.nodes|..];
      SameWithoutLabel(st'.blocks, b.defAt, b'.nodes[|b.nodes|..], s);
      FromLabelsConcat(st'.blocks, b.defAt, b.nodes, ks, b'.nodes[|b.nodes|..], [s]);
    }
  }

  lemma NotOnlyLabels(ks: seq<Stmt>, s: Stmt)
    requires s in ks && !s.Label?
    ensures !OnlyLabels(ks)
  {}

  lemma SameWithoutLabel(blocks: Blocks, d: nat, ns: seq<Node>, s: Stmt)
    requires Holds(blocks, d, ns, [s]) && !s.Label?
    ensures HoldsFromLabels(blocks, d, ns, [s])
  {}

  // ---- A label ------------------------------------------------------------------------------------

  lemma LabelIsUnvisited(st: State, p: seq<Stmt>, i: nat, starts: Starts)
    requires TopInv(st, p, i, starts) && InFragment(p) && i < |p| && p[i].Label?
    ensures var l := p[i].name; Unvisited(st, l) && l in TopNames(p) && l != st.current && l !in starts
  {
    hide Ready, Growing, LeftHold;
    var l := p[i].name;
    assert p[i] == Label(l) && l in TopNames(p);
    assert Label(l) !in p[..i];
  }

  lemma EmptyMeansOnlyLabels(st: State, ks: seq<Stmt>)
    requires Growing(st, ks)
    ensures IsEmpty(st.blocks[st.current]) <==> OnlyLabels(ks)
  {
    var b := st.blocks[st.current];
    EmptyHoldsLabels(st.blocks, b.defAt, b.nodes, ks);
  }

  /** What changes when code runs on into label `l`. */
  ghost predicate RanOn(st: State, st': State, l: Name) {
    && st.current in st.blocks && l != st.current && st'.current == l && st.clock <= st'.clock
    && st'.blocks.Keys == st.blocks.Keys + {l}
    && (forall n :: n in st.blocks && n != l && n != st.current ==> SameCode(st.blocks[n], st'.blocks[n]))
    && var c, c', b' := st.blocks[st.current], st'.blocks[st.current], st'.blocks[l];
    && SameFace(c, c') && c'.defAt == c.defAt && (forall x :: HasLabel(c', x) ==> HasLabel(c, x))
    && c'.nodes == (if c.unreachable then c.nodes else c.nodes + [NGoto(l)])
    && b'.aliasOf.None? && b'.home.None? && b'.defined && !b'.inLoop && b'.nodes == [NLabel(l)] && b'.nested == []
    && !b'.unreachable
    && (forall n :: n in st.blocks && st.blocks[n].home.Some? ==> n != l)
    && (l in st.blocks ==> !st.blocks[l].defined && st.blocks[l].aliasOf.None?)
  }

  lemma RunsOn(st: State, l: Name, labels: set<Name>)
    requires Ready(st, labels) && Unvisited(st, l) && l in labels && l != st.current
    requires !IsEmpty(Current(st)) && !Current(st).inLoop
    ensures Ready(EnterLabel(st, l), labels) && RanOn(st, EnterLabel(st, l), l)
    ensures MAIN in st.blocks ==> Root(EnterLabel(st, l), MAIN) == Root(st, MAIN)
  {
    hide Jumpable, GeneratedBefore, LocalOk, LinksOk, RefsOk, BlocksOk, EnterLabel, IsEmpty, HasLabel, Grew, Ready,
      StateOk, RanOn;
    StateOfReady(st, labels);
    BlocksAreOk(st);
    FallThroughReady(st, l, labels);
    GetBlockKeepsOk(st, l);
    CurrentIsOk(st);
    var st0, st1, st' := GetBlock(st, l), Defined(st, l), EnterLabel(st, l);
    BlocksAreOk(st0);
    OneBlockOk(st0, l);
    UndefinedBlock(st0.blocks, l, st0.clock);
    RunsOnFrom(st, st'.(current := st.current), l, labels);
    if MAIN in st.blocks {
      GrewKeepsNumbers(st1, st'.(current := st.current), labels);
      NewRoot(st, st1, st', MAIN, l);
    }
  }

  lemma GrewKeepsNumbers(st1: State, st2: State, labels: set<Name>)
    requires Grew(st1, st2, labels)
    ensures st1.clock <= st2.clock
    ensures forall n :: n in st1.blocks ==>
      n in st2.blocks && st2.blocks[n].aliasOf == st1.blocks[n].aliasOf && st2.blocks[n].defAt == st1.blocks[n].defAt
  {}

  lemma RunsOnFrom(st: State, st2: State, l: Name, labels: set<Name>)
    requires st.current in st.blocks && Unvisited(st, l) && l != st.current
    requires var b := GetBlock(st, l).blocks[l];
      b.aliasOf.None? && b.home.None? && b.exit.None? && !b.inLoop && !b.unreachable && b.nodes == [] && b.nested == []
    requires Grew(Defined(st, l), st2, labels) && st2.blocks.Keys == Defined(st, l).blocks.Keys
    requires !Current(st).unreachable ==> st2.blocks[st.current].nodes == Current(st).nodes + [NGoto(l)]
    ensures RanOn(st, st2.(current := l), l)
  {
    hide HasLabel, Defined, GetBlock;
    var st1 := Defined(st, l);
    DefinedState(st, l);
    NoHomeHere(st, GetBlock(st, l), l);
    assert SameCode(st1.blocks[l], st2.blocks[l]);
    assert CurrentGrew(st1.blocks[st.current], st2.blocks[st.current]);
  }

  lemma DefinedState(st: State, l: Name)
    ensures l in GetBlock(st, l).blocks && (l in st.blocks ==> GetBlock(st, l) == st)
    ensures var st1, b := Defined(st, l), GetBlock(st, l).blocks[l];
      && st1 == st.(blocks := st1.blocks, clock := st.clock + 1) && st1.blocks.Keys == st.blocks.Keys + {l}
      && (forall n :: n in st.blocks && n != l ==> st1.blocks[n] == st.blocks[n])
      && st1.blocks[l] == b.(defined := true, defAt := st.clock + 1, nodes := [NLabel(l)])
  {}

  lemma NoHomeHere(st: State, st0: State, l: Name)
    requires st0 == GetBlock(st, l) && l in st0.blocks && st0.blocks[l].home.None?
    ensures forall n :: n in st.blocks && st.blocks[n].home.Some? ==> n != l
  {}

  lemma OneBlockOk(st: State, n: Name)
    requires BlocksOk(st.blocks, st.clock) && n in st.blocks
    ensures LocalOk(st.blocks[n], st.clock) && LinksOk(st.blocks, n) && RefsOk(st.blocks, n)
  {}

  lemma NewRoot(st: State, st1: State, st': State, n: Name, l: Name)
    requires BlocksOk(st.blocks, st.clock) && n in st.blocks && Unvisited(st, l) && st1 == Defined(st, l)
      && st1.clock <= st'.clock
    requires forall n :: n in st1.blocks ==>
      n in st'.blocks && st'.blocks[n].aliasOf == st1.blocks[n].aliasOf && st'.blocks[n].defAt == st1.blocks[n].defAt
    ensures Root(st', n) == Root(st, n)
  {
    hide BlocksOk, Root;
    forall m | m in st.blocks
      ensures m in st'.blocks && st'.blocks[m].aliasOf == st.blocks[m].aliasOf
        && (st.blocks[m].defined ==> st'.blocks[m].defAt == st.blocks[m].defAt) {
      assert m in st1.blocks && st1.blocks[m].aliasOf == st.blocks[m].aliasOf;
      assert m != l ==> st1.blocks[m] == st.blocks[m];
    }
    RootUnmoved(st, st', n);
  }

  lemma RanOnKeepsStarts(st: State, st': State, p: seq<Stmt>, i: nat, starts: Starts)
    requires i < |p| && p[i].Label? && StartsOk(st, p, i, starts) && RanOn(st, st', p[i].name) && p[i].name !in starts
    requires Growing(st, p[starts[st.current]..i]) && !OnlyLabels(p[starts[st.current]..i])
    requires Root(st', MAIN) == Root(st, MAIN)
    ensures StartsOk(st', p, i + 1, starts[p[i].name := i])
  {
    hide Growing, Root, RanOn, HasLabel, OnlyLabels, Places, LiveOnes;
    var l := p[i].name;
    LiveAfterRun(st, st', p, i, starts);
    RanOnBlocks(st, st', p, i, starts);
    EndOfCode(st, p, starts[st.current], i);
    CurrentIsLive(st, starts);
    PlacesAdd(LiveOnes(st, starts), st.current, p, i, starts, l);
  }

  lemma EndOfCode(st: State, p: seq<Stmt>, s: nat, i: nat)
    requires s <= i <= |p| && Growing(st, p[s..i]) && !OnlyLabels(p[s..i])
    ensures s < i && !p[i - 1].Label?
  {
    hide HoldsFromLabels, LabelsFirst, HasTerm;
    assert p[s..i] != [];
    assert p[s..i][|p[s..i]| - 1] == p[i - 1];
  }

  lemma CurrentIsLive(st: State, starts: Starts)
    requires st.current in starts && st.current in st.blocks && st.blocks[st.current].aliasOf.None?
    ensures st.current in LiveOnes(st, starts)
  {}

  lemma LiveAfterRun(st: State, st': State, p: seq<Stmt>, i: nat, starts: Starts)
    requires i < |p| && p[i].Label? && StartsOk(st, p, i, starts) && RanOn(st, st', p[i].name) && p[i].name !in starts
    ensures LiveOnes(st', starts[p[i].name := i]) == LiveOnes(st, starts) + {p[i].name}
  {
    hide HasLabel, Root, Places;
  }

  /** The places of the blocks, when a block for the code from index `i` on is added. */
  lemma PlacesAdd(live: set<Name>, current: Name, p: seq<Stmt>, i: nat, starts: Starts, l: Name)
    requires 0 < i < |p| && Places(live, current, p, i, starts) && l !in starts && current in live
      && starts[current] < i
    requires !p[i - 1].Label?
    ensures Places(live + {l}, l, p, i + 1, starts[l := i])
  {}

  lemma RanOnBlocks(st: State, st': State, p: seq<Stmt>, i: nat, starts: Starts)
    requires i < |p| && p[i].Label? && StartsOk(st, p, i, starts) && RanOn(st, st', p[i].name) && p[i].name !in starts
    ensures forall n :: n in starts || n == p[i].name ==>
      n in st'.blocks && st'.blocks[n].defined && st'.blocks[n].home.None? && !st'.blocks[n].inLoop
    ensures st'.current == p[i].name && st'.blocks[p[i].name].aliasOf.None? && MAIN in st'.blocks
    ensures forall n, x :: n in st'.blocks && st'.blocks[n].aliasOf.None? && n !in starts[p[i].name := i] ==>
      !HasLabel(st'.blocks[n], x)
  {
    hide HasLabel, Root, Places, LiveOnes;
    forall n, x | n in st'.blocks && st'.blocks[n].aliasOf.None? && n !in starts[p[i].name := i]
      ensures !HasLabel(st'.blocks[n], x) {
      assert !HasLabel(st.blocks[n], x);
      assert SameCode(st.blocks[n], st'.blocks[n]);
      SameLabels(st.blocks[n], st'.blocks[n], x);
    }
  }

  lemma SameLabels(b: Block, b': Block, x: Name)
    requires b'.nodes == b.nodes
    ensures HasLabel(b', x) == HasLabel(b, x)
  {}

  lemma RanOnKeepsLeft(st: State, st': State, p: seq<Stmt>, i: nat, starts: Starts)
    requires i < |p| && p[i].Label? && StartsOk(st, p, i, starts) && RanOn(st, st', p[i].name) && p[i].name !in starts
    requires LeftHold(st, p, starts) && Growing(st, p[starts[st.current]..i]) && !OnlyLabels(p[starts[st.current]..i])
    ensures LeftHold(st', p, starts[p[i].name := i])
  {
    hide Growing, HoldsFromLabels, StartsOk, OnlyLabels;
    CurrentIsTop(st, p, i, starts);
    var l := p[i].name;
    var starts' := starts[l := i];
    assert forall n :: n in starts' ==>
      starts'[n] <= |p| by { CurrentIsTop(st, p, i, starts); StartsBounded(st, p, i, starts); }
    forall n | IsLive(st', starts', n) && n != l
      ensures HoldsFromLabels(st'.blocks, st'.blocks[n].defAt, st'.blocks[n].nodes, p[starts[n]..])
    {
      InBlocks(st, p, i, starts, n);
      RanOnCode(st, st', l, st.blocks[n].defAt);
      if n == st.current {
        RanOnHolds(st, st', p, i, starts[n]);
      } else {
        assert IsLive(st, starts, n);
        FromLabelsStays(st.blocks, st'.blocks, st.blocks[n].defAt, st.blocks[n].nodes, p[starts[n]..]);
      }
    }
  }

  lemma InBlocks(st: State, p: seq<Stmt>, i: nat, starts: Starts, n: Name)
    requires StartsOk(st, p, i, starts) && n in starts
    ensures n in st.blocks && st.blocks[n].home.None? && starts[n] <= i <= |p| && st.current in starts
  {}

  lemma StartsBounded(st: State, p: seq<Stmt>, i: nat, starts: Starts)
    requires StartsOk(st, p, i, starts)
    ensures forall n :: n in starts ==> starts[n] <= |p|
  {}

  lemma RanOnCode(st: State, st': State, l: Name, d: nat)
    requires RanOn(st, st', l) && st.current in st.blocks 
    requires st.blocks[st.current].home.None?
    ensures CodeKept(st.blocks, st'.blocks, d)
  {}

  /** The block that is left holds the code behind the label, too. */
  lemma RanOnHolds(st: State, st': State, p: seq<Stmt>, i: nat, s: nat)
    requires i < |p| && p[i].Label? && s <= i && RanOn(st, st', p[i].name) && st.blocks[st.current].home.None?
    requires Growing(st, p[s..i]) && !OnlyLabels(p[s..i])
    ensures HoldsFromLabels(st'.blocks, st'.blocks[st.current].defAt, st'.blocks[st.current].nodes, p[s..])
  {
    hide HoldsFromLabels, OnlyLabels, LabelsFirst, HasTerm;
    var l, c := p[i].name, st.blocks[st.current];
    RanOnCode(st, st', l, c.defAt);
    FromLabelsStays(st.blocks, st'.blocks, c.defAt, c.nodes, p[s..i]);
    assert p[s..] == p[s..i] + p[i..];
    if c.unreachable {
      FromLabelsDead(st'.blocks, c.defAt, c.nodes, p[s..i], p[i..]);
    } else {
      assert p[i..][0] == Label(l);
      FromLabelsConcat(st'.blocks, c.defAt, c.nodes, p[s..i], [NGoto(l)], p[i..]);
    }
  }

  lemma RanOnKeepsSeen(st: State, st': State, p: seq<Stmt>, i: nat)
    requires i < |p| && p[i].Label? && LabelsSeen(st, p, i) && RanOn(st, st', p[i].name)
    ensures LabelsSeen(st', p, i + 1)
  {
    hide RanOn, TopNames;
    assert p[..i + 1] == p[..i] + [p[i]];
    RanOnKeepsDefined(st, st', p[i].name);
    forall x | x in TopNames(p) && x in st'.blocks && st'.blocks[x].defined ensures Label(x) in p[..i + 1] {
      if x != p[i].name {
        assert st.blocks[x].defined;
      }
    }
  }

  lemma RanOnKeepsDefined(st: State, st': State, l: Name)
    requires RanOn(st, st', l)
    ensures l in st'.blocks && st'.blocks[l].defined && st'.blocks.Keys == st.blocks.Keys + {l}
    ensures forall n :: n in st.blocks && n != l ==> st'.blocks[n].defined == st.blocks[n].defined
  {}

  lemma RanOnGrowing(st: State, st': State, l: Name)
    requires RanOn(st, st', l)
    ensures Growing(st', [Label(l)])
  {
    var ns: seq<Node> := [NLabel(l)];
    assert [Label(l)][1..] == [] && ns[1..] == [];
  }

  /** What changes when block `x`, which holds labels only, becomes an alias of the block of label `l`. */
  ghost predicate BecameAlias(st: State, st': State, l: Name) {
    && st.current in st.blocks && l != st.current && st'.current == l && st.clock < st'.clock
    && st'.blocks.Keys == st.blocks.Keys + {l}
    && (forall n :: n in st.blocks && n != l && n != st.current ==>
      SameCode(st.blocks[n], st'.blocks[n].(exit := st.blocks[n].exit)))
    && var c, c', b' := st.blocks[st.current], st'.blocks[st.current], st'.blocks[l];
    && c.home.None? && c'.home.None? && c'.defined && !c'.inLoop && c'.aliasOf == Some(l)
    && b'.aliasOf.None? && b'.home.None? && b'.defined && !b'.inLoop && b'.nodes == c.nodes + [NLabel(l)]
    && b'.nested == [] && !b'.unreachable
    && (l in st.blocks ==> !st.blocks[l].defined && st.blocks[l].aliasOf.None? && st.blocks[l].home.None?)
  }

  lemma BecomesAliasTop(st: State, l: Name, labels: set<Name>)
    requires Ready(st, labels) && Unvisited(st, l) && l in labels && l != st.current
    requires var b := Current(st); IsEmpty(b) && b.nested == [] && b.home.None? && !b.inLoop
    ensures Ready(EnterLabel(st, l), labels) && BecameAlias(st, EnterLabel(st, l), l)
    ensures MAIN in st.blocks ==>
      Root(EnterLabel(st, l), MAIN) == if Root(st, MAIN) == st.current then l else Root(st, MAIN)
  {
    hide Jumpable, GeneratedBefore, LocalOk, LinksOk, RefsOk, BlocksOk, EnterLabel, IsEmpty, HasLabel, Aliased,
      MergeEnters, Ready, StateOk, Root, BecameAlias;
    StateOfReady(st, labels);
    BlocksAreOk(st);
    CurrentIsOk(st);
    AliasReady(st, l, labels);
    GetBlockKeepsOk(st, l);
    var x, st0, st' := st.current, GetBlock(st, l), EnterLabel(st, l);
    BlocksAreOk(st0);
    OneBlockOk(st0, l);
    UndefinedBlock(st0.blocks, l, st0.clock);
    AliasedBlocks(st0.blocks, x, l, st.clock);
    var t := st0.blocks[l].(defined := true, defAt := st.clock + 1, nodes := st0.blocks[x].nodes + [NLabel(l)]);
    MergedIsNoAlias(t, st0.blocks[x].enters, st0.blocks[x].entersPerName.Keys);
    AliasChanges(st, st0, st', l);
    if MAIN in st.blocks {
      RootUnmoved(st, st0, MAIN);
      RootOfAliased(st0, st', x, l, MAIN);
    }
  }

  lemma AliasChanges(st: State, st0: State, st': State, l: Name)
    requires st0 == GetBlock(st, l) && st.current in st.blocks && l != st.current && st'.current == l
      && st'.clock == st.clock + 1
    requires var b, t := st0.blocks[st.current], st0.blocks[l];
      && b.home.None? && b.defined && !b.inLoop && !t.defined && t.aliasOf.None? && t.home.None?
      && st'.blocks.Keys == st0.blocks.Keys
      && st'.blocks[st.current] == b.(aliasOf := Some(l), enters := map[], unreachable := true)
      && (forall n :: n in st0.blocks && n != st.current && n != l ==>
           st'.blocks[n] == if n in b.enters && st0.blocks[n].exit.Some?
             then st0.blocks[n].(exit := Some(st0.blocks[n].exit.value.(to := l))) else st0.blocks[n])
      && var b' := st'.blocks[l];
         b'.aliasOf.None? && b'.home.None? && b'.defined && !b'.inLoop && b'.nodes == b.nodes + [NLabel(l)]
           && b'.nested == [] && !b'.unreachable
    ensures BecameAlias(st, st', l)
  {}

  lemma AliasKeepsStarts(st: State, st': State, p: seq<Stmt>, i: nat, starts: Starts)
    requires i < |p| && p[i].Label? && StartsOk(st, p, i, starts) && BecameAlias(st, st', p[i].name)
      && p[i].name !in starts
    requires Root(st', MAIN) == if Root(st, MAIN) == st.current then p[i].name else Root(st, MAIN)
    ensures StartsOk(st', p, i + 1, starts[p[i].name := starts[st.current]])
  {
    hide Root, HasLabel, Places, LiveOnes, BecameAlias;
    var l := p[i].name;
    CurrentIsLive(st, starts);
    LiveAfterAlias(st, st', starts, l);
    PlacesMove(LiveOnes(st, starts), st.current, p, i, starts, l);
    AliasKeepsUnlabelled(st, st', l, starts);
    AliasKeepsKinds(st, st', l);
  }

  lemma AliasKeepsKinds(st: State, st': State, l: Name)
    requires BecameAlias(st, st', l) && st.blocks[st.current].defined
    ensures l != st.current && st'.current == l && l in st'.blocks && st'.blocks.Keys == st.blocks.Keys + {l}
    ensures var b := st'.blocks[l]; b.aliasOf.None? && b.defined && b.home.None? && !b.inLoop
    ensures forall n :: n in st.blocks && n != l ==> var b, b' := st.blocks[n], st'.blocks[n];
      b.home.None? && !b.inLoop ==> b'.defined == b.defined && b'.home.None? && !b'.inLoop
  {}

  lemma AliasKeepsUnlabelled(st: State, st': State, l: Name, starts: Starts)
    requires BecameAlias(st, st', l) && st.current in starts
    requires forall n, x :: n in st.blocks && st.blocks[n].aliasOf.None? && n !in starts ==> !HasLabel(st.blocks[n], x)
    ensures forall n, x :: n in st'.blocks && st'.blocks[n].aliasOf.None? && n !in starts && n != l ==>
      !HasLabel(st'.blocks[n], x)
  {
    hide HasLabel;
    forall n, x | n in st'.blocks && st'.blocks[n].aliasOf.None? && n !in starts && n != l
      ensures !HasLabel(st'.blocks[n], x) {
      assert SameCode(st.blocks[n], st'.blocks[n].(exit := st.blocks[n].exit));
      SameLabels(st.blocks[n], st'.blocks[n], x);
    }
  }

  lemma LiveAfterAlias(st: State, st': State, starts: Starts, l: Name)
    requires st.current in starts && BecameAlias(st, st', l) && l !in starts
      && (forall n :: n in starts ==> n in st.blocks)
    ensures LiveOnes(st', starts[l := starts[st.current]]) == LiveOnes(st, starts) - {st.current} + {l}
  {}

  lemma PlacesMove(live: set<Name>, current: Name, p: seq<Stmt>, i: nat, starts: Starts, l: Name)
    requires i < |p| && Places(live, current, p, i, starts) && l !in starts && current in live
    ensures Places(live - {current} + {l}, l, p, i + 1, starts[l := starts[current]])
  {}

  lemma AliasKeepsLeft(st: State, st': State, p: seq<Stmt>, i: nat, starts: Starts)
    requires i < |p| && p[i].Label? && StartsOk(st, p, i, starts) && BecameAlias(st, st', p[i].name)
      && p[i].name !in starts
    requires LeftHold(st, p, starts)
    ensures (forall n :: n in starts ==> starts[n] <= |p|)
    ensures LeftHold(st', p, starts[p[i].name := starts[st.current]])
  {
    hide HoldsFromLabels, StartsOk, HasLabel;
    CurrentIsTop(st, p, i, starts);
    StartsBounded(st, p, i, starts);
    var l := p[i].name;
    var starts' := starts[l := starts[st.current]];
    forall n | IsLive(st', starts', n) && n != l
      ensures HoldsFromLabels(st'.blocks, st'.blocks[n].defAt, st'.blocks[n].nodes, p[starts[n]..])
    {
      InBlocks(st, p, i, starts, n);
      AliasedCode(st, st', l, st.blocks[n].defAt);
      assert SameCode(st.blocks[n], st'.blocks[n].(exit := st.blocks[n].exit));
      assert IsLive(st, starts, n);
      FromLabelsStays(st.blocks, st'.blocks, st.blocks[n].defAt, st.blocks[n].nodes, p[starts[n]..]);
    }
  }

  lemma AliasedCode(st: State, st': State, l: Name, d: nat)
    requires BecameAlias(st, st', l)
    ensures CodeKept(st.blocks, st'.blocks, d)
  {}

  lemma AliasKeepsSeen(st: State, st': State, p: seq<Stmt>, i: nat)
    requires i < |p| && p[i].Label? && LabelsSeen(st, p, i) && BecameAlias(st, st', p[i].name)
    requires st.blocks[st.current].defined
    ensures LabelsSeen(st', p, i + 1)
  {
    hide BecameAlias, TopNames;
    assert p[..i + 1] == p[..i] + [p[i]];
    AliasKeepsDefined(st, st', p[i].name);
    forall x | x in TopNames(p) && x in st'.blocks && st'.blocks[x].defined ensures Label(x) in p[..i + 1] {
      if x != p[i].name {
        assert st.blocks[x].defined;
      }
    }
  }

  lemma AliasKeepsDefined(st: State, st': State, l: Name)
    requires BecameAlias(st, st', l) && st.blocks[st.current].defined
    ensures l in st'.blocks && st'.blocks[l].defined && st'.blocks.Keys == st.blocks.Keys + {l}
    ensures forall n :: n in st.blocks && n != l ==> st'.blocks[n].defined == st.blocks[n].defined
  {}

  lemma {:induction false} OnlyLabelsHold(blocks: Blocks, d: nat, blocks': Blocks, d': nat, ns: seq<Node>,
      ks: seq<Stmt>)
    requires OnlyLabels(ks) && HoldsFromLabels(blocks, d, ns, ks)
    ensures HoldsFromLabels(blocks', d', ns, ks) && LabelsFirst(ks) && !HasTerm(ks)
    decreases |ks|
  {
    if ks != [] {
      assert ks[0] in ks;
      OnlyLabelsHold(blocks, d, blocks', d', ns[1..], ks[1..]);
    }
  }

  lemma AliasGrowing(st: State, st': State, ks: seq<Stmt>, l: Name)
    requires Growing(st, ks) && OnlyLabels(ks) && BecameAlias(st, st', l)
    ensures Growing(st', ks + [Label(l)])
  {
    var b, b' := st.blocks[st.current], st'.blocks[l];
    OnlyLabelsHold(st.blocks, b.defAt, st'.blocks, b'.defAt, b.nodes, ks);
    var ns: seq<Node> := [NLabel(l)];
    assert [Label(l)][1..] == [] && ns[1..] == [];
    assert HoldsFromLabels(st'.blocks, b'.defAt, [NLabel(l)], [Label(l)]);
    FromLabelsConcat(st'.blocks, b'.defAt, b.nodes, ks, [NLabel(l)], [Label(l)]);
    OnlyLabelsHold(st'.blocks, b'.defAt, st'.blocks, b'.defAt, b'.nodes, ks + [Label(l)]);
  }

  lemma LabelKeepsTop(st: State, p: seq<Stmt>, i: nat, starts: Starts) returns (starts': Starts)
    requires TopInv(st, p, i, starts) && InFragment(p) && i < |p| && p[i].Label?
    ensures TopInv(Visit(st, p[i]), p, i + 1, starts')
  {
    hide Ready, StateOk, BlocksOk, LabelNames, Growing, LeftHold, StartsOk, LabelsSeen, TopNames, RanOn, BecameAlias,
      EnterLabel, Unvisited, OnlyLabels, IsEmpty;
    var l, labels := p[i].name, TopNames(p);
    var st' := EnterLabel(st, l);
    StateOfReady(st, labels);
    CurrentIsTop(st, p, i, starts);
    MainIsThere(st, p, i, starts);
    LabelIsUnvisited(st, p, i, starts);
    var s := starts[st.current];
    EmptyMeansOnlyLabels(st, p[s..i]);
    assert p[s..i + 1] == p[s..i] + [Label(l)];
    if IsEmpty(st.blocks[st.current]) {
      NothingNested(st, p[s..i]);
      BecomesAliasTop(st, l, labels);
      starts' := starts[l := s];
      AliasKeepsStarts(st, st', p, i, starts);
      AliasKeepsLeft(st, st', p, i, starts);
      AliasKeepsSeen(st, st', p, i);
      AliasGrowing(st, st', p[s..i], l);
      assert st'.current == l by { AliasIsCurrent(st, st', l); }
    } else {
      RunsOn(st, l, labels);
      starts' := starts[l := i];
      RanOnKeepsStarts(st, st', p, i, starts);
      RanOnKeepsLeft(st, st', p, i, starts);
      RanOnKeepsSeen(st, st', p, i);
      RanOnGrowing(st, st', l);
      assert p[i..i + 1] == [Label(l)];
      assert st'.current == l by { RanOnIsCurrent(st, st', l); }
    }
    StartsBounded(st', p, i + 1, starts');
  }

  lemma NothingNested(st: State, ks: seq<Stmt>)
    requires Growing(st, ks) && OnlyLabels(ks)
    ensures st.blocks[st.current].nested == []
  {}

  lemma MainIsThere(st: State, p: seq<Stmt>, i: nat, starts: Starts)
    requires StartsOk(st, p, i, starts)
    ensures MAIN in st.blocks
  {}

  lemma AliasIsCurrent(st: State, st': State, l: Name)
    requires BecameAlias(st, st', l)
    ensures st'.current == l
  {}

  lemma RanOnIsCurrent(st: State, st': State, l: Name)
    requires RanOn(st, st', l)
    ensures st'.current == l
  {}
}
