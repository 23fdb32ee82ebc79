/**
 What holds of the blocks in every state of block building: aliases lead to blocks defined later, a
 block has one exit and is counted once where it enters, under the label name it used, and the nodes
 of a block own the nested blocks they refer to.
 */
module BlockInvariant {
  import opened Wrappers
  import opened PhpCode
  import opened CodeBlocks
  import opened Rebuild
  import opened BlockCode

  /** What a block is by itself. */
  ghost predicate LocalOk(b: Block, clock: nat) {
    && b.defAt <= clock
    && (!b.defined ==> b.nodes == [] && b.unreachableNodes == [] && b.nested == [] && b.exit.None? && b.aliasOf.None?
                       && b.elseBlock.None? && b.home.None? && !b.inLoop && !b.unreachable)
    && (b.aliasOf.None? ==> forall t :: EnterCount(b, t) == |EnterersBy(b.enters, t)|)
    && (forall m :: m in b.enters ==> b.enters[m] in b.entersPerName)
    && (forall l :: HasLabel(b, l) ==> l in b.entersPerName)
    && (b.aliasOf.Some? ==> b.exit.None? && b.enters == map[] && IsEmpty(b))
    && ExitIsLast(b) && ReturnIsLast(b)
    && (forall i :: 0 <= i < |b.nodes| && b.nodes[i].NReturn? ==> b.unreachable)
    && QuietItself(b)
  }

  /** Where a block leads: an exit is entered under the name used, and only by the blocks that exit there. */
  ghost predicate LinksOk(blocks: Blocks, n: Name)
    requires n in blocks
  {
    var b := blocks[n];
    && n in b.entersPerName
    && (b.aliasOf.Some? ==>
           b.aliasOf.value in blocks && b.defAt < blocks[b.aliasOf.value].defAt && blocks[b.aliasOf.value].defined)
    && (b.exit.Some? ==> ExitOk(blocks, n, b.exit.value))
    && (forall m :: m in b.enters ==> m in blocks && blocks[m].exit == Some(Exit(n, b.enters[m])))
  }

  ghost predicate ExitOk(blocks: Blocks, n: Name, e: Exit) {
    && e.to in blocks && blocks[e.to].aliasOf.None? && blocks[e.to].home.None?
    && n in blocks[e.to].enters && blocks[e.to].enters[n] == e.origName
    && (if blocks[e.to].defined then HasLabel(blocks[e.to], e.origName) else e.to == e.origName)
  }

  /** What the nodes of a block refer to. */
  ghost predicate RefsOk(blocks: Blocks, n: Name)
    requires n in blocks
  {
    && RefsExist(blocks, blocks[n].nodes) && RefsExist(blocks, blocks[n].unreachableNodes)
    && NodesOwn(blocks, n) && QuietRefs(blocks, blocks[n])
  }

  ghost predicate BlocksOk(blocks: Blocks, clock: nat) {
    forall n :: n in blocks ==> LocalOk(blocks[n], clock) && LinksOk(blocks, n) && RefsOk(blocks, n)
  }

  /** A state in which statements can be visited. */
  ghost predicate StateOk(st: State) {
    && BlocksOk(st.blocks, st.clock) && !st.failed
    && st.current in st.blocks && st.blocks[st.current].defined && st.blocks[st.current].aliasOf.None?
    && (st.blocks[st.current].exit.Some? ==> st.blocks[st.current].unreachable)
  }

  // ---- Frames ---------------------------------------------------------------------------------

  /** What other blocks' nodes rely on. */
  ghost predicate SameFace(b: Block, b': Block) {
    b'.aliasOf == b.aliasOf && b'.home == b.home && b'.defined == b.defined && b'.elseBlock == b.elseBlock
      && b'.inLoop == b.inLoop
  }

  ghost predicate FacesKept(blocks: Blocks, blocks': Blocks) {
    forall n :: n in blocks ==> n in blocks' && (blocks[n].home.Some? ==> SameFace(blocks[n], blocks'[n]))
  }

  lemma RefsStay(blocks: Blocks, blocks': Blocks, n: Name)
    requires n in blocks && RefsOk(blocks, n) && n in blocks'
    requires FacesKept(blocks, blocks')
    requires blocks'[n].nodes == blocks[n].nodes && blocks'[n].unreachableNodes == blocks[n].unreachableNodes
      && blocks'[n].inLoop == blocks[n].inLoop
    ensures RefsOk(blocks', n)
  {
    forall x | x in blocks[n].nodes && (x.NIf? || x.NLoop?)
      ensures Exists(blocks, x.sub) && RefsOf(blocks', x) == RefsOf(blocks, x)
      ensures blocks[x.sub].elseBlock.Some? ==> Exists(blocks, blocks[x.sub].elseBlock.value)
    {
      var i :| 0 <= i < |blocks[n].nodes| && blocks[n].nodes[i] == x;
      assert NodeOwns(blocks, blocks[n].nodes[i], n, i);
    }
    forall i | 0 <= i < |blocks'[n].nodes| ensures NodeOwns(blocks', blocks'[n].nodes[i], n, i) {
      assert NodeOwns(blocks, blocks[n].nodes[i], n, i);
      assert blocks[n].nodes[i] in blocks[n].nodes;
    }
  }

  // ---- Counting enters ------------------------------------------------------------------------

  lemma EnterersMerge(a: map<Name, Name>, b: map<Name, Name>, u: Name)
    requires a.Keys !! b.Keys
    ensures |EnterersBy(a + b, u)| == |EnterersBy(a, u)| + |EnterersBy(b, u)|
  {
    assert EnterersBy(a + b, u) == EnterersBy(a, u) + EnterersBy(b, u);
    assert EnterersBy(a, u) !! EnterersBy(b, u);
  }

  // ---- Roots ------------------------------------------------------------------------------------

  lemma {:induction false} RootIsLive(st: State, n: Name)
    requires BlocksOk(st.blocks, st.clock) && n in st.blocks
    ensures Root(st, n) in st.blocks && st.blocks[Root(st, n)].aliasOf.None?
    ensures st.blocks[n].defined ==> st.blocks[Root(st, n)].defined
    ensures !st.blocks[n].defined ==> Root(st, n) == n
    decreases st.clock - st.blocks[n].defAt
  {
    assert LocalOk(st.blocks[n], st.clock) && LinksOk(st.blocks, n);
    if st.blocks[n].aliasOf.Some? {
      var t := st.blocks[n].aliasOf.value;
      assert LocalOk(st.blocks[t], st.clock);
      RootIsLive(st, t);
    }
  }

  // ---- Visits keep the invariant ------------------------------------------------------------------

  ghost predicate SameLinks(b: Block, b': Block) {
    && b'.exit == b.exit && b'.enters == b.enters && b'.entersPerName == b.entersPerName && b'.aliasOf == b.aliasOf
    && b'.home == b.home && b'.defined == b.defined && b'.defAt == b.defAt
    && forall l :: HasLabel(b, l) ==> HasLabel(b', l)
  }

  /** Nothing about exits, enters and aliases changes, and no label goes away. */
  ghost predicate LinksKept(blocks: Blocks, blocks': Blocks) {
    forall n :: n in blocks ==> n in blocks' && SameLinks(blocks[n], blocks'[n])
  }

  lemma LinksStay(blocks: Blocks, blocks': Blocks, n: Name)
    requires n in blocks && LinksOk(blocks, n) && LinksKept(blocks, blocks')
    ensures LinksOk(blocks', n)
  {}

  ghost predicate SameNodes(b: Block, b': Block) {
    b'.nodes == b.nodes && b'.unreachableNodes == b.unreachableNodes && b'.inLoop == b.inLoop
  }

  /** All blocks but `changed` keep their nodes; new ones have none. */
  ghost predicate NodesKept(blocks: Blocks, blocks': Blocks, changed: Name) {
    forall n :: n in blocks' && n != changed ==>
      if n in blocks then SameNodes(blocks[n], blocks'[n])
        else blocks'[n].nodes == [] && blocks'[n].unreachableNodes == []
  }

  lemma AllRefsOk(blocks: Blocks, clock: nat, blocks': Blocks, changed: Name)
    requires BlocksOk(blocks, clock) && FacesKept(blocks, blocks') && NodesKept(blocks, blocks', changed)
    ensures forall n :: n in blocks' && n != changed ==> RefsOk(blocks', n)
  {
    forall n | n in blocks' && n != changed ensures RefsOk(blocks', n) {
      if n in blocks {
        RefsStay(blocks, blocks', n);
      }
    }
  }

  predicate IsNested(n: Node) {
    n.NIf? || n.NLoop?
  }

  /** A node without nested blocks, appended to block `n` or set aside there. */
  lemma AppendedRefs(blocks: Blocks, blocks': Blocks, n: Name, node: Node)
    requires n in blocks && RefsOk(blocks, n) && n in blocks' && FacesKept(blocks, blocks') && !IsNested(node)
    requires blocks'[n].inLoop == blocks[n].inLoop
    requires blocks'[n].nodes == blocks[n].nodes || blocks'[n].nodes == blocks[n].nodes + [node]
    requires blocks'[n].unreachableNodes == blocks[n].unreachableNodes
      || blocks'[n].unreachableNodes == blocks[n].unreachableNodes + [node]
    ensures RefsOk(blocks', n)
  {
    var b, b' := blocks[n], blocks'[n];
    var middle := blocks'[n := b'.(nodes := b.nodes, unreachableNodes := b.unreachableNodes)];
    RefsStay(blocks, middle, n);
    forall i | 0 <= i < |b'.nodes| ensures NodeOwns(blocks', b'.nodes[i], n, i) {
      if i < |b.nodes| {
        assert NodeOwns(middle, b.nodes[i], n, i);
      }
    }
  }

  /** A simple statement: appended to a reachable block, dropped or set aside in an unreachable one. */
  lemma PlainKeepsOk(st: State, x: Simple)
    requires StateOk(st)
    ensures StateOk(Append(st, NPlain(x)))
  {
    hide LocalOk, LinksOk, RefsOk;
    var st' := Append(st, NPlain(x));
    if st' != st {
      assert FacesKept(st.blocks, st'.blocks) && LinksKept(st.blocks, st'.blocks);
      AppendedRefs(st.blocks, st'.blocks, st.current, NPlain(x));
      AppendedLocal(st.blocks[st.current], st'.blocks[st.current], NPlain(x), st.clock);
      AllRefsOk(st.blocks, st.clock, st'.blocks, st.current);
      forall n | n in st'.blocks
        ensures LocalOk(st'.blocks[n], st.clock) && LinksOk(st'.blocks, n) && RefsOk(st'.blocks, n) {
        assert LocalOk(st.blocks[n], st.clock) && LinksOk(st.blocks, n);
        LinksStay(st.blocks, st'.blocks, n);
      }
    }
  }

  lemma AppendedLocal(b: Block, b': Block, node: Node, clock: nat)
    requires LocalOk(b, clock) && b.defined && b.aliasOf.None? && !node.NLabel? && !node.NGoto?
    requires (!b.unreachable && b.exit.None? && b' == b.(nodes := b.nodes + [node], unreachable := node.NReturn?))
             || b' == b.(unreachableNodes := b.unreachableNodes + [node])
    ensures LocalOk(b', clock)
  {}

  /** A return: appended, and nothing behind it is reachable. */
  lemma ReturnKeepsOk(st: State, e: Option<Expr>, implied: bool)
    requires StateOk(st)
    ensures StateOk(SetUnreachable(Append(st, NReturn(e, implied))))
  {
    hide LocalOk, LinksOk, RefsOk, FacesKept, LinksKept, NodesKept;
    var node := NReturn(e, implied);
    var st' := SetUnreachable(Append(st, node));
    ReturnedFrames(st, st', node);
    AppendedRefs(st.blocks, st'.blocks, st.current, node);
    var b, b' := st.blocks[st.current], st'.blocks[st.current];
    assert LocalOk(b, st.clock);
    if b' != b {
      AppendedLocal(b, b', node, st.clock);
    }
    AllRefsOk(st.blocks, st.clock, st'.blocks, st.current);
    forall n | n in st'.blocks
      ensures LocalOk(st'.blocks[n], st.clock) && LinksOk(st'.blocks, n) && RefsOk(st'.blocks, n) {
      assert LocalOk(st.blocks[n], st.clock) && LinksOk(st.blocks, n);
      LinksStay(st.blocks, st'.blocks, n);
    }
  }

  /** Only block `n` changes, and only its nodes. */
  lemma OneBlockFrames(blocks: Blocks, n: Name, b': Block)
    requires n in blocks && SameLinks(blocks[n], b') && SameFace(blocks[n], b')
    ensures var blocks' := blocks[n := b'];
      FacesKept(blocks, blocks') && LinksKept(blocks, blocks') && NodesKept(blocks, blocks', n)
  {
    hide HasLabel;
  }

  lemma ReturnedFrames(st: State, st': State, node: Node)
    requires st.current in st.blocks && st.blocks[st.current].aliasOf.None? && st' == SetUnreachable(Append(st, node))
    ensures FacesKept(st.blocks, st'.blocks) && LinksKept(st.blocks, st'.blocks)
      && NodesKept(st.blocks, st'.blocks, st.current)
  {
    hide FacesKept, LinksKept, NodesKept;
    OneBlockFrames(st.blocks, st.current, st'.blocks[st.current]);
    assert st'.blocks == st.blocks[st.current := st'.blocks[st.current]];
  }

  lemma GetBlockKeepsOk(st: State, l: Name)
    requires StateOk(st)
    ensures StateOk(GetBlock(st, l)) && l in GetBlock(st, l).blocks
  {
    hide LinksOk, RefsOk, LocalOk;
    var st' := GetBlock(st, l);
    if l !in st.blocks {
      assert FacesKept(st.blocks, st'.blocks) && LinksKept(st.blocks, st'.blocks);
      AllRefsOk(st.blocks, st.clock, st'.blocks, l);
      NewBlockOk(st'.blocks, l, st.clock);
      forall n | n in st'.blocks
        ensures LocalOk(st'.blocks[n], st.clock) && LinksOk(st'.blocks, n) && RefsOk(st'.blocks, n) {
        if n != l {
          LinksStay(st.blocks, st'.blocks, n);
        }
      }
    }
  }

  lemma NewBlockOk(blocks: Blocks, l: Name, clock: nat)
    requires l in blocks && blocks[l] == NewBlock(l)
    ensures LocalOk(blocks[l], clock) && LinksOk(blocks, l) && RefsOk(blocks, l)
  {
    forall t ensures EnterersBy(blocks[l].enters, t) == {} {}
  }

  /** A label that may be jumped to: not defined yet, or at its root. */
  ghost predicate Jumpable(st: State, l: Name) {
    l in st.blocks && (st.blocks[l].defined ==>
      var r := Root(st, l); r in st.blocks && st.blocks[r].home.None? && HasLabel(st.blocks[r], l))
    && !st.blocks[l].inLoop && (!st.blocks[l].defined ==> st.blocks[l].home.None?)
  }

  /** A goto, appended, and the exit it stands for. */
  lemma JumpKeepsOk(st: State, l: Name)
    requires StateOk(st) && Jumpable(st, l) && !Current(st).inLoop
    ensures var st' := MoveInto(Append(st, NGoto(l)), l);
      && BlocksOk(st'.blocks, st'.clock) && !st'.failed && st'.current == st.current && st.current in st'.blocks
      && st'.blocks[st.current].defined && st'.blocks[st.current].aliasOf.None?
  {
    hide LocalOk, LinksOk, RefsOk;
    if st.blocks[st.current].unreachable {
      SetAsideKeepsOk(st, NGoto(l));
    } else {
      ReachableJump(st, l);
      var r := Root(st, l);
      var blocks := Jumped(st.blocks, st.current, l, r);
      AllRefsOk(st.blocks, st.clock, blocks, st.current);
      AppendedRefs(st.blocks, blocks, st.current, NGoto(l));
      forall n | n in blocks ensures LocalOk(blocks[n], st.clock) && LinksOk(blocks, n) {
        JumpLocal(st.blocks, st.clock, st.current, l, r, n);
        JumpLinks(st.blocks, st.current, l, r, n);
      }
    }
  }

  lemma ReachableJump(st: State, l: Name)
    requires StateOk(st) && Jumpable(st, l) && !Current(st).inLoop && !st.blocks[st.current].unreachable
    ensures var r := Root(st, l); var b := st.blocks[st.current];
      && r in st.blocks && st.blocks[r].aliasOf.None? && st.blocks[r].home.None?
      && (if st.blocks[r].defined then HasLabel(st.blocks[r], l) else r == l)
      && LocalOk(b, st.clock) && b.exit.None? && b.aliasOf.None? && b.defined
      && MoveInto(Append(st, NGoto(l)), l) == st.(blocks := Jumped(st.blocks, st.current, l, r))
      && FacesKept(st.blocks, Jumped(st.blocks, st.current, l, r))
      && NodesKept(st.blocks, Jumped(st.blocks, st.current, l, r), st.current)
  {
    hide LocalOk, LinksOk, RefsOk, HasLabel;
    RootIsLive(st, l);
    RootUnmoved(st, Append(st, NGoto(l)), l);
    JumpedFrames(st.blocks, st.current, l, Root(st, l));
    AppendAndMove(st, l, Root(st, l));
  }

  lemma AppendAndMove(st: State, l: Name, r: Name)
    requires st.current in st.blocks && r in st.blocks && Root(Append(st, NGoto(l)), l) == r
    requires var b := st.blocks[st.current]; !b.unreachable && b.exit.None? && b.aliasOf.None?
    ensures MoveInto(Append(st, NGoto(l)), l) == st.(blocks := Jumped(st.blocks, st.current, l, r))
  {
    hide Root;
    var b := st.blocks[st.current];
    var st1 := Append(st, NGoto(l));
    assert st1.blocks[st.current] == b.(nodes := b.nodes + [NGoto(l)]);
    var b2 := b.(nodes := b.nodes + [NGoto(l)], exit := Some(Exit(r, l)));
    assert st1.blocks[st.current := b2] == st.blocks[st.current := b2];
  }

  lemma JumpedFrames(blocks: Blocks, cur: Name, l: Name, r: Name)
    requires cur in blocks && r in blocks
    ensures FacesKept(blocks, Jumped(blocks, cur, l, r)) && NodesKept(blocks, Jumped(blocks, cur, l, r), cur)
  {}

  /** Appending to an unreachable block. */
  lemma SetAsideKeepsOk(st: State, node: Node)
    requires StateOk(st) && st.blocks[st.current].unreachable && !IsNested(node)
    ensures StateOk(Append(st, node)) && Append(st, node).current == st.current && Append(st, node).clock == st.clock
    ensures Current(Append(st, node)).unreachable && Current(Append(st, node)).defined
  {
    hide LocalOk, LinksOk, RefsOk;
    var st' := Append(st, node);
    if st' != st {
      assert FacesKept(st.blocks, st'.blocks) && LinksKept(st.blocks, st'.blocks)
        && NodesKept(st.blocks, st'.blocks, st.current);
      AllRefsOk(st.blocks, st.clock, st'.blocks, st.current);
      AppendedRefs(st.blocks, st'.blocks, st.current, node);
      SetAsideLocal(st.blocks[st.current], node, st.clock);
      forall n | n in st'.blocks ensures LocalOk(st'.blocks[n], st.clock) && LinksOk(st'.blocks, n) {
        assert LocalOk(st.blocks[n], st.clock) && LinksOk(st.blocks, n);
        LinksStay(st.blocks, st'.blocks, n);
      }
    }
  }

  lemma SetAsideLocal(b: Block, node: Node, clock: nat)
    requires LocalOk(b, clock) && b.defined
    ensures LocalOk(b.(unreachableNodes := b.unreachableNodes + [node]), clock)
  {}

  lemma {:induction false} RootUnmoved(st: State, st': State, n: Name)
    requires BlocksOk(st.blocks, st.clock) && n in st.blocks && st.clock <= st'.clock
    requires forall m :: m in st.blocks ==> m in st'.blocks && st'.blocks[m].aliasOf == st.blocks[m].aliasOf
    requires forall m :: m in st.blocks && st.blocks[m].defined ==> st'.blocks[m].defAt == st.blocks[m].defAt
    ensures Root(st', n) == Root(st, n)
    decreases st.clock - st.blocks[n].defAt
  {
    assert LocalOk(st.blocks[n], st.clock) && LinksOk(st.blocks, n);
    if st.blocks[n].aliasOf.Some? {
      assert LocalOk(st.blocks[st.blocks[n].aliasOf.value], st.clock);
      RootUnmoved(st, st', st.blocks[n].aliasOf.value);
    }
  }

  /** The blocks after a reachable block got an exit. */
  function Jumped(blocks: Blocks, cur: Name, l: Name, r: Name): Blocks
    requires cur in blocks && r in blocks
  {
    var from := blocks[cur];
    var blocks1 := blocks[cur := from.(nodes := from.nodes + [NGoto(l)], exit := Some(Exit(r, l)))];
    blocks1[r := EnterBlock(blocks1[r], cur, l)]
  }

  lemma ExitingLocal(b: Block, e: Exit, clock: nat)
    requires LocalOk(b, clock) && b.defined && b.aliasOf.None? && b.exit.None? && !b.unreachable && !b.inLoop
    ensures LocalOk(b.(nodes := b.nodes + [NGoto(e.origName)], exit := Some(e)), clock)
  {}

  lemma EnteredLocal(b: Block, from: Name, via: Name, clock: nat)
    requires LocalOk(b, clock) && b.aliasOf.None? && from !in b.enters
    ensures LocalOk(EnterBlock(b, from, via), clock)
  {
    var b' := EnterBlock(b, from, via);
    forall t ensures EnterCount(b', t) == |EnterersBy(b'.enters, t)| {
      EnterersAdd(b.enters, from, via, t);
    }
  }

  lemma JumpLocal(blocks: Blocks, clock: nat, cur: Name, l: Name, r: Name, n: Name)
    requires cur in blocks && r in blocks && n in blocks && LocalOk(blocks[n], clock) && LocalOk(blocks[cur], clock)
    requires LinksOk(blocks, r) && blocks[r].aliasOf.None?
    requires var b := blocks[cur]; b.defined && b.aliasOf.None? && b.exit.None? && !b.unreachable && !b.inLoop
    ensures n in Jumped(blocks, cur, l, r) && LocalOk(Jumped(blocks, cur, l, r)[n], clock)
  {
    hide LocalOk;
    ExitingLocal(blocks[cur], Exit(r, l), clock);
    if n == r {
      var b := blocks[cur];
      EnteredLocal(if r == cur then b.(nodes := b.nodes + [NGoto(l)], exit := Some(Exit(r, l))) else blocks[r], cur, l,
        clock);
    }
  }

  lemma JumpLinks(blocks: Blocks, cur: Name, l: Name, r: Name, n: Name)
    requires cur in blocks && r in blocks && n in blocks && LinksOk(blocks, n)
    requires blocks[cur].exit.None? && blocks[cur].aliasOf.None? && blocks[r].aliasOf.None? && blocks[r].home.None?
    requires if blocks[r].defined then HasLabel(blocks[r], l) else r == l
    ensures n in Jumped(blocks, cur, l, r) && LinksOk(Jumped(blocks, cur, l, r), n)
  {
    hide ExitOk;
    var blocks' := Jumped(blocks, cur, l, r);
    if n == cur {
      JumpExit(blocks, cur, l, r, n, Exit(r, l));
    } else if blocks[n].exit.Some? {
      JumpExit(blocks, cur, l, r, n, blocks[n].exit.value);
    }
    JumpEnterers(blocks, cur, l, r, n);
    var b, b' := blocks[n], blocks'[n];
    assert b'.aliasOf == b.aliasOf && b'.defAt == b.defAt && n in b'.entersPerName;
  }

  lemma JumpEnterers(blocks: Blocks, cur: Name, l: Name, r: Name, n: Name)
    requires cur in blocks && r in blocks && n in blocks && LinksOk(blocks, n) && blocks[cur].exit.None?
    ensures var blocks' := Jumped(blocks, cur, l, r);
      forall m :: m in blocks'[n].enters ==> m in blocks' && blocks'[m].exit == Some(Exit(n, blocks'[n].enters[m]))
  {
    hide ExitOk;
  }

  lemma JumpExit(blocks: Blocks, cur: Name, l: Name, r: Name, n: Name, e: Exit)
    requires cur in blocks && r in blocks && n in blocks && blocks[r].aliasOf.None? && blocks[r].home.None?
    requires if blocks[r].defined then HasLabel(blocks[r], l) else r == l
    requires if n == cur then e == Exit(r, l) else ExitOk(blocks, n, e)
    ensures ExitOk(Jumped(blocks, cur, l, r), n, e)
  {}
}
