/** What the visitor relies on between the steps of one visit, and that the steps keep it. */
module VisitorShape {
  import opened Wrappers
  import opened CodeBlocks
  import opened BlockInvariant
  import opened LabelVisits

  /** Aliases lead to blocks that were defined later. */
  ghost predicate AliasOrder(st: State) {
    forall n :: n in st.blocks && st.blocks[n].aliasOf.Some? ==>
      var t := st.blocks[n].aliasOf.value; t in st.blocks && st.blocks[n].defAt < st.blocks[t].defAt <= st.clock
  }

  /** The checks of `append` and `setExit` pass on the current block. */
  ghost predicate OpenCurrent(st: State) {
    st.current in st.blocks && st.blocks[st.current].aliasOf.None?
      && (st.blocks[st.current].exit.Some? ==> st.blocks[st.current].unreachable)
  }

  ghost predicate Shaped(st: State) {
    AliasOrder(st) && OpenCurrent(st)
  }

  lemma OkIsShaped(st: State)
    requires StateOk(st)
    ensures Shaped(st)
  {
    hide RefsOk;
    forall n | n in st.blocks && st.blocks[n].aliasOf.Some?
      ensures var t := st.blocks[n].aliasOf.value; t in st.blocks && st.blocks[n].defAt < st.blocks[t].defAt <= st.clock
    {
      assert LinksOk(st.blocks, n);
      assert LocalOk(st.blocks[st.blocks[n].aliasOf.value], st.clock);
    }
  }

  lemma AppendShaped(st: State, node: Node)
    requires Shaped(st)
    ensures Shaped(Append(st, node)) && Append(st, node).current == st.current && Append(st, node).failed == st.failed
  {}

  lemma GetBlockShaped(st: State, l: Name)
    requires Shaped(st)
    ensures Shaped(GetBlock(st, l)) && l in GetBlock(st, l).blocks
  {}

  /** The label's block is defined now. */
  lemma DefinedShaped(st: State, l: Name)
    requires StateOk(st) && Unvisited(st, l) && l != st.current
    ensures var st1 := SetDefined(GetBlock(st, l), l);
      && Shaped(st1) && st1.current == st.current && l in st1.blocks && Current(st1) == Current(st)
      && st1.blocks[l].aliasOf.None? && st1.blocks[l].exit.None? && st1.blocks[l].defAt == st1.clock
      && Current(st).defAt < st1.clock
      && (forall m :: m in Current(st1).enters ==> m in st1.blocks && st1.blocks[m].exit.Some?)
  {
    hide RefsOk, LocalOk, LinksOk;
    GetBlockKeepsOk(st, l);
    var st0 := GetBlock(st, l);
    assert LocalOk(st0.blocks[l], st0.clock) && LinksOk(st0.blocks, l) && LinksOk(st0.blocks, st.current)
      && LocalOk(st0.blocks[st.current], st0.clock);
    UndefinedBlock(st0.blocks, l, st0.clock);
    OkIsShaped(st0);
    NumberedBefore(st0.blocks[st.current], st0.clock);
    AllEnterersExit(st0.blocks, st.current);
  }

  lemma AllEnterersExit(blocks: map<Name, Block>, n: Name)
    requires n in blocks && LinksOk(blocks, n)
    ensures forall m :: m in blocks[n].enters ==> m in blocks && blocks[m].exit.Some?
  {}

  lemma EmptyIsOpen(st: State)
    requires StateOk(st) && IsEmpty(Current(st))
    ensures Current(st).exit.None? && st.current !in Current(st).enters
  {
    hide RefsOk;
    assert LocalOk(st.blocks[st.current], st.clock) && LinksOk(st.blocks, st.current);
    EmptyHasNoExit(st.blocks[st.current], st.clock);
    NotEnteredByItself(st.blocks, st.current);
  }

  /** The aliases stay as they are, and block `l` is open. */
  lemma SameAliases(st: State, st': State, l: Name)
    requires AliasOrder(st) && st'.clock == st.clock && st'.blocks.Keys == st.blocks.Keys && l in st.blocks
    requires forall n :: n in st.blocks ==>
      st'.blocks[n].aliasOf == st.blocks[n].aliasOf && st'.blocks[n].defAt == st.blocks[n].defAt
    requires st'.blocks[l].aliasOf.None? && st'.blocks[l].exit.None?
    ensures Root(st', l) == l && Shaped(st'.(current := l))
  {}

  lemma MoveChanges(st: State, l: Name)
    requires Shaped(st) && l in st.blocks && l != st.current && st.blocks[l].aliasOf.None? && st.blocks[l].exit.None?
    ensures var st' := MoveInto(st, l);
      && st'.clock == st.clock && st'.blocks.Keys == st.blocks.Keys && st'.blocks[l].exit.None?
      && forall n :: n in st.blocks ==>
        st'.blocks[n].aliasOf == st.blocks[n].aliasOf && st'.blocks[n].defAt == st.blocks[n].defAt
  {
    assert Root(st, l) == l;
    hide Root, AliasOrder;
    if !Current(st).unreachable {
      var b := Current(st).(exit := Some(Exit(l, l)));
      assert MoveInto(st, l).blocks == st.blocks[st.current := b][l := EnterBlock(st.blocks[l], st.current, l)];
    }
  }

  /** The label's block is open and no alias after the jump into it. */
  lemma MovedShaped(st: State, l: Name)
    requires Shaped(st) && l in st.blocks && l != st.current && st.blocks[l].aliasOf.None? && st.blocks[l].exit.None?
    ensures var st' := MoveInto(Append(st, NGoto(l)), l);
      && Root(st', l) == l && Shaped(st'.(current := l)) && st'.clock == st.clock
  {
    hide Root, MoveInto, Append, AliasOrder;
    AppendShaped(st, NGoto(l));
    AppendKeeps(st, NGoto(l), l);
    MoveChanges(Append(st, NGoto(l)), l);
    SameAliases(Append(st, NGoto(l)), MoveInto(Append(st, NGoto(l)), l), l);
  }

  lemma AppendKeeps(st: State, node: Node, l: Name)
    requires st.current in st.blocks && l in st.blocks && l != st.current
    ensures l in Append(st, node).blocks && Append(st, node).blocks[l] == st.blocks[l]
      && Append(st, node).clock == st.clock
  {}

  lemma AliasShaped(st: State, l: Name)
    requires Shaped(st) && l in st.blocks && l != st.current && st.blocks[l].aliasOf.None? && st.blocks[l].exit.None?
    requires var b := Current(st);
      b.exit.None? && b.nested == [] && IsEmpty(b) && b.defAt < st.blocks[l].defAt <= st.clock
        && st.current !in b.enters
    ensures var st' := SetAlias(st, l);
      && Root(st', l) == l && Shaped(st'.(current := l)) && st'.clock == st.clock
  {
    hide Root, MergeEnters, IsEmpty, Redirect, AliasOrder;
    var b, st' := Current(st), SetAlias(st, l);
    RedirectKeeps(st.blocks, b.enters.Keys, l, l);
    RedirectKeeps(st.blocks, b.enters.Keys, l, st.current);
    MergedIsNoAlias(st.blocks[l].(nodes := b.nodes + st.blocks[l].nodes), b.enters, b.entersPerName.Keys);
    RedirectedOthers(st.blocks, b.enters.Keys, l);
    NewAlias(st, st', l);
  }

  lemma RedirectedOthers(blocks: map<Name, Block>, froms: set<Name>, to: Name)
    ensures var blocks' := Redirect(blocks, froms, to);
      blocks'.Keys == blocks.Keys && forall n :: n in blocks ==>
        blocks'[n].aliasOf == blocks[n].aliasOf && blocks'[n].defAt == blocks[n].defAt
  {}

  lemma NewAlias(st: State, st': State, l: Name)
    requires AliasOrder(st) && st'.clock == st.clock && st'.blocks.Keys == st.blocks.Keys && l in st.blocks
      && st.current in st.blocks
    requires forall n :: n in st.blocks && n != st.current ==>
      st'.blocks[n].aliasOf == st.blocks[n].aliasOf && st'.blocks[n].defAt == st.blocks[n].defAt
    requires l != st.current && st'.blocks[st.current].aliasOf == Some(l)
      && st'.blocks[st.current].defAt == st.blocks[st.current].defAt
    requires st.blocks[st.current].defAt < st.blocks[l].defAt <= st.clock
    requires st'.blocks[l].aliasOf.None? && st'.blocks[l].exit.None?
    ensures Root(st', l) == l && Shaped(st'.(current := l))
  {}
}
