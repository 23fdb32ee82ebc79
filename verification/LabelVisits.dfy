/** Visiting a label: a block that holds code exits there, one that holds labels only becomes an alias. */
module LabelVisits {
  import opened Wrappers
  import opened CodeBlocks
  import opened BlockCode
  import opened BlockInvariant
  import opened BlockNames
  import opened BodyVisits

  // ---- Running on into a label ----------------------------------------------------------------

  /** The block of label `l` is defined and holds its label. */
  function Defined(st: State, l: Name): State {
    var st1 := GetBlock(st, l);
    st1.(blocks := st1.blocks[l := st1.blocks[l].(defined := true, defAt := st.clock + 1, nodes := [NLabel(l)])],
      clock := st.clock + 1)
  }

  /** Label `l` has not been visited yet. */
  ghost predicate Unvisited(st: State, l: Name) {
    l in st.blocks ==> !st.blocks[l].defined
  }

  lemma DefinedKeepsOk(st: State, l: Name)
    requires StateOk(st) && Unvisited(st, l)
    ensures StateOk(Defined(st, l)) && l != st.current
  {
    hide LocalOk, LinksOk, RefsOk;
    GetBlockKeepsOk(st, l);
    var st1, st' := GetBlock(st, l), Defined(st, l);
    assert LocalOk(st1.blocks[l], st.clock) && LinksOk(st1.blocks, l);
    UndefinedBlock(st1.blocks, l, st.clock);
    DefinedBlock(st1.blocks[l], l, st.clock);
    forall n | n in st'.blocks
      ensures LocalOk(st'.blocks[n], st'.clock) && LinksOk(st'.blocks, n) && RefsOk(st'.blocks, n) {
      if n != l {
        assert LocalOk(st1.blocks[n], st.clock);
        LaterClockOk(st1.blocks[n], st.clock, st'.clock);
      }
      DefinedLinks(st1.blocks, st'.blocks, n, l);
      DefinedRefs(st1.blocks, st'.blocks, n, l);
    }
  }

  lemma UndefinedBlock(blocks: Blocks, l: Name, clock: nat)
    requires l in blocks && !blocks[l].defined && LocalOk(blocks[l], clock) && LinksOk(blocks, l)
    ensures var b := blocks[l];
      && l in b.entersPerName && b.aliasOf.None? && b.home.None? && b.exit.None? && !b.inLoop && !b.unreachable
      && b.nodes == [] && b.unreachableNodes == [] && b.nested == []
  {}

  lemma LaterClockOk(b: Block, clock: nat, clock': nat)
    requires LocalOk(b, clock) && clock <= clock'
    ensures LocalOk(b, clock')
  {}

  lemma DefinedBlock(b: Block, l: Name, clock: nat)
    requires LocalOk(b, clock) && !b.defined && l in b.entersPerName
    ensures LocalOk(b.(defined := true, defAt := clock + 1, nodes := [NLabel(l)]), clock + 1)
  {}

  lemma DefinedLinks(blocks: Blocks, blocks': Blocks, n: Name, l: Name)
    requires l in blocks && !blocks[l].defined && n in blocks && LinksOk(blocks, n)
    requires blocks[l].aliasOf.None?
    requires exists d: nat :: blocks' == blocks[l := blocks[l].(defined := true, defAt := d, nodes := [NLabel(l)])]
    ensures LinksOk(blocks', n)
  {}

  lemma DefinedRefs(blocks: Blocks, blocks': Blocks, n: Name, l: Name)
    requires l in blocks && !blocks[l].defined && n in blocks && RefsOk(blocks, n) && blocks[l].home.None?
    requires blocks[l].unreachableNodes == []
    requires exists d: nat :: blocks' == blocks[l := blocks[l].(defined := true, defAt := d, nodes := [NLabel(l)])]
    ensures RefsOk(blocks', n)
  {
    if n != l {
      RefsStay(blocks, blocks', n);
    }
  }

  /** A block that holds code exits to the label, which is visited next. */
  lemma FallThrough(st: State, l: Name)
    requires StateOk(st) && Unvisited(st, l) && !IsEmpty(Current(st)) && l != st.current
    ensures EnterLabel(st, l) == MoveInto(Append(Defined(st, l), NGoto(l)), l).(current := l)
  {
    hide LocalOk, LinksOk, RefsOk;
    GetBlockKeepsOk(st, l);
    var st1 := GetBlock(st, l);
    assert LocalOk(st1.blocks[l], st.clock) && LinksOk(st1.blocks, l) && LinksOk(st1.blocks, st.current);
    UndefinedBlock(st1.blocks, l, st.clock);
    ExitInBlocks(st1.blocks, st.current);
    var st2 := SetDefined(st1, l);
    assert st2.blocks[st.current] == st.blocks[st.current] && Current(st2) == Current(st) == Current(Defined(st, l));
    LabelAfterJump(st2, Defined(st, l), l);
  }

  /** The label may as well be put on its block before the jump to it. */
  lemma LabelAfterJump(st2: State, std: State, l: Name)
    requires st2.current in st2.blocks && st2.current != l && l in st2.blocks
    requires var b := st2.blocks[l]; b.aliasOf.None? && !b.unreachable && b.nodes == []
    requires std == Put(st2, l, st2.blocks[l].(nodes := [NLabel(l)]))
    requires var c := st2.blocks[st2.current]; c.aliasOf.None? && (c.exit.Some? ==> c.unreachable)
    ensures var st3 := MoveInto(Append(st2, NGoto(l)), l);
      && Root(st3, l) == l
      && Append(st3.(current := l), NLabel(l)) == MoveInto(Append(std, NGoto(l)), l).(current := l)
  {
    var ns: seq<Node> := [NLabel(l)];
    assert [] + ns == ns;
    if st2.blocks[st2.current].unreachable {
      UnreachableJump(st2, std, l);
    } else {
      AppendAndMove(st2, l, l);
      AppendAndMove(std, l, l);
      JumpedLabel(st2.blocks, std.blocks, st2.current, l);
    }
  }

  lemma UnreachableJump(st2: State, std: State, l: Name)
    requires st2.current in st2.blocks && st2.current != l && l in st2.blocks
    requires var b := st2.blocks[l]; b.aliasOf.None? && !b.unreachable && b.nodes == []
    requires std == Put(st2, l, st2.blocks[l].(nodes := [NLabel(l)]))
    requires var c := st2.blocks[st2.current]; c.aliasOf.None? && c.unreachable
    ensures var st3 := Append(st2, NGoto(l));
      MoveInto(st3, l) == st3 && Root(st3, l) == l && st3.blocks.Keys == st2.blocks.Keys
      && MoveInto(Append(std, NGoto(l)), l) == Append(std, NGoto(l)) ==
        Put(st3, l, st2.blocks[l].(nodes := [NLabel(l)]))
      && st3.blocks[l] == st2.blocks[l]
  {
    var cur, c := st2.current, st2.blocks[st2.current];
    assert std.blocks[cur] == c;
    if c.exit.Some? {
      assert Get(st2, c.exit.value.to).defined == Get(std, c.exit.value.to).defined;
    }
    SwapPut(st2.blocks, cur, c.(unreachableNodes := c.unreachableNodes + [NGoto(l)]), l,
      st2.blocks[l].(nodes := [NLabel(l)]));
  }

  lemma JumpedLabel(blocks: Blocks, blocks': Blocks, cur: Name, l: Name)
    requires cur in blocks && l in blocks && cur != l && blocks' == blocks[l := blocks[l].(nodes := [NLabel(l)])]
    ensures var j, j' := Jumped(blocks, cur, l, l), Jumped(blocks', cur, l, l);
      l in j && j' == j[l := j[l].(nodes := [NLabel(l)])] && j[l] == EnterBlock(blocks[l], cur, l)
  {}

  lemma SwapPut(blocks: Blocks, m: Name, b: Block, n: Name, b': Block)
    requires m != n
    ensures blocks[m := b][n := b'] == blocks[n := b'][m := b]
  {}

  // ---- Jumping to labels stays possible ---------------------------------------------------------

  lemma DefinedKeepsJumps(st: State, l: Name, labels: set<Name>)
    requires Ready(st, labels) && Unvisited(st, l) && l in labels
    ensures Ready(Defined(st, l), labels)
  {
    hide Jumpable, StateOk, GeneratedBefore;
    DefinedKeepsOk(st, l);
    GetBlockGrows(st, l, labels);
    var st1, st' := GetBlock(st, l), Defined(st, l);
    NamesStay(st, st', labels);
    forall x | x in labels && x in st'.blocks ensures Jumpable(st', x) {
      assert Jumpable(st1, x);
      DefinedJump(st1, st', l, x);
    }
  }

  lemma DefinedJump(st: State, st': State, l: Name, x: Name)
    requires StateOk(st) && l in st.blocks && !st.blocks[l].defined && Jumpable(st, x)
    requires st'.blocks == st.blocks[l := st.blocks[l].(defined := true, defAt := st.clock + 1, nodes := [NLabel(l)])]
    requires st'.clock == st.clock + 1
    ensures Jumpable(st', x)
  {
    hide LocalOk, LinksOk, RefsOk;
    assert LocalOk(st.blocks[l], st.clock) && LinksOk(st.blocks, l);
    UndefinedBlock(st.blocks, l, st.clock);
    if x == l {
      assert Root(st', l) == l;
    } else {
      RootUnmoved(st, st', x);
      RootIsLive(st, x);
    }
  }

  // ---- A block of labels only ---------------------------------------------------------------------

  /** The blocks after block `x` became an alias of the block of label `l`. */
  function Aliased(blocks: Blocks, x: Name, l: Name, clock: nat): Blocks
    requires x in blocks && l in blocks
  {
    var b := blocks[x];
    var target := blocks[l].(defined := true, defAt := clock + 1, nodes := b.nodes + [NLabel(l)]);
    Redirect(blocks, b.enters.Keys, l)
      [l := MergeEnters(target, b.enters, b.entersPerName.Keys)]
      [x := b.(aliasOf := Some(l), enters := map[], unreachable := true)]
  }

  lemma BecomesAlias(st: State, l: Name)
    requires StateOk(st) && Unvisited(st, l) && IsEmpty(Current(st)) && Current(st).nested == [] && l != st.current
    ensures l in GetBlock(st, l).blocks
    ensures EnterLabel(st, l) ==
      State(Aliased(GetBlock(st, l).blocks, st.current, l, st.clock), l, st.stack, st.counter, st.clock + 1, false)
  {
    hide LocalOk, LinksOk, RefsOk, Aliased, SetAlias, EnterLabel, Append, Root;
    GetBlockKeepsOk(st, l);
    var st0 := GetBlock(st, l);
    var x := st.current;
    assert LocalOk(st0.blocks[l], st.clock) && LinksOk(st0.blocks, l);
    assert LocalOk(st.blocks[x], st.clock) && LinksOk(st.blocks, x);
    UndefinedBlock(st0.blocks, l, st.clock);
    EmptyHasNoExit(st.blocks[x], st.clock);
    NotEnteredByItself(st.blocks, x);
    assert Current(st0) == Current(st);
    AliasSteps(st0, l);
    EnterEmptyLabel(st, l);
  }

  lemma EnterEmptyLabel(st: State, l: Name)
    requires st.current in st.blocks && IsEmpty(Current(st))
    ensures var st2 := SetAlias(SetDefined(GetBlock(st, l), l), l);
      l != st.current ==> EnterLabel(st, l) == Append(st2.(current := Root(st2, l)), NLabel(l))
  {}

  lemma EmptyHasNoExit(b: Block, clock: nat)
    requires LocalOk(b, clock) && IsEmpty(b)
    ensures b.exit.None?
  {
    assert b.nodes != [] ==> b.nodes[|b.nodes| - 1] in b.nodes;
  }

  lemma NotEnteredByItself(blocks: Blocks, x: Name)
    requires x in blocks && LinksOk(blocks, x) && blocks[x].exit.None?
    ensures x !in blocks[x].enters
  {}

  lemma AliasSteps(st: State, l: Name)
    requires st.current in st.blocks && l in st.blocks && l != st.current
    requires var b := st.blocks[st.current];
      b.aliasOf.None? && b.exit.None? && IsEmpty(b) && b.nested == [] && st.current !in b.enters
    requires var b := st.blocks[l]; b.aliasOf.None? && b.exit.None? && !b.unreachable && b.nodes == []
    ensures var st2 := SetAlias(SetDefined(st, l), l);
      Append(st2.(current := Root(st2, l)), NLabel(l))
      == State(Aliased(st.blocks, st.current, l, st.clock), l, st.stack, st.counter, st.clock + 1, st.failed)
  {
    hide Redirect, MergeEnters, Aliased;
    var x := st.current;
    var b := st.blocks[x];
    var d := st.blocks[l].(defined := true, defAt := st.clock + 1);
    var st1 := SetDefined(st, l);
    assert b.nodes + d.nodes == b.nodes;
    RedirectKeeps(st1.blocks, b.enters.Keys, l, x);
    RedirectKeeps(st1.blocks, b.enters.Keys, l, l);
    var st2 := SetAlias(st1, l);
    var merged := MergeEnters(d.(nodes := b.nodes), b.enters, b.entersPerName.Keys);
    assert st2.blocks == Redirect(st1.blocks, b.enters.Keys,
      l)[l := merged][x := b.(aliasOf := Some(l), enters := map[], unreachable := true)];
    MergedIsNoAlias(d.(nodes := b.nodes), b.enters, b.entersPerName.Keys);
    assert Root(st2, l) == l;
    var final := Append(st2.(current := l), NLabel(l));
    AliasBlocks(st.blocks, x, l, st.clock, final.blocks, st2.blocks);
  }

  lemma RedirectKeeps(blocks: Blocks, froms: set<Name>, to: Name, n: Name)
    requires n in blocks && blocks[n].exit.None?
    ensures var blocks' := Redirect(blocks, froms, to); n in blocks' && blocks'[n] == blocks[n]
  {}

  lemma MergedIsNoAlias(b: Block, moved: map<Name, Name>, names: set<Name>)
    ensures var b' := MergeEnters(b, moved, names);
      && b'.aliasOf == b.aliasOf && b'.unreachable == b.unreachable && b'.nodes == b.nodes && b'.exit == b.exit
      && b'.unreachableNodes == b.unreachableNodes && b'.home == b.home && b'.enters == b.enters + moved
      && b'.defAt == b.defAt
      && b'.defined == b.defined && b'.inLoop == b.inLoop && b'.nested == b.nested
      && forall t :: t in b.entersPerName ==> t in b'.entersPerName
  {}

  lemma AliasBlocks(blocks: Blocks, x: Name, l: Name, clock: nat, final: Blocks, almost: Blocks)
    requires x in blocks && l in blocks && l != x
    requires var b := blocks[x];
      almost == Redirect(blocks[l := blocks[l].(defined := true, defAt := clock + 1)], b.enters.Keys, l)
        [l := MergeEnters(blocks[l].(defined := true, defAt := clock + 1, nodes := b.nodes), b.enters,
          b.entersPerName.Keys)]
        [x := b.(aliasOf := Some(l), enters := map[], unreachable := true)]
    requires final == almost[l := almost[l].(nodes := almost[l].nodes + [NLabel(l)])]
    ensures final == Aliased(blocks, x, l, clock)
  {
    hide Redirect;
    var b := blocks[x];
    var d := blocks[l].(defined := true, defAt := clock + 1);
    var merged := MergeEnters(d.(nodes := b.nodes), b.enters, b.entersPerName.Keys);
    var labelled := MergeEnters(d.(nodes := b.nodes + [NLabel(l)]), b.enters, b.entersPerName.Keys);
    MergedNodes(d, b.nodes, b.nodes + [NLabel(l)], b.enters, b.entersPerName.Keys);
    hide MergeEnters;
    RedirectThenPut(blocks, b.enters.Keys, l, d, merged);
    PutTwice(Redirect(blocks, b.enters.Keys, l), l, merged, labelled, x,
      b.(aliasOf := Some(l), enters := map[], unreachable := true));
  }

  lemma MergedNodes(b: Block, ns: seq<Node>, ns': seq<Node>, moved: map<Name, Name>, names: set<Name>)
    ensures MergeEnters(b.(nodes := ns'), moved, names) == MergeEnters(b.(nodes := ns), moved, names).(nodes := ns')
    ensures MergeEnters(b.(nodes := ns), moved, names).nodes == ns
  {
    var b1, b2 := b.(nodes := ns), b.(nodes := ns');
    assert forall t :: EnterCount(b1, t) == EnterCount(b2, t);
    assert MergeEnters(b1, moved, names).entersPerName == MergeEnters(b2, moved, names).entersPerName;
  }

  lemma RedirectThenPut(blocks: Blocks, froms: set<Name>, l: Name, d: Block, b: Block)
    requires l in blocks
    ensures Redirect(blocks[l := d], froms, l)[l := b] == Redirect(blocks, froms, l)[l := b]
  {
    hide MergeEnters;
    assert Redirect(blocks[l := d], froms, l).Keys == Redirect(blocks, froms, l).Keys;
  }

  lemma PutTwice(blocks: Blocks, l: Name, b: Block, b': Block, x: Name, c: Block)
    requires l != x
    ensures blocks[l := b][x := c][l := b'] == blocks[l := b'][x := c]
  {}

  /** What makes block `x` fit to become an alias of the block of label `l`. */
  ghost predicate MayAlias(blocks: Blocks, x: Name, l: Name, clock: nat) {
    && BlocksOk(blocks, clock) && x in blocks && l in blocks && x != l && !blocks[l].defined
    && blocks[x].defined && blocks[x].aliasOf.None? && blocks[x].exit.None? && blocks[x].home.None?
    && !blocks[x].inLoop && IsEmpty(blocks[x])
  }

  lemma AliasKeepsOk(blocks: Blocks, x: Name, l: Name, clock: nat)
    requires MayAlias(blocks, x, l, clock)
    ensures BlocksOk(Aliased(blocks, x, l, clock), clock + 1)
  {
    hide LocalOk, LinksOk, RefsOk, Aliased, IsEmpty;
    var blocks' := Aliased(blocks, x, l, clock);
    AliasedBlocks(blocks, x, l, clock);
    assert LocalOk(blocks[l], clock) && LinksOk(blocks, l) && LocalOk(blocks[x], clock) && LinksOk(blocks, x);
    UndefinedBlock(blocks, l, clock);
    AliasFaces(blocks, x, l, clock);
    forall n | n in blocks' ensures LocalOk(blocks'[n], clock + 1) && LinksOk(blocks', n) && RefsOk(blocks', n) {
      AliasLocal(blocks, x, l, clock, n);
      AliasLinks(blocks, x, l, clock, n);
      AliasRefs(blocks, x, l, clock, n);
    }
  }

  lemma AliasedBlocks(blocks: Blocks, x: Name, l: Name, clock: nat)
    requires x in blocks && l in blocks && x != l
    ensures var b, blocks' := blocks[x], Aliased(blocks, x, l, clock);
      && blocks'.Keys == blocks.Keys
      && blocks'[x] == b.(aliasOf := Some(l), enters := map[], unreachable := true)
      && blocks'[l] == MergeEnters(blocks[l].(defined := true, defAt := clock + 1, nodes := b.nodes + [NLabel(l)]),
        b.enters, b.entersPerName.Keys)
      && (forall n :: n in blocks && n != x && n != l ==>
           blocks'[n] == if n in b.enters && blocks[n].exit.Some?
             then blocks[n].(exit := Some(blocks[n].exit.value.(to := l))) else blocks[n])
  {}

  lemma AliasFaces(blocks: Blocks, x: Name, l: Name, clock: nat)
    requires x in blocks && l in blocks && x != l && blocks[x].home.None? && blocks[l].home.None?
    ensures FacesKept(blocks, Aliased(blocks, x, l, clock))
  {
    hide Aliased, MergeEnters;
    AliasedBlocks(blocks, x, l, clock);
  }

  lemma AliasLocal(blocks: Blocks, x: Name, l: Name, clock: nat, n: Name)
    requires MayAlias(blocks, x, l, clock) && n in blocks && n in Aliased(blocks, x, l, clock)
    ensures LocalOk(Aliased(blocks, x, l, clock)[n], clock + 1)
  {
    hide LocalOk, LinksOk, RefsOk, Aliased, MergeEnters, IsEmpty;
    AliasedBlocks(blocks, x, l, clock);
    assert LocalOk(blocks[n], clock) && LocalOk(blocks[x], clock) && LocalOk(blocks[l], clock) && LinksOk(blocks, l);
    UndefinedBlock(blocks, l, clock);
    if n == x {
      AliasLocalSelf(blocks[x], l, clock);
    } else if n == l {
      SeparateEnters(blocks, x, l);
      AliasLocalTarget(blocks[x], blocks[l], l, clock);
    } else {
      AliasLocalOther(blocks[n], blocks, x, l, clock, n);
    }
  }

  /** A block exits to one block only. */
  lemma SeparateEnters(blocks: Blocks, x: Name, l: Name)
    requires x in blocks && l in blocks && x != l && LinksOk(blocks, x) && LinksOk(blocks, l)
    ensures blocks[x].enters.Keys !! blocks[l].enters.Keys
  {}

  lemma AliasLocalSelf(b: Block, l: Name, clock: nat)
    requires LocalOk(b, clock) && b.defined && b.exit.None? && !b.inLoop && IsEmpty(b)
    ensures LocalOk(b.(aliasOf := Some(l), enters := map[], unreachable := true), clock + 1)
  {}

  lemma AliasLocalOther(b: Block, blocks: Blocks, x: Name, l: Name, clock: nat, n: Name)
    requires LocalOk(b, clock)
    ensures LocalOk(b, clock + 1)
    ensures b.exit.Some? ==> LocalOk(b.(exit := Some(b.exit.value.(to := l))), clock + 1)
  {}

  lemma AliasLocalTarget(b: Block, t: Block, l: Name, clock: nat)
    requires LocalOk(b, clock) && LocalOk(t, clock) && b.defined && !t.defined && l in t.entersPerName
    requires b.aliasOf.None? && b.exit.None? && IsEmpty(b) && b.enters.Keys !! t.enters.Keys
    ensures LocalOk(MergeEnters(t.(defined := true, defAt := clock + 1, nodes := b.nodes + [NLabel(l)]), b.enters,
      b.entersPerName.Keys), clock + 1)
  {
    var t' := t.(defined := true, defAt := clock + 1, nodes := b.nodes + [NLabel(l)]);
    var b' := MergeEnters(t', b.enters, b.entersPerName.Keys);
    forall u ensures EnterCount(b', u) == |EnterersBy(b'.enters, u)| {
      MergedCount(t', b, u);
    }
    forall i | 0 <= i < |b'.nodes| ensures b'.nodes[i].NLabel? {
      assert i < |b.nodes| ==> b.nodes[i] in b.nodes;
    }
    forall x | HasLabel(b', x) ensures x in b'.entersPerName {
      assert x == l || HasLabel(b, x);
    }
  }

  lemma MergedCount(t: Block, b: Block, u: Name)
    requires b.enters.Keys !! t.enters.Keys
    requires EnterCount(t, u) == |EnterersBy(t.enters, u)|
    ensures var b' := MergeEnters(t, b.enters, b.entersPerName.Keys); EnterCount(b', u) == |EnterersBy(b'.enters, u)|
  {
    EnterersMerge(t.enters, b.enters, u);
    if u !in t.entersPerName.Keys + b.entersPerName.Keys + b.enters.Values {
      assert EnterersBy(b.enters, u) == {};
    }
  }

  lemma AliasLinks(blocks: Blocks, x: Name, l: Name, clock: nat, n: Name)
    requires MayAlias(blocks, x, l, clock) && n in blocks && n in Aliased(blocks, x, l, clock)
    ensures LinksOk(Aliased(blocks, x, l, clock), n)
  {
    hide LocalOk, LinksOk, RefsOk, Aliased, IsEmpty, MergeEnters, ExitOk;
    AliasedBlocks(blocks, x, l, clock);
    var t := blocks[l].(defined := true, defAt := clock + 1, nodes := blocks[x].nodes + [NLabel(l)]);
    MergedIsNoAlias(t, blocks[x].enters, blocks[x].entersPerName.Keys);
    assert LocalOk(blocks[x], clock) && LocalOk(blocks[l], clock);
    assert LinksOk(blocks, l) && LinksOk(blocks, x) && LinksOk(blocks, n);
    UndefinedBlock(blocks, l, clock);
    SeparateEnters(blocks, x, l);
    NumberedBefore(blocks[x], clock);
    var blocks' := Aliased(blocks, x, l, clock);
    AliasEnterers(blocks, blocks', x, l, n);
    if n == l || n == x {
      AliasOwnLinks(blocks, blocks', x, l, n);
    } else {
      if blocks[n].exit.Some? {
        LinkedExit(blocks, n);
        AliasExit(blocks, blocks', x, l, n);
      }
      AliasOtherLinks(blocks, blocks', x, l, n);
    }
  }

  lemma NumberedBefore(b: Block, clock: nat)
    requires LocalOk(b, clock)
    ensures b.defAt <= clock
  {}

  lemma LinkedExit(blocks: Blocks, n: Name)
    requires n in blocks && LinksOk(blocks, n) && blocks[n].exit.Some?
    ensures ExitOk(blocks, n, blocks[n].exit.value)
  {}

  /** How exits, enters and aliases change when block `x` becomes an alias of the block of label `l`. */
  ghost predicate AliasSwitch(blocks: Blocks, blocks': Blocks, x: Name, l: Name) {
    && x in blocks && l in blocks && x != l && blocks'.Keys == blocks.Keys
    && var b, t, t' := blocks[x], blocks[l], blocks'[l];
    && b.defined && b.aliasOf.None? && b.exit.None? && !t.defined && t.aliasOf.None? && t.exit.None? && t.home.None?
    && b.enters.Keys !! t.enters.Keys
    && blocks'[x] == b.(aliasOf := Some(l), enters := map[], unreachable := true)
    && t'.enters == t.enters + b.enters && t'.aliasOf.None? && t'.exit.None? && t'.home.None? && t'.defined
    && b.defAt < t'.defAt
    && t'.nodes == b.nodes + [NLabel(l)]
    && (forall n :: n in t.entersPerName ==> n in t'.entersPerName)
    && (forall n :: n in blocks && n != x && n != l ==>
         blocks'[n] == if n in b.enters && blocks[n].exit.Some?
           then blocks[n].(exit := Some(blocks[n].exit.value.(to := l))) else blocks[n])
  }

  lemma AliasEnterers(blocks: Blocks, blocks': Blocks, x: Name, l: Name, n: Name)
    requires AliasSwitch(blocks, blocks', x, l) && n in blocks && LinksOk(blocks, n) && LinksOk(blocks, x)
      && LinksOk(blocks, l)
    ensures forall m :: m in blocks'[n].enters ==>
      m in blocks' && blocks'[m].exit == Some(Exit(n, blocks'[n].enters[m]))
  {
    hide ExitOk;
  }

  lemma AliasOwnLinks(blocks: Blocks, blocks': Blocks, x: Name, l: Name, n: Name)
    requires AliasSwitch(blocks, blocks', x, l) && (n == x || n == l) && LinksOk(blocks, n)
    requires forall m :: m in blocks'[n].enters ==>
      m in blocks' && blocks'[m].exit == Some(Exit(n, blocks'[n].enters[m]))
    ensures LinksOk(blocks', n)
  {
    hide ExitOk;
  }

  lemma AliasOtherLinks(blocks: Blocks, blocks': Blocks, x: Name, l: Name, n: Name)
    requires AliasSwitch(blocks, blocks', x, l) && n in blocks && n != x && n != l && LinksOk(blocks, n)
    requires forall m :: m in blocks'[n].enters ==>
      m in blocks' && blocks'[m].exit == Some(Exit(n, blocks'[n].enters[m]))
    requires blocks[n].exit.Some? ==> blocks'[n].exit.Some? && ExitOk(blocks', n, blocks'[n].exit.value)
    ensures LinksOk(blocks', n)
  {
    hide ExitOk;
  }

  lemma AliasExit(blocks: Blocks, blocks': Blocks, x: Name, l: Name, n: Name)
    requires AliasSwitch(blocks, blocks', x, l) && n in blocks && n != x && n != l
    requires blocks[n].exit.Some? && ExitOk(blocks, n, blocks[n].exit.value) && LinksOk(blocks, x)
    ensures blocks'[n].exit.Some? && ExitOk(blocks', n, blocks'[n].exit.value)
  {}

  lemma AliasRefs(blocks: Blocks, x: Name, l: Name, clock: nat, n: Name)
    requires MayAlias(blocks, x, l, clock) && n in blocks && n in Aliased(blocks, x, l, clock)
    requires FacesKept(blocks, Aliased(blocks, x, l, clock))
    ensures RefsOk(Aliased(blocks, x, l, clock), n)
  {
    hide LocalOk, LinksOk, RefsOk, Aliased, IsEmpty, MergeEnters, FacesKept;
    AliasedBlocks(blocks, x, l, clock);
    assert LocalOk(blocks[l], clock) && LinksOk(blocks, l) && RefsOk(blocks, n);
    UndefinedBlock(blocks, l, clock);
    if n == l {
      MergedIsNoAlias(blocks[l].(defined := true, defAt := clock + 1, nodes := blocks[x].nodes + [NLabel(l)]),
        blocks[x].enters, blocks[x].entersPerName.Keys);
      EmptyRefs(Aliased(blocks, x, l, clock), l, blocks[x]);
    } else {
      RefsStay(blocks, Aliased(blocks, x, l, clock), n);
    }
  }

  lemma EmptyRefs(blocks: Blocks, l: Name, b: Block)
    requires l in blocks && blocks[l].unreachableNodes == [] && blocks[l].nodes == b.nodes + [NLabel(l)] && IsEmpty(b)
    ensures RefsOk(blocks, l)
  {
    forall i | 0 <= i < |blocks[l].nodes| ensures blocks[l].nodes[i].NLabel? {
      assert i < |b.nodes| ==> b.nodes[i] in b.nodes;
    }
  }

  lemma {:induction false} RootOfAliased(st: State, st': State, x: Name, l: Name, n: Name)
    requires MayAlias(st.blocks, x, l, st.clock) && n in st.blocks
    requires st'.blocks == Aliased(st.blocks, x, l, st.clock) && st'.clock == st.clock + 1
    ensures Root(st', n) == if Root(st, n) == x then l else Root(st, n)
    decreases st.clock - st.blocks[n].defAt
  {
    hide Aliased, IsEmpty, ExitOk, RefsOk, MergeEnters;
    AliasedBlocks(st.blocks, x, l, st.clock);
    var t := st.blocks[l].(defined := true, defAt := st.clock + 1, nodes := st.blocks[x].nodes + [NLabel(l)]);
    MergedIsNoAlias(t, st.blocks[x].enters, st.blocks[x].entersPerName.Keys);
    assert LocalOk(st.blocks[n], st.clock) && LinksOk(st.blocks, n) && LocalOk(st.blocks[x], st.clock)
      && LocalOk(st.blocks[l], st.clock);
    if n != x && st.blocks[n].aliasOf.Some? {
      assert LocalOk(st.blocks[st.blocks[n].aliasOf.value], st.clock);
      RootOfAliased(st, st', x, l, st.blocks[n].aliasOf.value);
    } else {
      assert Root(st', l) == l;
    }
  }

  lemma AliasedJump(st: State, st': State, x: Name, l: Name, n: Name)
    requires MayAlias(st.blocks, x, l, st.clock) && n in st.blocks && Jumpable(st, n)
    requires st'.blocks == Aliased(st.blocks, x, l, st.clock) && st'.clock == st.clock + 1
    ensures Jumpable(st', n)
  {
    hide Aliased, IsEmpty, LinksOk, RefsOk, MergeEnters;
    AliasedBlocks(st.blocks, x, l, st.clock);
    var t := st.blocks[l].(defined := true, defAt := st.clock + 1, nodes := st.blocks[x].nodes + [NLabel(l)]);
    MergedIsNoAlias(t, st.blocks[x].enters, st.blocks[x].entersPerName.Keys);
    assert LocalOk(st.blocks[l], st.clock) && LinksOk(st.blocks, l);
    UndefinedBlock(st.blocks, l, st.clock);
    RootOfAliased(st, st', x, l, n);
    RootIsLive(st, n);
    if n == l {
      assert HasLabel(st'.blocks[l], l);
    } else if st.blocks[n].defined {
      var r := Root(st, n);
      assert HasLabel(st.blocks[r], n);
      if r == x {
        assert HasLabel(st'.blocks[l], n);
      } else {
        assert st'.blocks[r].nodes == st.blocks[r].nodes;
      }
    }
  }

  /** The state after an empty block met a label. */
  lemma AliasReady(st: State, l: Name, labels: set<Name>)
    requires Ready(st, labels) && Unvisited(st, l) && l in labels && l != st.current
    requires var b := Current(st); IsEmpty(b) && b.nested == [] && b.home.None? && !b.inLoop
    ensures var st1, st' := GetBlock(st, l), EnterLabel(st, l);
      && Ready(st', labels) && MayAlias(st1.blocks, st.current, l, st1.clock)
      && st' == State(Aliased(st1.blocks, st.current, l, st.clock), l, st.stack, st.counter, st.clock + 1, false)
  {
    hide Jumpable, GeneratedBefore, LocalOk, LinksOk, RefsOk, Aliased, IsEmpty, EnterLabel, MergeEnters;
    var x := st.current;
    var st1, st' := GetBlock(st, l), EnterLabel(st, l);
    BecomesAlias(st, l);
    GetBlockGrows(st, l, labels);
    EmptyHasNoExit(st1.blocks[x], st.clock) by { assert LocalOk(st1.blocks[x], st.clock); }
    assert MayAlias(st1.blocks, x, l, st1.clock);
    AliasKeepsOk(st1.blocks, x, l, st.clock);
    AliasedBlocks(st1.blocks, x, l, st.clock);
    NamesStay(st, st', labels);
    assert LocalOk(st1.blocks[l], st.clock) && LinksOk(st1.blocks, l);
    UndefinedBlock(st1.blocks, l, st.clock);
    var t := st1.blocks[l].(defined := true, defAt := st.clock + 1, nodes := st1.blocks[x].nodes + [NLabel(l)]);
    MergedIsNoAlias(t, st1.blocks[x].enters, st1.blocks[x].entersPerName.Keys);
    forall n | n in labels && n in st'.blocks ensures Jumpable(st', n) {
      AliasedJump(st1, st', x, l, n);
    }
  }

  /** The state after code ran on into a label. */
  lemma FallThroughReady(st: State, l: Name, labels: set<Name>)
    requires Ready(st, labels) && Unvisited(st, l) && l in labels && l != st.current
    requires !IsEmpty(Current(st)) && !Current(st).inLoop
    ensures var st1, st' := Defined(st, l), EnterLabel(st, l);
      && Ready(st1, labels) && Ready(st', labels) && st'.current == l
      && var st2 := st'.(current := st.current);
         Grew(st1, st2, labels) && st2.blocks.Keys == st1.blocks.Keys
         && (!Current(st).unreachable ==> st2.blocks[st.current].nodes == Current(st).nodes + [NGoto(l)])
  {
    hide Jumpable, GeneratedBefore, LocalOk, LinksOk, RefsOk, BlocksOk, EnterLabel, IsEmpty, Grew, JumpsKept;
    FallThrough(st, l);
    DefinedKeepsJumps(st, l, labels);
    var st1 := Defined(st, l);
    assert Jumpable(st1, l);
    JumpKeepsOk(st1, l);
    JumpGrows(st1, l, labels);
    var st2 := MoveInto(Append(st1, NGoto(l)), l);
    var st' := st2.(current := l);
    assert st' == EnterLabel(st, l);
    GetBlockKeepsOk(st, l);
    LabelIsCurrent(st, st1, st2, l, labels);
    NamesStay(st1, st', labels);
    GrewKeepsJumps(st1, st2, labels);
    assert JumpsKept(st1, st', labels) by { CurrentDoesNotMatter(st1, st2, l, labels); }
    AllJumpable(st1, st', labels);
  }

  lemma CurrentDoesNotMatter(st1: State, st2: State, l: Name, labels: set<Name>)
    requires JumpsKept(st1, st2, labels)
    ensures JumpsKept(st1, st2.(current := l), labels)
  {}

  lemma LabelIsCurrent(st: State, st1: State, st2: State, l: Name, labels: set<Name>)
    requires st1 == Defined(st, l) && Grew(st1, st2, labels) && l != st.current && Unvisited(st, l)
    requires StateOk(GetBlock(st, l)) && BlocksOk(st2.blocks, st2.clock) && !st2.failed
    ensures StateOk(st2.(current := l))
  {
    hide LinksOk, RefsOk, BlocksOk;
    var b := GetBlock(st, l).blocks[l];
    BlocksAreLocal(GetBlock(st, l), l);
    assert !b.defined;
    assert b.exit.None? && b.aliasOf.None?;
    assert SameCode(st1.blocks[l], st2.blocks[l]);
  }

  lemma BlocksAreLocal(st: State, n: Name)
    requires StateOk(st) && n in st.blocks
    ensures LocalOk(st.blocks[n], st.clock)
  {}
}
