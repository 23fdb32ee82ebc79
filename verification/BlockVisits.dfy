/** Opening nested blocks, and visiting bodies that hold no labels. */
module BlockVisits {
  import opened Wrappers
  import opened CodeBlocks
  import opened Rebuild
  import opened BlockCode
  import opened BlockInvariant

  /** A nested block as it is opened. */
  function OpenedBlock(n: Name, clock: nat, home: Option<Home>, inLoop: bool): Block {
    NewBlock(n).(home := home, inLoop := inLoop, defined := true, defAt := clock + 1)
  }

  /** The state after `makeNested`, when the generated name is new. */
  function Opened(st: State, n: Name, home: Option<Home>, inLoop: bool): State
    requires st.current in st.blocks
  {
    var b := st.blocks[st.current];
    State(st.blocks[n := OpenedBlock(n, st.clock, home, inLoop)][st.current := b.(nested := b.nested + [n])],
          n, st.stack + [st.current], st.counter + 1, st.clock + 1, st.failed)
  }

  lemma MakeNestedOpens(st: State, key: string, home: Option<Home>, inLoop: bool)
    requires st.current in st.blocks && st.blocks[st.current].aliasOf.None?
    requires MkName(st.current, key, st.counter) !in st.blocks
    ensures MakeNested(st, key, home, inLoop) == Opened(st, MkName(st.current, key, st.counter), home, inLoop)
  {
    var n := MkName(st.current, key, st.counter);
    var nb := OpenedBlock(n, st.clock, home, inLoop);
    assert n != st.current;
    assert st.blocks[n := NewBlock(n)][n := NewBlock(n).(home := home, inLoop := inLoop)][n := nb] ==
      st.blocks[n := nb];
  }

  lemma OpenedIsOk(blocks: Blocks, n: Name, clock: nat, home: Option<Home>, inLoop: bool)
    requires n in blocks && blocks[n] == OpenedBlock(n, clock, home, inLoop)
    ensures LocalOk(blocks[n], clock + 1) && LinksOk(blocks, n) && RefsOk(blocks, n)
  {
    forall t ensures EnterersBy(blocks[n].enters, t) == {} {}
  }

  /** Appending the node of a nested block that is opened at the same time. */
  lemma NestedRefs(blocks: Blocks, blocks': Blocks, cur: Name, node: Node)
    requires cur in blocks && RefsOk(blocks, cur) && cur in blocks' && FacesKept(blocks, blocks') && IsNested(node)
    requires blocks'[cur].inLoop == blocks[cur].inLoop
    requires Exists(blocks', node.sub) && blocks'[node.sub].elseBlock.None?
    requires node.NLoop? || blocks[cur].inLoop ==> blocks'[node.sub].inLoop
    requires blocks'[cur].nodes == blocks[cur].nodes
             || (blocks'[cur].nodes == blocks[cur].nodes + [node]
               && blocks'[node.sub].home == Some(Home(cur, |blocks[cur].nodes|)))
    requires blocks'[cur].unreachableNodes == blocks[cur].unreachableNodes
      || blocks'[cur].unreachableNodes == blocks[cur].unreachableNodes + [node]
    ensures RefsOk(blocks', cur)
  {
    var b, b' := blocks[cur], blocks'[cur];
    var middle := blocks'[cur := b'.(nodes := b.nodes, unreachableNodes := b.unreachableNodes)];
    RefsStay(blocks, middle, cur);
    forall i | 0 <= i < |b'.nodes| ensures NodeOwns(blocks', b'.nodes[i], cur, i) {
      if i < |b.nodes| {
        assert NodeOwns(middle, b.nodes[i], cur, i);
      }
    }
  }

  lemma LocalStays(b: Block, b': Block, clock: nat, clock': nat)
    requires LocalOk(b, clock) && clock <= clock' && b.defined
    requires b' == b.(nested := b'.nested, unreachableNodes := b'.unreachableNodes, elseBlock := b'.elseBlock)
    ensures LocalOk(b', clock')
  {}

  lemma NestedLocal(b: Block, b': Block, node: Node, clock: nat, clock': nat)
    requires LocalOk(b, clock) && clock <= clock' && b.defined && b.aliasOf.None? && b.exit.None? && !b.unreachable
      && IsNested(node)
    requires b' == b.(nodes := b.nodes + [node], nested := b'.nested)
    ensures LocalOk(b', clock')
  {}

  lemma LaterClock(b: Block, clock: nat, clock': nat)
    requires LocalOk(b, clock) && clock <= clock'
    ensures LocalOk(b, clock')
  {}

  /** What `append` does to the current block. */
  ghost predicate AppendedTo(b: Block, b': Block, node: Node) {
    if b.unreachable then b' == b || b' == b.(unreachableNodes := b.unreachableNodes + [node])
    else b' == b.(nodes := b.nodes + [node])
  }

  lemma AppendAppends(st: State, node: Node)
    requires st.current in st.blocks && st.blocks[st.current].aliasOf.None?
    ensures var st' := Append(st, node);
      && st' == Put(st, st.current, st'.blocks[st.current])
      && AppendedTo(st.blocks[st.current], st'.blocks[st.current], node)
  {
    var b := st.blocks[st.current];
    assert st.blocks[st.current := b] == st.blocks;
  }

  /** `enterNode` of an `if` or a loop. */
  lemma EnterNestedKeepsOk(st: State, node: Node, key: string)
    requires StateOk(st) && IsNested(node) && node.sub == MkName(st.current, key, st.counter) && node.sub !in st.blocks
    ensures var st' := EnterNested(st, node, key);
      && StateOk(st') && st' == Opened(Append(st, node), node.sub, NextHome(st), Current(st).inLoop || node.NLoop?)
  {
    hide LocalOk, LinksOk, RefsOk, Append, AppendedTo;
    AppendAppends(st, node);
    MakeNestedOpens(Append(st, node), key, NextHome(st), Current(st).inLoop || node.NLoop?) by {
      assert AppendedTo(st.blocks[st.current], Append(st, node).blocks[st.current], node);
      AppendKeepsAlias(st, node);
    }
    NestedKeepsOk(st, Append(st, node), node);
  }

  lemma AppendKeepsAlias(st: State, node: Node)
    requires st.current in st.blocks
    ensures st.current in Append(st, node).blocks
      && Append(st, node).blocks[st.current].aliasOf == st.blocks[st.current].aliasOf
  {}

  lemma NestedFrames(st: State, st1: State, node: Node, home: Option<Home>, inLoop: bool)
    requires st.current in st.blocks && IsNested(node) && node.sub !in st.blocks && st.current in st1.blocks
    requires st1 == Put(st, st.current, st1.blocks[st.current])
      && AppendedTo(st.blocks[st.current], st1.blocks[st.current], node)
    ensures var st' := Opened(st1, node.sub, home, inLoop);
      && FacesKept(st.blocks, st'.blocks) && NodesKept(st.blocks, st'.blocks, st.current)
      && LinksKept(st.blocks, st'.blocks)
  {}

  lemma NestedKeepsOk(st: State, st1: State, node: Node)
    requires StateOk(st) && IsNested(node) && node.sub !in st.blocks && st.current in st1.blocks
    requires st1 == Put(st, st.current, st1.blocks[st.current])
      && AppendedTo(st.blocks[st.current], st1.blocks[st.current], node)
    ensures StateOk(Opened(st1, node.sub, NextHome(st), Current(st).inLoop || node.NLoop?))
  {
    hide LocalOk, LinksOk, RefsOk, FacesKept, NodesKept, LinksKept;
    var n, cur := node.sub, st.current;
    var home, inLoop := NextHome(st), Current(st).inLoop || node.NLoop?;
    var st' := Opened(st1, n, home, inLoop);
    NestedFrames(st, st1, node, home, inLoop);
    AllRefsOk(st.blocks, st.clock, st'.blocks, cur);
    NestedRefs(st.blocks, st'.blocks, cur, node);
    OpenedIsOk(st'.blocks, n, st.clock, home, inLoop);
    var b := st.blocks[cur];
    if b.unreachable {
      LocalStays(b, st'.blocks[cur], st.clock, st'.clock);
    } else {
      NestedLocal(b, st'.blocks[cur], node, st.clock, st'.clock);
    }
    OldBlocksOk(st, st', cur, n);
  }

  /** The blocks that were there before keep their links. */
  lemma OldBlocksOk(st: State, st': State, cur: Name, n: Name)
    requires BlocksOk(st.blocks, st.clock) && st.clock <= st'.clock && cur in st'.blocks && n in st'.blocks
    requires LinksKept(st.blocks, st'.blocks)
    requires forall x :: x in st'.blocks && x != cur && x != n ==> x in st.blocks && st'.blocks[x] == st.blocks[x]
    requires LocalOk(st'.blocks[cur], st'.clock) && LocalOk(st'.blocks[n], st'.clock)
      && (n in st.blocks || LinksOk(st'.blocks, n))
    requires cur in st.blocks
    requires forall x :: x in st'.blocks ==> RefsOk(st'.blocks, x)
    ensures BlocksOk(st'.blocks, st'.clock)
  {
    hide LocalOk, LinksOk, RefsOk, LinksKept;
    forall x | x in st'.blocks ensures LocalOk(st'.blocks[x], st'.clock) && LinksOk(st'.blocks, x) {
      if x in st.blocks {
        assert LocalOk(st.blocks[x], st.clock) && LinksOk(st.blocks, x);
        LinksStay(st.blocks, st'.blocks, x);
        LaterClock(st.blocks[x], st.clock, st'.clock);
      }
    }
  }

  /** `enterNode` of an `else`: the nested block becomes the `else` block of `sub`. */
  lemma EnterElseKeepsOk(st: State, sub: Name)
    requires StateOk(st) && st.current == sub && st.blocks[sub].elseBlock.None? && st.blocks[sub].home.Some?
    requires MkName(sub, ELSE_KEY, st.counter) !in st.blocks
    ensures var eb := MkName(sub, ELSE_KEY, st.counter);
      var open := Opened(st, eb, st.blocks[sub].home, st.blocks[sub].inLoop);
      && StateOk(EnterElse(st, sub))
      && EnterElse(st, sub) == Put(open, sub, open.blocks[sub].(elseBlock := Some(eb)))
  {
    hide LocalOk, LinksOk, RefsOk, LinksKept, MkName, MakeNested;
    var eb := MkName(sub, ELSE_KEY, st.counter);
    MakeNestedOpens(st, ELSE_KEY, st.blocks[sub].home, st.blocks[sub].inLoop);
    var st' := EnterElse(st, sub);
    assert eb != sub;
    ElseKeepsLinks(st, st', sub, eb);
    OpenedIsOk(st'.blocks, eb, st.clock, st.blocks[sub].home, st.blocks[sub].inLoop);
    LocalStays(st.blocks[sub], st'.blocks[sub], st.clock, st'.clock);
    AllElseRefs(st.blocks, st.clock, st'.blocks, sub, eb);
    OldBlocksOk(st, st', sub, eb);
  }

  lemma ElseKeepsLinks(st: State, st': State, sub: Name, eb: Name)
    requires sub in st.blocks && eb !in st.blocks && st.current == sub
    requires var open := Opened(st, eb, st.blocks[sub].home, st.blocks[sub].inLoop);
      st' == Put(open, sub, open.blocks[sub].(elseBlock := Some(eb)))
    ensures LinksKept(st.blocks, st'.blocks)
  {
    hide HasLabel;
    forall n, l | n in st.blocks && HasLabel(st.blocks[n], l) ensures HasLabel(st'.blocks[n], l) {
      KeptLabel(st.blocks[n], st'.blocks[n], l);
    }
  }

  lemma KeptLabel(b: Block, b': Block, l: Name)
    requires HasLabel(b, l) && b'.nodes == b.nodes
    ensures HasLabel(b', l)
  {}

  lemma AllElseRefs(blocks: Blocks, clock: nat, blocks': Blocks, sub: Name, eb: Name)
    requires BlocksOk(blocks, clock) && sub in blocks && blocks[sub].defined && blocks[sub].elseBlock.None?
      && eb !in blocks
    requires blocks'.Keys == blocks.Keys + {eb} && Exists(blocks', eb) && RefsOk(blocks', eb)
    requires forall y :: y in blocks && y != sub ==> blocks'[y] == blocks[y]
    requires blocks'[sub] == blocks[sub].(nested := blocks'[sub].nested, elseBlock := Some(eb))
    requires blocks'[eb].home == blocks[sub].home && blocks'[eb].inLoop == blocks[sub].inLoop
    ensures forall x :: x in blocks' ==> RefsOk(blocks', x)
  {
    hide LocalOk, LinksOk, RefsOk;
    forall x | x in blocks' ensures RefsOk(blocks', x) {
      if x != eb {
        ElseRefs(blocks, blocks', sub, eb, x);
      }
    }
  }

  lemma ElseRefs(blocks: Blocks, blocks': Blocks, sub: Name, eb: Name, x: Name)
    requires x in blocks && RefsOk(blocks, x) && sub in blocks && blocks[sub].defined && blocks[sub].elseBlock.None?
      && eb !in blocks
    requires blocks'.Keys == blocks.Keys + {eb} && Exists(blocks', eb)
    requires forall y :: y in blocks && y != sub ==> blocks'[y] == blocks[y]
    requires blocks'[sub] == blocks[sub].(nested := blocks'[sub].nested, elseBlock := Some(eb))
    requires blocks'[eb].home == blocks[sub].home && blocks'[eb].inLoop == blocks[sub].inLoop
    ensures RefsOk(blocks', x)
  {
    forall n | n in blocks[x].nodes
      ensures RefsOf(blocks, n) <= RefsOf(blocks', n) <= RefsOf(blocks, n) + if IsNested(n) && n.sub == sub then {eb}
        else {} {}
    forall i | 0 <= i < |blocks'[x].nodes| ensures NodeOwns(blocks', blocks'[x].nodes[i], x, i) {
      assert NodeOwns(blocks, blocks[x].nodes[i], x, i);
    }
  }
}
