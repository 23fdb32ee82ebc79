/**
 `rebuild` and `processNode` of `ControlFlowVisitor.php` on values: the exit block first, then the nodes
 with their nested blocks, every block once. The result is annotated code; erasing it gives the nodes
 `rebuild` returns.
 */
module Rebuild {
  import opened Wrappers
  import opened Annotated
  import opened CodeBlocks

  /** The code, the blocks built so far, and the blocks whose closing goto was dropped. */
  datatype Emission = Emission(code: seq<AStmt>, built: set<Name>, joined: set<Name>)

  datatype NodeEmission = NodeEmission(stmt: AStmt, built: set<Name>, joined: set<Name>)

  /** The nested blocks that nodes refer to exist and are no aliases. */
  ghost predicate RefsExist(blocks: map<Name, Block>, ns: seq<Node>) {
    forall n :: n in ns ==> (n.NIf? || n.NLoop?) ==>
      && Exists(blocks, n.sub) && (blocks[n.sub].elseBlock.Some? ==> Exists(blocks, blocks[n.sub].elseBlock.value))
  }

  predicate Exists(blocks: map<Name, Block>, n: Name) {
    n in blocks && blocks[n].defined && blocks[n].aliasOf.None? && blocks[n].home.Some?
  }

  ghost predicate Wired(blocks: map<Name, Block>) {
    forall n :: n in blocks ==>
      && RefsExist(blocks, blocks[n].nodes) && RefsExist(blocks, blocks[n].unreachableNodes)
      && (blocks[n].exit.Some? ==> blocks[n].exit.value.to in blocks && blocks[blocks[n].exit.value.to].aliasOf.None?)
  }

  /** `rebuild($removeLabel)` of block `b`. */
  function RebuildA(blocks: map<Name, Block>, b: Name, removeLabel: Option<Name>, built: set<Name>): (r: Emission)
    requires Wired(blocks) && b in blocks && blocks[b].aliasOf.None? && built <= blocks.Keys
    ensures built <= r.built <= blocks.Keys
    decreases blocks.Keys - built, 0
  {
    var blk := blocks[b];
    if b in built || !blk.defined then Emission([], built, {})
    else
      var built1 := built + {b};
      if blk.exit.None? then NodesA(blocks, blk.nodes, blk, removeLabel, None, built1)
      else
        var exit := blk.exit.value;
        var removeGoto := exit.to !in built1 && blocks[exit.to].defined;
        var removeExitLabel := removeGoto && EnterCount(blocks[exit.to], exit.origName) == 1;
        var tail := RebuildA(blocks, exit.to, if removeExitLabel then Some(exit.origName) else None, built1);
        var nodes := if blocks[exit.to].defined then blk.nodes else blk.nodes + blk.unreachableNodes;
        assert RefsExist(blocks, nodes);
        var own := NodesA(blocks, nodes, blk, removeLabel, if removeGoto then Some(exit.origName) else None,
          tail.built);
        Emission(own.code + tail.code, own.built, own.joined + tail.joined + if removeGoto then {b} else {})
  }

  /** `processNode` and the filter of `rebuild` over the nodes `ns` of `blk`. */
  function NodesA(blocks: map<Name, Block>, ns: seq<Node>, blk: Block, removeLabel: Option<Name>,
      removeGoto: Option<Name>, built: set<Name>)
    : (r: Emission)
    requires Wired(blocks) && RefsExist(blocks, ns) && built <= blocks.Keys
    ensures built <= r.built <= blocks.Keys
    ensures |r.code| == |ns|
    decreases blocks.Keys - built, 2, |ns|
  {
    if ns == [] then Emission([], built, {})
    else
      var first := NodeA(blocks, ns[0], blk, removeLabel, removeGoto, built);
      var rest := NodesA(blocks, ns[1..], blk, removeLabel, removeGoto, first.built);
      Emission([first.stmt] + rest.code, rest.built, first.joined + rest.joined)
  }

  function NodeA(blocks: map<Name, Block>, n: Node, blk: Block, removeLabel: Option<Name>, removeGoto: Option<Name>,
      built: set<Name>)
    : (r: NodeEmission)
    requires Wired(blocks) && RefsExist(blocks, [n]) && built <= blocks.Keys
    ensures built <= r.built <= blocks.Keys
    decreases blocks.Keys - built, 1
  {
    assert n in [n];
    match n
    case NPlain(s) => NodeEmission(APlain(s), built, {})
    case NReturn(e, implied) => NodeEmission(AReturn(e, implied), built, {})
    case NGoto(l) => NodeEmission(AGoto(l, removeGoto != Some(l)), built, {})
    case NLabel(l) => NodeEmission(ALabel(l,
      (l in blk.entersPerName ==> blk.entersPerName[l] != 0) && removeLabel != Some(l)), built, {})
    case NIf(c, sub) =>
      var thn := RebuildA(blocks, sub, None, built);
      if blocks[sub].elseBlock.None? then NodeEmission(AIf(c, thn.code, ANoElse), thn.built, thn.joined)
      else
        var els := RebuildA(blocks, blocks[sub].elseBlock.value, None, thn.built);
        NodeEmission(AIf(c, thn.code, AElse(els.code)), els.built, thn.joined + els.joined)
    case NLoop(kind, c, sub) =>
      var body := RebuildA(blocks, sub, None, built);
      NodeEmission(ALoop(kind, c, body.code), body.built, body.joined)
  }

  // ---- Each nested block is built on behalf of the block that owns it -------------------------

  /** Block `r` belongs to node `at` of block `owner`. */
  predicate OwnedAt(blocks: map<Name, Block>, r: Name, owner: Name, at: nat) {
    r in blocks && blocks[r].defined && blocks[r].aliasOf.None? && blocks[r].home == Some(Home(owner, at))
  }

  ghost predicate NodeOwns(blocks: map<Name, Block>, n: Node, owner: Name, at: nat) {
    (n.NIf? || n.NLoop?) ==>
      && OwnedAt(blocks, n.sub, owner, at)
      && (blocks[n.sub].elseBlock.Some? ==>
        blocks[n.sub].elseBlock.value != n.sub && OwnedAt(blocks, blocks[n.sub].elseBlock.value, owner, at))
  }

  ghost predicate NodesOwn(blocks: map<Name, Block>, b: Name) {
    b in blocks && forall i :: 0 <= i < |blocks[b].nodes| ==> NodeOwns(blocks, blocks[b].nodes[i], b, i)
  }

  /** Block `b` ends in a goto iff it has an exit, and then the goto names it. */
  ghost predicate ExitIsLast(b: Block) {
    && (forall i :: 0 <= i < |b.nodes| && b.nodes[i].NGoto? ==>
      i == |b.nodes| - 1 && b.exit.Some? && b.exit.value.origName == b.nodes[i].target)
    && (b.exit.Some? ==> b.nodes != [] && b.nodes[|b.nodes| - 1].NGoto?)
  }

  /** A return is the last node, too. */
  ghost predicate ReturnIsLast(b: Block) {
    forall i :: 0 <= i < |b.nodes| && b.nodes[i].NReturn? ==> i == |b.nodes| - 1
  }

  /** The blocks node `n` refers to. */
  function RefsOf(blocks: map<Name, Block>, n: Node): set<Name> {
    if (n.NIf? || n.NLoop?) && n.sub in blocks then
      {n.sub} + if blocks[n.sub].elseBlock.Some? then {blocks[n.sub].elseBlock.value} else {}
    else {}
  }

  /** A block inside of a loop has no jumps. */
  ghost predicate QuietItself(b: Block) {
    b.inLoop ==> b.exit.None? && b.aliasOf.None? && forall n :: n in b.nodes ==> !n.NLabel?
  }

  /** What a loop or a block inside of a loop refers to is inside of a loop. */
  ghost predicate QuietRefs(blocks: map<Name, Block>, b: Block) {
    forall n :: n in b.nodes && (n.NLoop? || (n.NIf? && b.inLoop)) ==>
      forall x :: x in RefsOf(blocks, n) && x in blocks ==> blocks[x].inLoop
  }

  ghost predicate WellBuilt(blocks: map<Name, Block>) {
    && Wired(blocks)
    && forall n :: n in blocks && blocks[n].aliasOf.None? ==>
        && NodesOwn(blocks, n) && ExitIsLast(blocks[n]) && ReturnIsLast(blocks[n]) && QuietItself(blocks[n])
        && QuietRefs(blocks, blocks[n])
        && (blocks[n].exit.Some? ==>
          blocks[blocks[n].exit.value.to].defined && blocks[blocks[n].exit.value.to].home.None?)
  }

  /** Blocks are built after the blocks that own them. */
  ghost predicate OwnersBuilt(blocks: map<Name, Block>, built: set<Name>) {
    forall r :: r in built && r in blocks && blocks[r].home.Some? ==> blocks[r].home.value.owner in built
  }

  /** From `built` to `built'` only `starts` and blocks owned by newly built blocks were built. */
  ghost predicate NewlyOwned(blocks: map<Name, Block>, built: set<Name>, built': set<Name>, starts: set<Name>) {
    forall r :: r in built' && r !in built && r !in starts && r in blocks && blocks[r].home.Some? ==>
      blocks[r].home.value.owner in built' && blocks[r].home.value.owner !in built
  }

  /** The nodes from `i` on refer to existing blocks, and processing them starts with node `i`. */
  lemma NodesAFrom(blocks: map<Name, Block>, b: Name, i: nat, removeLabel: Option<Name>, removeGoto: Option<Name>,
      built: set<Name>, tail: seq<AStmt>)
    requires Wired(blocks) && b in blocks && i <= |blocks[b].nodes| && built <= blocks.Keys
    ensures RefsExist(blocks, blocks[b].nodes[i..])
    ensures i == |blocks[b].nodes| ==>
      NodesA(blocks, blocks[b].nodes[i..], blocks[b], removeLabel, removeGoto, built).code + tail == tail
    ensures i < |blocks[b].nodes| ==>
      && RefsExist(blocks, [blocks[b].nodes[i]]) && RefsExist(blocks, blocks[b].nodes[i + 1..])
      && var first := NodeA(blocks, blocks[b].nodes[i], blocks[b], removeLabel, removeGoto, built);
         NodesA(blocks, blocks[b].nodes[i..], blocks[b], removeLabel, removeGoto, built).code + tail
         == [first.stmt] + (NodesA(blocks, blocks[b].nodes[i + 1..], blocks[b], removeLabel, removeGoto,
           first.built).code + tail)
  {
    var ns := blocks[b].nodes[i..];
    assert forall n :: n in ns ==> n in blocks[b].nodes;
    if i < |blocks[b].nodes| {
      assert ns[0] == blocks[b].nodes[i] && ns[1..] == blocks[b].nodes[i + 1..];
      assert forall n :: n in ns[1..] ==> n in ns;
    }
  }

  lemma OwnNode(blocks: map<Name, Block>, b: Name, i: nat)
    requires WellBuilt(blocks) && b in blocks && blocks[b].aliasOf.None? && i < |blocks[b].nodes|
    ensures RefsExist(blocks, [blocks[b].nodes[i]]) && NodeOwns(blocks, blocks[b].nodes[i], b, i)
  {
    assert blocks[b].nodes[i] in blocks[b].nodes;
  }

  lemma {:induction false} RebuildOwns(blocks: map<Name, Block>, b: Name, removeLabel: Option<Name>, built: set<Name>)
    requires WellBuilt(blocks) && b in blocks && blocks[b].aliasOf.None? && built <= blocks.Keys
    ensures NewlyOwned(blocks, built, RebuildA(blocks, b, removeLabel, built).built, {b})
    decreases blocks.Keys - built, 0
  {
    var blk := blocks[b];
    if b !in built && blk.defined {
      var built1 := built + {b};
      if blk.exit.None? {
        NodesOwnNew(blocks, b, 0, removeLabel, None, built1);
        assert blk.nodes[0..] == blk.nodes;
      } else {
        var exit := blk.exit.value;
        var removeGoto := exit.to !in built1 && blocks[exit.to].defined;
        var removeExitLabel := removeGoto && EnterCount(blocks[exit.to], exit.origName) == 1;
        var rl := if removeExitLabel then Some(exit.origName) else None;
        RebuildOwns(blocks, exit.to, rl, built1);
        var tail := RebuildA(blocks, exit.to, rl, built1);
        NodesOwnNew(blocks, b, 0, removeLabel, if removeGoto then Some(exit.origName) else None, tail.built);
        assert blk.nodes[0..] == blk.nodes;
      }
    }
  }

  lemma {:induction false} NodesOwnNew(blocks: map<Name, Block>, b: Name, i: nat, removeLabel: Option<Name>,
      removeGoto: Option<Name>, built: set<Name>)
    requires WellBuilt(blocks) && Wired(blocks) && b in blocks && blocks[b].aliasOf.None? && built <= blocks.Keys
      && b in built
    requires i <= |blocks[b].nodes|
    ensures RefsExist(blocks, blocks[b].nodes[i..])
    ensures var r := NodesA(blocks, blocks[b].nodes[i..], blocks[b], removeLabel, removeGoto, built);
      forall x :: x in r.built && x !in built && x in blocks && blocks[x].home.Some? ==>
        var o := blocks[x].home.value.owner; (o in r.built && o !in built) || (o == b && blocks[x].home.value.at >= i)
    decreases blocks.Keys - built, 2, |blocks[b].nodes| - i
  {
    hide Wired, RefsExist, NodeA, NodeOwns;
    NodesAFrom(blocks, b, i, removeLabel, removeGoto, built, []);
    var ns := blocks[b].nodes[i..];
    if i < |blocks[b].nodes| {
      assert ns[0] == blocks[b].nodes[i] && ns[1..] == blocks[b].nodes[i + 1..];
      OwnNode(blocks, b, i);
      var first := NodeA(blocks, ns[0], blocks[b], removeLabel, removeGoto, built);
      NodeOwnsNew(blocks, ns[0], b, i, removeLabel, removeGoto, built);
      RefsAreAt(blocks, ns[0], b, i);
      NodesOwnNew(blocks, b, i + 1, removeLabel, removeGoto, first.built);
    }
  }

  lemma RefsAreAt(blocks: map<Name, Block>, n: Node, b: Name, i: nat)
    requires NodeOwns(blocks, n, b, i)
    ensures forall x :: x in RefsOf(blocks, n) && x in blocks ==> blocks[x].home == Some(Home(b, i))
  {}

  lemma {:induction false} NodeOwnsNew(blocks: map<Name, Block>, n: Node, b: Name, i: nat, removeLabel: Option<Name>,
      removeGoto: Option<Name>, built: set<Name>)
    requires WellBuilt(blocks) && b in blocks && built <= blocks.Keys && RefsExist(blocks, [n])
      && NodeOwns(blocks, n, b, i)
    ensures NewlyOwned(blocks, built, NodeA(blocks, n, blocks[b], removeLabel, removeGoto, built).built,
      RefsOf(blocks, n))
    decreases blocks.Keys - built, 1
  {
    assert n in [n];
    if n.NIf? || n.NLoop? {
      RebuildOwns(blocks, n.sub, None, built);
      var thn := RebuildA(blocks, n.sub, None, built);
      if n.NIf? && blocks[n.sub].elseBlock.Some? {
        RebuildOwns(blocks, blocks[n.sub].elseBlock.value, None, thn.built);
      }
    }
  }
}
