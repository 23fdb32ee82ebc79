/**
 Rebuilding conserves code: what is emitted is the nodes of the blocks that are reachable from the root, each
 once, and a label that a goto still needs is there once.
 */
module Conservation {
  import opened Wrappers
  import opened PhpCode
  import opened Annotated
  import opened CodeBlocks
  import opened Rebuild
  import opened BlockCode
  import opened Accounting
  import opened TopVisits
  import opened GotoElimination

  /** A statement without what is inside of it. */
  datatype Item =
    | IPlain(s: Simple)
    | IReturn(result: Option<Expr>, implied: bool)
    | IGoto(target: Name)
    | ILabel(name: Name)
    | IIf(cond: Expr)
    | ILoop(kind: LoopKind, cond: Expr)

  function NodeItem(n: Node): Item {
    match n
    case NPlain(s) => IPlain(s)
    case NReturn(e, implied) => IReturn(e, implied)
    case NGoto(l) => IGoto(l)
    case NLabel(l) => ILabel(l)
    case NIf(c, _) => IIf(c)
    case NLoop(kind, c, _) => ILoop(kind, c)
  }

  function NodeItems(ns: seq<Node>): multiset<Item> {
    if ns == [] then multiset{} else multiset{NodeItem(ns[0])} + NodeItems(ns[1..])
  }

  /** The statements of annotated code at any depth, dropped gotos and labels included. */
  function Items(ka: seq<AStmt>): multiset<Item>
    decreases ka
  {
    if ka == [] then multiset{} else StmtItems(ka[0]) + Items(ka[1..])
  }

  function StmtItems(a: AStmt): multiset<Item>
    decreases a
  {
    match a
    case APlain(s) => multiset{IPlain(s)}
    case AReturn(e, implied) => multiset{IReturn(e, implied)}
    case AGoto(l, _) => multiset{IGoto(l)}
    case ALabel(l, _) => multiset{ILabel(l)}
    case AIf(c, thn, els) => multiset{IIf(c)} + Items(thn) + if els.AElse? then Items(els.stmts) else multiset{}
    case ALoop(kind, c, body) => multiset{ILoop(kind, c)} + Items(body)
  }

  lemma {:induction false} ItemsAppend(a: seq<AStmt>, b: seq<AStmt>)
    ensures Items(a + b) == Items(a) + Items(b)
    decreases |a|
  {
    if a == [] {
      assert a + b == b;
    } else {
      assert (a + b)[0] == a[0] && (a + b)[1..] == a[1..] + b;
      ItemsAppend(a[1..], b);
    }
  }

  // ---- The code of a set of blocks -------------------------------------------------------------------

  ghost function ItemsOf(blocks: Blocks, ns: set<Name>): multiset<Item>
    requires ns <= blocks.Keys
    decreases |ns|
  {
    if ns == {} then multiset{}
    else
      var n :| n in ns;
      NodeItems(blocks[n].nodes) + ItemsOf(blocks, ns - {n})
  }

  /** It does not matter which block is counted first. */
  lemma {:induction false} ItemsOfTake(blocks: Blocks, ns: set<Name>, n: Name)
    requires ns <= blocks.Keys && n in ns
    ensures ItemsOf(blocks, ns) == NodeItems(blocks[n].nodes) + ItemsOf(blocks, ns - {n})
    decreases |ns|
  {
    var m :| m in ns && ItemsOf(blocks, ns) == NodeItems(blocks[m].nodes) + ItemsOf(blocks, ns - {m});
    if m != n {
      ItemsOfTake(blocks, ns - {m}, n);
      ItemsOfTake(blocks, ns - {n}, m);
      assert ns - {m} - {n} == ns - {n} - {m};
    }
  }

  lemma {:induction false} ItemsOfUnion(blocks: Blocks, a: set<Name>, b: set<Name>)
    requires a <= blocks.Keys && b <= blocks.Keys && a !! b
    ensures ItemsOf(blocks, a + b) == ItemsOf(blocks, a) + ItemsOf(blocks, b)
    decreases |a|
  {
    hide ItemsOf, NodeItems;
    NoItems(blocks);
    if a == {} {
      assert a + b == b;
    } else {
      var n :| n in a;
      ItemsOfTake(blocks, a, n);
      ItemsOfTake(blocks, a + b, n);
      TakeFromUnion(a, b, n);
      ItemsOfUnion(blocks, a - {n}, b);
    }
  }

  lemma TakeFromUnion(a: set<Name>, b: set<Name>, n: Name)
    requires n in a && a !! b
    ensures a + b - {n} == (a - {n}) + b && (a - {n}) !! b && |a - {n}| < |a|
  {}

  /** Blocks built in two stretches. */
  lemma ItemsOfStretches(blocks: Blocks, b0: set<Name>, b1: set<Name>, b2: set<Name>)
    requires b0 <= b1 <= b2 <= blocks.Keys
    ensures ItemsOf(blocks, b2 - b0) == ItemsOf(blocks, b1 - b0) + ItemsOf(blocks, b2 - b1)
  {
    assert b2 - b0 == (b1 - b0) + (b2 - b1);
    ItemsOfUnion(blocks, b1 - b0, b2 - b1);
  }

  lemma ItemsOfOne(blocks: Blocks, n: Name)
    requires n in blocks
    ensures ItemsOf(blocks, {n}) == NodeItems(blocks[n].nodes)
  {
    ItemsOfTake(blocks, {n}, n);
    assert {n} - {n} == {};
  }

  // ---- Each node of each built block is emitted once ---------------------------------------------------

  lemma {:induction false} RebuildConserves(blocks: Blocks, b: Name, removeLabel: Option<Name>, built: set<Name>)
    requires WellBuilt(blocks) && Wired(blocks) && b in blocks && blocks[b].aliasOf.None? && built <= blocks.Keys
    ensures var r := RebuildA(blocks, b, removeLabel, built); Items(r.code) == ItemsOf(blocks, r.built - built)
    decreases blocks.Keys - built, 0
  {
    hide Wired, NodesA, ItemsOf, WellBuilt, NodeItems, StmtItems, RefsExist, EnterCount;
    var blk := blocks[b];
    if b in built || !blk.defined {
      assert built - built == {};
      NoItems(blocks);
    } else {
      var built1 := built + {b};
      assert built1 - built == {b};
      ItemsOfOne(blocks, b);
      assert blk.nodes[0..] == blk.nodes;
      if blk.exit.None? {
        NodesAFrom(blocks, b, 0, removeLabel, None, built1, []);
        NodesConserve(blocks, b, 0, removeLabel, None, built1);
        ItemsOfStretches(blocks, built, built1, NodesA(blocks, blk.nodes, blk, removeLabel, None, built1).built);
      } else {
        ExitExists(blocks, b);
        var exit := blk.exit.value;
        var removeGoto := exit.to !in built1;
        var removeExitLabel := removeGoto && EnterCount(blocks[exit.to], exit.origName) == 1;
        var rl := if removeExitLabel then Some(exit.origName) else None;
        var rg := if removeGoto then Some(exit.origName) else None;
        RebuildConserves(blocks, exit.to, rl, built1);
        var tail := RebuildA(blocks, exit.to, rl, built1);
        NodesAFrom(blocks, b, 0, removeLabel, rg, tail.built, []);
        NodesConserve(blocks, b, 0, removeLabel, rg, tail.built);
        var own := NodesA(blocks, blk.nodes, blk, removeLabel, rg, tail.built);
        ItemsOfStretches(blocks, built, built1, tail.built);
        ItemsOfStretches(blocks, built, tail.built, own.built);
        ItemsAppend(own.code, tail.code);
      }
    }
  }

  lemma NoItems(blocks: Blocks)
    ensures ItemsOf(blocks, {}) == multiset{}
  {}

  lemma {:induction false} NodesConserve(blocks: Blocks, b: Name, i: nat, removeLabel: Option<Name>,
      removeGoto: Option<Name>, built: set<Name>)
    requires WellBuilt(blocks) && Wired(blocks) && b in blocks && blocks[b].aliasOf.None? && built <= blocks.Keys
      && i <= |blocks[b].nodes|
    ensures RefsExist(blocks, blocks[b].nodes[i..])
    ensures var r := NodesA(blocks, blocks[b].nodes[i..], blocks[b], removeLabel, removeGoto, built);
      Items(r.code) == NodeItems(blocks[b].nodes[i..]) + ItemsOf(blocks, r.built - built)
    decreases blocks.Keys - built, 2, |blocks[b].nodes| - i
  {
    hide Wired, NodeA, NodesA, ItemsOf, NodeItems, Items, RefsExist, WellBuilt;
    NodesAFrom(blocks, b, i, removeLabel, removeGoto, built, []);
    NodesUnfold(blocks, b, i, removeLabel, removeGoto, built);
    if i < |blocks[b].nodes| {
      var n := blocks[b].nodes[i];
      var first := NodeA(blocks, n, blocks[b], removeLabel, removeGoto, built);
      NodeConserves(blocks, n, blocks[b], removeLabel, removeGoto, built);
      NodesConserve(blocks, b, i + 1, removeLabel, removeGoto, first.built);
      ItemsOfStretches(blocks, built, first.built,
        NodesA(blocks, blocks[b].nodes[i + 1..], blocks[b], removeLabel, removeGoto, first.built).built);
    } else {
      assert built - built == {};
      NoItems(blocks);
    }
  }

  /** The first of the remaining nodes, and the others. */
  lemma NodesUnfold(blocks: Blocks, b: Name, i: nat, removeLabel: Option<Name>, removeGoto: Option<Name>,
      built: set<Name>)
    requires Wired(blocks) && b in blocks && built <= blocks.Keys && i <= |blocks[b].nodes|
      && RefsExist(blocks, blocks[b].nodes[i..])
    requires i < |blocks[b].nodes| ==>
      RefsExist(blocks, [blocks[b].nodes[i]]) && RefsExist(blocks, blocks[b].nodes[i + 1..])
    ensures var ns := blocks[b].nodes[i..];
      var r := NodesA(blocks, ns, blocks[b], removeLabel, removeGoto, built);
      && (i == |blocks[b].nodes| ==> Items(r.code) == multiset{} && NodeItems(ns) == multiset{} && r.built == built)
      && (i < |blocks[b].nodes| ==>
           var first := NodeA(blocks, blocks[b].nodes[i], blocks[b], removeLabel, removeGoto, built);
           var rest := NodesA(blocks, blocks[b].nodes[i + 1..], blocks[b], removeLabel, removeGoto, first.built);
           && Items(r.code) == StmtItems(first.stmt) + Items(rest.code) && r.built == rest.built
           && NodeItems(ns) == multiset{NodeItem(blocks[b].nodes[i])} + NodeItems(blocks[b].nodes[i + 1..]))
  {
    hide Wired, NodeA, RefsExist, StmtItems;
    var ns := blocks[b].nodes[i..];
    if i < |blocks[b].nodes| {
      assert ns[0] == blocks[b].nodes[i] && ns[1..] == blocks[b].nodes[i + 1..];
      var first := NodeA(blocks, ns[0], blocks[b], removeLabel, removeGoto, built);
      var rest := NodesA(blocks, ns[1..], blocks[b], removeLabel, removeGoto, first.built);
      assert ([first.stmt] + rest.code)[1..] == rest.code;
    }
  }

  lemma {:induction false} NodeConserves(blocks: Blocks, n: Node, b: Block, removeLabel: Option<Name>,
      removeGoto: Option<Name>, built: set<Name>)
    requires WellBuilt(blocks) && Wired(blocks) && RefsExist(blocks, [n]) && built <= blocks.Keys
    ensures var r := NodeA(blocks, n, b, removeLabel, removeGoto, built);
      StmtItems(r.stmt) == multiset{NodeItem(n)} + ItemsOf(blocks, r.built - built)
    decreases blocks.Keys - built, 1
  {
    hide Wired, RebuildA, ItemsOf, Items, WellBuilt, StmtItems;
    assert n in [n];
    if n.NIf? || n.NLoop? {
      RebuildConserves(blocks, n.sub, None, built);
      var thn := RebuildA(blocks, n.sub, None, built);
      BodyItems(n, thn.code);
      if n.NIf? && blocks[n.sub].elseBlock.Some? {
        var eb := blocks[n.sub].elseBlock.value;
        RebuildConserves(blocks, eb, None, thn.built);
        var els := RebuildA(blocks, eb, None, thn.built);
        ItemsOfStretches(blocks, built, thn.built, els.built);
        ElseItems(n.cond, thn.code, els.code);
      }
    } else {
      assert built - built == {};
      NoItems(blocks);
      LeafItems(n);
    }
  }

  lemma BodyItems(n: Node, body: seq<AStmt>)
    ensures n.NIf? ==> StmtItems(AIf(n.cond, body, ANoElse)) == multiset{NodeItem(n)} + Items(body)
    ensures n.NLoop? ==> StmtItems(ALoop(n.kind, n.cond, body)) == multiset{NodeItem(n)} + Items(body)
  {
    hide Items;
    NothingElse(multiset{NodeItem(n)} + Items(body));
  }

  lemma ElseItems(c: Expr, thn: seq<AStmt>, els: seq<AStmt>)
    ensures StmtItems(AIf(c, thn, AElse(els))) == multiset{IIf(c)} + (Items(thn) + Items(els))
  {
    hide Items;
  }

  lemma LeafItems(n: Node)
    requires !n.NIf? && !n.NLoop?
    ensures n.NPlain? ==> StmtItems(APlain(n.s)) == multiset{NodeItem(n)} + multiset{}
    ensures n.NReturn? ==> StmtItems(AReturn(n.result, n.implied)) == multiset{NodeItem(n)} + multiset{}
    ensures forall kept :: (n.NGoto? ==> StmtItems(AGoto(n.target, kept)) == multiset{NodeItem(n)} + multiset{})
    ensures forall kept :: (n.NLabel? ==> StmtItems(ALabel(n.name, kept)) == multiset{NodeItem(n)} + multiset{})
  {}

  // ---- The built blocks are the reachable ones ----------------------------------------------------------

  /** The blocks that are built for a node. */
  function BuiltWith(blocks: Blocks, n: Node): set<Name> {
    if n.NLoop? then {n.sub} else RefsOf(blocks, n)
  }

  /** The blocks a block leads to: its exit and the blocks its nodes refer to. */
  function Successors(blocks: Blocks, n: Name): set<Name>
    requires n in blocks
  {
    (if blocks[n].exit.Some? then {blocks[n].exit.value.to} else {}) + set x, y | x in blocks[n].nodes
      && y in BuiltWith(blocks, x) :: y
  }

  /** A set of blocks that leads nowhere else. */
  ghost predicate IsClosedSet(blocks: Blocks, ns: set<Name>) {
    forall n :: n in ns && n in blocks ==> Successors(blocks, n) <= ns
  }

  /** The newly built blocks lead to built blocks only. */
  ghost predicate NewLeadsInto(blocks: Blocks, built: set<Name>, built': set<Name>) {
    forall n :: n in built' && n !in built && n in blocks ==> Successors(blocks, n) <= built'
  }

  lemma NewLeadsAdd(blocks: Blocks, b0: set<Name>, b1: set<Name>, b2: set<Name>)
    requires b0 <= b1 <= b2 && NewLeadsInto(blocks, b0, b1) && NewLeadsInto(blocks, b1, b2)
    ensures NewLeadsInto(blocks, b0, b2)
  {}

  /** What nodes refer to is built. */
  ghost predicate RefsBuilt(blocks: Blocks, ns: seq<Node>, built: set<Name>) {
    forall x :: x in ns ==> BuiltWith(blocks, x) <= built
  }

  lemma BlockCloses(blocks: Blocks, b: Name, built: set<Name>, built': set<Name>)
    requires b in blocks && b in built' && NewLeadsInto(blocks, built + {b}, built')
      && RefsBuilt(blocks, blocks[b].nodes, built')
    requires blocks[b].exit.Some? ==> blocks[b].exit.value.to in built'
    ensures NewLeadsInto(blocks, built, built')
  {
    assert Successors(blocks, b) <= built';
  }

  lemma {:induction false} RebuildCloses(blocks: Blocks, b: Name, removeLabel: Option<Name>, built: set<Name>)
    requires WellBuilt(blocks) && Wired(blocks) && b in blocks && blocks[b].aliasOf.None? && blocks[b].defined
      && built <= blocks.Keys
    ensures var r := RebuildA(blocks, b, removeLabel, built); b in r.built && NewLeadsInto(blocks, built, r.built)
    decreases blocks.Keys - built, 0
  {
    hide Wired, NodesA, WellBuilt, NewLeadsInto, RefsBuilt;
    var blk := blocks[b];
    NothingNew(blocks, built);
    if b !in built {
      var built1 := built + {b};
      assert blk.nodes[0..] == blk.nodes;
      if blk.exit.None? {
        NodesAFrom(blocks, b, 0, removeLabel, None, built1, []);
        NodesClose(blocks, b, 0, removeLabel, None, built1);
      } else {
        ExitExists(blocks, b);
        var exit := blk.exit.value;
        var removeGoto := exit.to !in built1;
        var removeExitLabel := removeGoto && EnterCount(blocks[exit.to], exit.origName) == 1;
        var rl := if removeExitLabel then Some(exit.origName) else None;
        var rg := if removeGoto then Some(exit.origName) else None;
        RebuildCloses(blocks, exit.to, rl, built1);
        var tail := RebuildA(blocks, exit.to, rl, built1);
        NodesAFrom(blocks, b, 0, removeLabel, rg, tail.built, []);
        NodesClose(blocks, b, 0, removeLabel, rg, tail.built);
        NewLeadsAdd(blocks, built1, tail.built, NodesA(blocks, blk.nodes, blk, removeLabel, rg, tail.built).built);
      }
      BlockCloses(blocks, b, built, RebuildA(blocks, b, removeLabel, built).built);
    }
  }

  lemma NothingNew(blocks: Blocks, built: set<Name>)
    ensures NewLeadsInto(blocks, built, built)
  {}

  lemma {:induction false} NodesClose(blocks: Blocks, b: Name, i: nat, removeLabel: Option<Name>,
      removeGoto: Option<Name>, built: set<Name>)
    requires WellBuilt(blocks) && Wired(blocks) && b in blocks && blocks[b].aliasOf.None? && built <= blocks.Keys
      && i <= |blocks[b].nodes|
    ensures RefsExist(blocks, blocks[b].nodes[i..])
    ensures var r := NodesA(blocks, blocks[b].nodes[i..], blocks[b], removeLabel, removeGoto, built);
      NewLeadsInto(blocks, built, r.built) && RefsBuilt(blocks, blocks[b].nodes[i..], r.built)
    decreases blocks.Keys - built, 2, |blocks[b].nodes| - i
  {
    hide Wired, NodeA, RefsExist, WellBuilt;
    NodesAFrom(blocks, b, i, removeLabel, removeGoto, built, []);
    var ns := blocks[b].nodes[i..];
    if i < |blocks[b].nodes| {
      assert ns[0] == blocks[b].nodes[i] && ns[1..] == blocks[b].nodes[i + 1..];
      var first := NodeA(blocks, ns[0], blocks[b], removeLabel, removeGoto, built);
      NodeCloses(blocks, ns[0], blocks[b], removeLabel, removeGoto, built);
      NodesClose(blocks, b, i + 1, removeLabel, removeGoto, first.built);
      NewLeadsAdd(blocks, built, first.built,
        NodesA(blocks, ns[1..], blocks[b], removeLabel, removeGoto, first.built).built);
    }
  }

  lemma {:induction false} NodeCloses(blocks: Blocks, n: Node, b: Block, removeLabel: Option<Name>,
      removeGoto: Option<Name>, built: set<Name>)
    requires WellBuilt(blocks) && Wired(blocks) && RefsExist(blocks, [n]) && built <= blocks.Keys
    ensures var r := NodeA(blocks, n, b, removeLabel, removeGoto, built);
      NewLeadsInto(blocks, built, r.built) && BuiltWith(blocks, n) <= r.built
    decreases blocks.Keys - built, 1
  {
    hide Wired, RebuildA, WellBuilt;
    assert n in [n];
    if n.NIf? || n.NLoop? {
      RebuildCloses(blocks, n.sub, None, built);
      var thn := RebuildA(blocks, n.sub, None, built);
      if n.NIf? && blocks[n.sub].elseBlock.Some? {
        var eb := blocks[n.sub].elseBlock.value;
        RebuildCloses(blocks, eb, None, thn.built);
        NewLeadsAdd(blocks, built, thn.built, RebuildA(blocks, eb, None, thn.built).built);
      }
    }
  }

  /** Nothing is built but what the start leads to. */
  lemma {:induction false} RebuildStays(blocks: Blocks, b: Name, removeLabel: Option<Name>, built: set<Name>,
      all: set<Name>)
    requires WellBuilt(blocks) && Wired(blocks) && b in blocks && blocks[b].aliasOf.None? && built <= blocks.Keys
    requires b in all && IsClosedSet(blocks, all)
    ensures RebuildA(blocks, b, removeLabel, built).built - built <= all
    decreases blocks.Keys - built, 0
  {
    hide Wired, NodesA, WellBuilt;
    var blk := blocks[b];
    if b !in built && blk.defined {
      var built1 := built + {b};
      assert blk.nodes[0..] == blk.nodes && Successors(blocks, b) <= all;
      if blk.exit.None? {
        NodesAFrom(blocks, b, 0, removeLabel, None, built1, []);
        NodesStay(blocks, b, 0, removeLabel, None, built1, all);
      } else {
        ExitExists(blocks, b);
        var exit := blk.exit.value;
        var removeGoto := exit.to !in built1;
        var removeExitLabel := removeGoto && EnterCount(blocks[exit.to], exit.origName) == 1;
        var rl := if removeExitLabel then Some(exit.origName) else None;
        var rg := if removeGoto then Some(exit.origName) else None;
        RebuildStays(blocks, exit.to, rl, built1, all);
        var tail := RebuildA(blocks, exit.to, rl, built1);
        NodesAFrom(blocks, b, 0, removeLabel, rg, tail.built, []);
        NodesStay(blocks, b, 0, removeLabel, rg, tail.built, all);
      }
    }
  }

  lemma {:induction false} NodesStay(blocks: Blocks, b: Name, i: nat, removeLabel: Option<Name>,
      removeGoto: Option<Name>, built: set<Name>, all: set<Name>)
    requires WellBuilt(blocks) && Wired(blocks) && b in blocks && blocks[b].aliasOf.None? && built <= blocks.Keys
      && i <= |blocks[b].nodes|
    requires b in all && IsClosedSet(blocks, all)
    ensures RefsExist(blocks, blocks[b].nodes[i..])
    ensures NodesA(blocks, blocks[b].nodes[i..], blocks[b], removeLabel, removeGoto, built).built - built <= all
    decreases blocks.Keys - built, 2, |blocks[b].nodes| - i
  {
    hide Wired, NodeA, RefsExist, WellBuilt;
    NodesAFrom(blocks, b, i, removeLabel, removeGoto, built, []);
    var ns := blocks[b].nodes[i..];
    if i < |blocks[b].nodes| {
      assert ns[0] == blocks[b].nodes[i] && ns[1..] == blocks[b].nodes[i + 1..];
      assert ns[0] in blocks[b].nodes && BuiltWith(blocks, ns[0]) <= Successors(blocks, b) <= all;
      NodeStays(blocks, ns[0], blocks[b], removeLabel, removeGoto, built, all);
      NodesStay(blocks, b, i + 1, removeLabel, removeGoto,
        NodeA(blocks, ns[0], blocks[b], removeLabel, removeGoto, built).built, all);
    }
  }

  lemma {:induction false} NodeStays(blocks: Blocks, n: Node, b: Block, removeLabel: Option<Name>,
      removeGoto: Option<Name>, built: set<Name>, all: set<Name>)
    requires WellBuilt(blocks) && Wired(blocks) && RefsExist(blocks, [n]) && built <= blocks.Keys
    requires BuiltWith(blocks, n) <= all && IsClosedSet(blocks, all)
    ensures NodeA(blocks, n, b, removeLabel, removeGoto, built).built - built <= all
    decreases blocks.Keys - built, 1
  {
    hide Wired, RebuildA, WellBuilt, IsClosedSet;
    assert n in [n];
    if n.NIf? || n.NLoop? {
      RebuildStays(blocks, n.sub, None, built, all);
      if n.NIf? && blocks[n.sub].elseBlock.Some? {
        RebuildStays(blocks, blocks[n.sub].elseBlock.value, None, RebuildA(blocks, n.sub, None, built).built, all);
      }
    }
  }

  /** `ns` is the set of the blocks that can be reached from `root`. */
  ghost predicate IsReachable(blocks: Blocks, root: Name, ns: set<Name>) {
    root in ns && IsClosedSet(blocks, ns) && forall all: set<Name> :: root in all && IsClosedSet(blocks, all) ==>
      ns <= all
  }

  /** The code that is emitted is the code of the blocks reachable from the root, each node once. */
  lemma RebuildConservesReachable(blocks: Blocks, root: Name)
    requires WellBuilt(blocks) && Wired(blocks) && root in blocks && blocks[root].aliasOf.None? && blocks[root].defined
    ensures var r := RebuildA(blocks, root, None, {});
      && IsReachable(blocks, root, r.built)
      && Items(r.code) == ItemsOf(blocks, r.built)
  {
    hide Wired, RebuildA, WellBuilt, Successors, ItemsOf, Items;
    var r := RebuildA(blocks, root, None, {});
    RebuildConserves(blocks, root, None, {});
    RebuildCloses(blocks, root, None, {});
    assert r.built - {} == r.built;
    forall all: set<Name> | root in all && IsClosedSet(blocks, all) ensures r.built <= all {
      RebuildStays(blocks, root, None, {}, all);
    }
  }

  // ---- A goto that is left has its label once ---------------------------------------------------------------

  /** The statements of code at any depth. */
  function CodeItems(ss: seq<Stmt>): multiset<Item>
    decreases ss
  {
    if ss == [] then multiset{} else OneItems(ss[0]) + CodeItems(ss[1..])
  }

  function OneItems(s: Stmt): multiset<Item>
    decreases s
  {
    match s
    case Plain(x) => multiset{IPlain(x)}
    case Return(e, implied) => multiset{IReturn(e, implied)}
    case Goto(l) => multiset{IGoto(l)}
    case Label(l) => multiset{ILabel(l)}
    case If(c, thn, els) => multiset{IIf(c)} + CodeItems(thn) + if els.Else? then CodeItems(els.stmts) else multiset{}
    case Loop(kind, c, body) => multiset{ILoop(kind, c)} + CodeItems(body)
  }

  lemma {:induction false} CodeItemsConcat(a: seq<Stmt>, b: seq<Stmt>)
    ensures CodeItems(a + b) == CodeItems(a) + CodeItems(b)
    decreases |a|
  {
    if a == [] {
      assert a + b == b;
    } else {
      assert (a + b)[0] == a[0] && (a + b)[1..] == a[1..] + b;
      CodeItemsConcat(a[1..], b);
    }
  }

  lemma CodeItemsOfOne(s: Stmt)
    ensures CodeItems([s]) == OneItems(s)
  {
    assert [s][1..] == [];
  }

  /**
   What erasing does to the counts: statements that are no jumps stay, labels stay unless they are dropped
   somewhere, and the gotos to a label are not all dropped iff one is kept.
   */
  ghost predicate Fits(out: multiset<Item>, all: multiset<Item>, dropped: set<Name>, kept: set<Name>) {
    forall i: Item ::
      && out[i] <= all[i]
      && (!i.IGoto? && !i.ILabel? ==> out[i] == all[i])
      && (i.ILabel? && i.name !in dropped ==> out[i] == all[i])
      && (i.IGoto? ==> (out[i] > 0 <==> i.target in kept))
  }

  lemma FitsAdd(o1: multiset<Item>, a1: multiset<Item>, d1: set<Name>, k1: set<Name>,
                o2: multiset<Item>, a2: multiset<Item>, d2: set<Name>, k2: set<Name>)
    requires Fits(o1, a1, d1, k1) && Fits(o2, a2, d2, k2)
    ensures Fits(o1 + o2, a1 + a2, d1 + d2, k1 + k2)
  {}

  lemma {:induction false} ErasedFits(ka: seq<AStmt>)
    ensures Fits(CodeItems(Erase(ka)), Items(ka), Dropped(ka), KeptGotos(ka))
    decreases ka
  {
    hide Fits, EraseStmt, StmtItems, OneItems, DroppedIn, KeptGotosIn;
    if ka == [] {
      NothingFits();
    } else {
      var one, more := EraseStmt(ka[0]), ka[1..];
      ErasedStmtFits(ka[0]);
      ErasedFits(more);
      CodeItemsConcat(one, Erase(more));
      FitsAdd(CodeItems(one), StmtItems(ka[0]), DroppedIn(ka[0]), KeptGotosIn(ka[0]),
              CodeItems(Erase(more)), Items(more), Dropped(more), KeptGotos(more));
    }
  }

  lemma NothingFits()
    ensures Fits(multiset{}, multiset{}, {}, {}) && CodeItems([]) == multiset{}
  {}

  lemma {:induction false} ErasedStmtFits(a: AStmt)
    ensures Fits(CodeItems(EraseStmt(a)), StmtItems(a), DroppedIn(a), KeptGotosIn(a))
    decreases a
  {
    hide Fits, Items, CodeItems, Dropped, KeptGotos, Erase;
    match a
    case AIf(c, thn, els) =>
      NothingFits();
      ErasedFits(thn);
      OneFits(IIf(c));
      FitsAdd(multiset{IIf(c)}, multiset{IIf(c)}, {}, {}, CodeItems(Erase(thn)), Items(thn), Dropped(thn),
        KeptGotos(thn));
      IfFits(c, thn, els);
    case ALoop(kind, c, body) =>
      ErasedFits(body);
      OneFits(ILoop(kind, c));
      CodeItemsOfOne(Loop(kind, c, Erase(body)));
      FitsAdd(multiset{ILoop(kind, c)}, multiset{ILoop(kind, c)}, {}, {},
              CodeItems(Erase(body)), Items(body), Dropped(body), KeptGotos(body));
      assert {} + Dropped(body) == Dropped(body) && {} + KeptGotos(body) == KeptGotos(body);
    case _ => LeafFits(a);
  }

  lemma OneFits(i: Item)
    requires !i.IGoto? && !i.ILabel?
    ensures Fits(multiset{i}, multiset{i}, {}, {})
  {}

  lemma JumpFits(i: Item, kept: bool)
    requires i.IGoto? || i.ILabel?
    ensures Fits(if kept then multiset{i} else multiset{}, multiset{i},
                 if i.ILabel? && !kept then {i.name} else {}, if i.IGoto? && kept then {i.target} else {})
  {}

  lemma LeafFits(a: AStmt)
    requires !a.AIf? && !a.ALoop?
    ensures Fits(CodeItems(EraseStmt(a)), StmtItems(a), DroppedIn(a), KeptGotosIn(a))
  {
    hide Fits, Items, CodeItems, Dropped, KeptGotos, Erase;
    NothingFits();
    match a
    case ALabel(x, kept) =>
      CodeItemsOfOne(Label(x));
      JumpFits(ILabel(x), kept);
    case AGoto(x, kept) =>
      CodeItemsOfOne(Goto(x));
      JumpFits(IGoto(x), kept);
    case APlain(x) =>
      CodeItemsOfOne(Plain(x));
      OneFits(IPlain(x));
    case AReturn(e, implied) =>
      CodeItemsOfOne(Return(e, implied));
      OneFits(IReturn(e, implied));
  }

  lemma IfFits(c: Expr, thn: seq<AStmt>, els: AElse)
    requires Fits(multiset{IIf(c)} + CodeItems(Erase(thn)), multiset{IIf(c)} + Items(thn), {} + Dropped(thn),
      {} + KeptGotos(thn))
    ensures Fits(CodeItems(EraseStmt(AIf(c, thn, els))), StmtItems(AIf(c, thn, els)), DroppedIn(AIf(c, thn, els)),
      KeptGotosIn(AIf(c, thn, els)))
    decreases els
  {
    hide Fits, Items, CodeItems, Dropped, KeptGotos, Erase;
    var other := if els.AElse? then Else(Erase(els.stmts)) else NoElse;
    CodeItemsOfOne(If(c, Erase(thn), other));
    assert EraseStmt(AIf(c, thn, els)) == [If(c, Erase(thn), other)];
    assert {} + Dropped(thn) == Dropped(thn) && {} + KeptGotos(thn) == KeptGotos(thn);
    if els.AElse? {
      ErasedFits(els.stmts);
      FitsAdd(multiset{IIf(c)} + CodeItems(Erase(thn)), multiset{IIf(c)} + Items(thn), Dropped(thn), KeptGotos(thn),
              CodeItems(Erase(els.stmts)), Items(els.stmts), Dropped(els.stmts), KeptGotos(els.stmts));
    } else {
      NothingElse(multiset{IIf(c)} + CodeItems(Erase(thn)));
      NothingElse(multiset{IIf(c)} + Items(thn));
      assert Dropped(thn) + {} == Dropped(thn) && KeptGotos(thn) + {} == KeptGotos(thn);
    }
  }

  lemma NothingElse(items: multiset<Item>)
    ensures items + multiset{} == items
  {}

  lemma {:induction false} LabelItems(ns: seq<Node>, l: Name)
    ensures NodeItems(ns)[ILabel(l)] > 0 <==> NLabel(l) in ns
    decreases |ns|
  {
    if ns != [] {
      LabelItems(ns[1..], l);
      assert ns == [ns[0]] + ns[1..];
    }
  }

  /** A block holds a label at most once. */
  lemma {:induction false} LabelOnceInRun(blocks: Blocks, d: nat, ns: seq<Node>, ks: seq<Stmt>, l: Name)
    requires HoldsFromLabels(blocks, d, ns, ks)
    requires forall i, j :: 0 <= i < j < |ks| && ks[i].Label? ==> ks[i] != ks[j]
    ensures NodeItems(ns)[ILabel(l)] <= 1
    decreases |ks|
  {
    if ks != [] && ks[0].Label? {
      forall i, j | 0 <= i < j < |ks[1..]| && ks[1..][i].Label? ensures ks[1..][i] != ks[1..][j] {
        assert ks[1..][i] == ks[i + 1] && ks[1..][j] == ks[j + 1];
      }
      LabelOnceInRun(blocks, d, ns[1..], ks[1..], l);
      assert ks[0] == Label(l) ==> Label(l) !in ks[1..];
      LabelItems(ns[1..], l);
      LabelIsInCode(blocks, d, ns[1..], ks[1..], l);
    } else if NodeItems(ns)[ILabel(l)] > 0 {
      LabelItems(ns, l);
      HoldsNoLabelNodes(blocks, d, ns, ks, l);
    }
  }

  lemma LabelIsInCode(blocks: Blocks, d: nat, ns: seq<Node>, ks: seq<Stmt>, l: Name)
    requires HoldsFromLabels(blocks, d, ns, ks)
    ensures NLabel(l) in ns ==> Label(l) in ks
  {
    if NLabel(l) in ns {
      LabelsOfRun(blocks, d, ns, ks, l);
    }
  }

  /** If one block only has the label, the label is counted there only. */
  lemma {:induction false} OneBlockHasLabel(blocks: Blocks, ns: set<Name>, e: Name, l: Name)
    requires ns <= blocks.Keys && e in ns && forall n :: n in ns && HasLabel(blocks[n], l) ==> n == e
    ensures ItemsOf(blocks, ns)[ILabel(l)] == NodeItems(blocks[e].nodes)[ILabel(l)]
  {
    ItemsOfTake(blocks, ns, e);
    NoBlockHasLabel(blocks, ns - {e}, l);
  }

  lemma {:induction false} NoBlockHasLabel(blocks: Blocks, ns: set<Name>, l: Name)
    requires ns <= blocks.Keys && forall n :: n in ns ==> !HasLabel(blocks[n], l)
    ensures ItemsOf(blocks, ns)[ILabel(l)] == 0
    decreases |ns|
  {
    hide ItemsOf;
    NoItems(blocks);
    if ns != {} {
      var n :| n in ns;
      ItemsOfTake(blocks, ns, n);
      LabelItems(blocks[n].nodes, l);
      NoBlockHasLabel(blocks, ns - {n}, l);
    }
  }

  /** A goto that is left has its label in the emitted code, and only once. */
  lemma KeptGotoHasOneLabel(blocks: Blocks, p: seq<Stmt>, starts: map<Name, nat>, root: Name, l: Name)
    requires Represents(blocks, p, starts, root) && Wired(blocks)
    requires root in blocks && blocks[root].aliasOf.None? && CodeItems(Erase(WholeCode(blocks, root)))[IGoto(l)] > 0
    ensures CodeItems(Erase(WholeCode(blocks, root)))[ILabel(l)] == 1
  {
    hide CodeItems, Wired, RebuildA, ItemsOf, Items, Represents, WellBuilt, NodeItems, Account, Explained, HasLabel;
    var r := RebuildA(blocks, root, None, {});
    RepresentsWired(blocks, p, starts, root);
    ErasedFits(r.code);
    assert IGoto(l).target in KeptGotos(r.code);
    KeptLabelIsKept(blocks, p, starts, root, l);
    assert CodeItems(Erase(r.code))[ILabel(l)] == Items(r.code)[ILabel(l)];
    RebuildConserves(blocks, root, None, {});
    RebuildAccounts(blocks, root, None, {});
    assert r.built - {} == r.built;
    var e := LabelsBlock(blocks, p, starts, root, r.built, r.joined, KeptGotos(r.code), Labels(r.code), l);
    OneBlockHasLabel(blocks, r.built, e, l);
    LabelItems(blocks[e].nodes, l);
    HasLabelNode(blocks[e], l);
    LabelOnce(blocks, p, starts, root, e, l);
  }

  lemma HasLabelNode(b: Block, l: Name)
    requires HasLabel(b, l)
    ensures NLabel(l) in b.nodes
  {}

  /** The built block that has the label of a goto that is left. */
  lemma LabelsBlock(blocks: Blocks, p: seq<Stmt>, starts: map<Name, nat>, root: Name, built: set<Name>,
      joined: set<Name>,
                    kept: set<Name>, labels: set<Name>, l: Name) returns (e: Name)
    requires Represents(blocks, p, starts, root) && Account(blocks, {}, built, joined, kept, labels) && l in kept
    ensures e in built && e in starts && e in blocks && HasLabel(blocks[e], l)
    ensures forall n :: n in built ==> n in blocks && (HasLabel(blocks[n], l) ==> n == e)
  {
    hide HasLabel, HoldsFromLabels, WellBuilt, InRun, Exiters, TopLabels;
    var n :| n in built && n !in {} && n !in joined && ExitsBy(blocks, n, l) && blocks[n].exit.value.to in built;
    e := blocks[n].exit.value.to;
    assert LiveLabel(blocks, e, l);
    forall m | m in built ensures m in blocks && (HasLabel(blocks[m], l) ==> m == e) {
      assert HasLabel(blocks[m], l) ==> LiveLabel(blocks, m, l);
    }
  }

  lemma LabelOnce(blocks: Blocks, p: seq<Stmt>, starts: map<Name, nat>, root: Name, e: Name, l: Name)
    requires Represents(blocks, p, starts, root) && e in starts
    ensures e in blocks && NodeItems(blocks[e].nodes)[ILabel(l)] <= 1
  {
    hide HoldsFromLabels, WellBuilt, NodeItems, InRun;
    var ks := p[starts[e]..];
    forall i, j | 0 <= i < j < |ks| && ks[i].Label? ensures ks[i] != ks[j] {
      assert ks[i] == p[starts[e] + i] && ks[j] == p[starts[e] + j];
    }
    LabelOnceInRun(blocks, blocks[e].defAt, blocks[e].nodes, ks, l);
  }

  /** What is trimmed off the end is implied returns. */
  lemma {:induction false} TrimmedIsImplied(ss: seq<Stmt>) returns (trimmed: seq<Stmt>)
    ensures ss == Trim(ss) + trimmed && forall s :: s in trimmed ==> IsImplied(s)
    decreases |ss|
  {
    trimmed := [];
    if ss != [] && IsImplied(ss[|ss| - 1]) {
      var init, last := ss[..|ss| - 1], ss[|ss| - 1];
      assert ss == init + [last];
      var more := TrimmedIsImplied(init);
      trimmed := more + [last];
      assert Trim(init) + trimmed == Trim(init) + more + [last];
    }
  }

  /** Implied returns are no jumps. */
  lemma {:induction false} ImpliedItems(ss: seq<Stmt>, l: Name)
    requires forall s :: s in ss ==> IsImplied(s)
    ensures CodeItems(ss)[ILabel(l)] == CodeItems(ss)[IGoto(l)] == 0
    decreases |ss|
  {
    if ss != [] {
      assert ss[0] in ss && forall s :: s in ss[1..] ==> s in ss;
      ImpliedItems(ss[1..], l);
    }
  }

  /** In what the visitor returns, every goto has its label, and only once. */
  lemma GotosHaveOneLabel(src: seq<Stmt>, l: Name)
    requires InFragment(src) && CodeItems(Eliminated(src))[IGoto(l)] > 0
    ensures CodeItems(Eliminated(src))[ILabel(l)] == 1
  {
    hide InFragment, Represents, Build, WellBuilt, CodeItems, Rebuilt, Trim;
    var st := Build(src);
    var starts := BuildRepresents(src);
    RepresentsWired(st.blocks, Whole(src), starts, Root(st, MAIN));
    var trimmed := TrimmedIsImplied(Erase(Rebuilt(src)));
    CodeItemsConcat(Eliminated(src), trimmed);
    ImpliedItems(trimmed, l);
    assert Rebuilt(src) == WholeCode(st.blocks, Root(st, MAIN)) by { RebuiltIsWhole(src); }
    KeptGotoHasOneLabel(st.blocks, Whole(src), starts, Root(st, MAIN), l);
  }

  lemma RebuiltIsWhole(src: seq<Stmt>)
    requires InFragment(src)
    ensures var st := Build(src);
      && WellBuilt(st.blocks) && Wired(st.blocks) && Root(st, MAIN) in st.blocks
      && st.blocks[Root(st, MAIN)].aliasOf.None?
      && Rebuilt(src) == WholeCode(st.blocks, Root(st, MAIN))
  {
    hide InFragment, Represents, Build, RebuildA;
    var st := Build(src);
    var starts := BuildRepresents(src);
    RepresentsWired(st.blocks, Whole(src), starts, Root(st, MAIN));
  }

  /** The code has the statements `nodes`: those that are no jumps as often, labels and gotos no more often. */
  ghost predicate Conserves(code: seq<Stmt>, nodes: multiset<Item>) {
    forall i: Item ::
      && CodeItems(code)[i] <= nodes[i]
      && (!i.IGoto? && !i.ILabel? ==> CodeItems(code)[i] == nodes[i])
  }

  /**
   What the visitor returns, with the implied returns put back that it trimmed, has the statements of the blocks
   that can be reached from the root, each node once; only labels and gotos may be missing.
   */
  lemma EliminationConserves(src: seq<Stmt>) returns (reached: set<Name>, trimmed: seq<Stmt>)
    requires InFragment(src)
    ensures var st := Build(src);
      && reached <= st.blocks.Keys && IsReachable(st.blocks, Root(st, MAIN), reached)
      && (forall s :: s in trimmed ==> IsImplied(s))
      && Conserves(Eliminated(src) + trimmed, ItemsOf(st.blocks, reached))
  {
    hide InFragment, Build, WellBuilt, IsReachable, ItemsOf, Items, CodeItems, Rebuilt, Trim, RebuildA;
    var st := Build(src);
    var starts := BuildRepresents(src);
    var root := Root(st, MAIN);
    RepresentsWired(st.blocks, Whole(src), starts, root);
    RebuiltIsWhole(src);
    RebuildConservesReachable(st.blocks, root);
    reached := RebuildA(st.blocks, root, None, {}).built;
    trimmed := TrimmedIsImplied(Erase(Rebuilt(src)));
    ErasedFits(Rebuilt(src));
  }
}
