/**
 `CodeBlock` and `LabelScope` of `ControlFlowVisitor.php` as objects that refer to each other and are
 updated in place. `View` and `Abs` give the values of the `CodeBlocks` module; each method is proved to
 do on the objects what the operation of that module does on values.
 */
module HeapBlocks {
  import opened Wrappers
  import opened PhpCode
  import opened Annotated
  import opened CodeBlocks
  import opened Rebuild

  /** A node whose nested block is an object. */
  type HeapNode = NodeOf<CodeBlock>

  function Named(n: HeapNode): Node {
    match n
    case NPlain(s) => NPlain(s)
    case NReturn(e, implied) => NReturn(e, implied)
    case NGoto(l) => NGoto(l)
    case NLabel(l) => NLabel(l)
    case NIf(c, sub) => NIf(c, sub.name)
    case NLoop(kind, c, sub) => NLoop(kind, c, sub.name)
  }

  function NamedAll(ns: seq<HeapNode>): (r: seq<Node>)
    ensures |r| == |ns| && forall i :: 0 <= i < |ns| ==> r[i] == Named(ns[i])
  {
    seq(|ns|, i requires 0 <= i < |ns| => Named(ns[i]))
  }

  function Names(bs: seq<CodeBlock>): (r: seq<Name>)
    ensures |r| == |bs| && forall i :: 0 <= i < |bs| ==> r[i] == bs[i].name
  {
    seq(|bs|, i requires 0 <= i < |bs| => bs[i].name)
  }

  lemma NamedAllAppends(ns: seq<HeapNode>, more: seq<HeapNode>)
    ensures NamedAll(ns + more) == NamedAll(ns) + NamedAll(more)
  {}

  /** The nested block a node refers to is known. */
  predicate SubKnown(n: HeapNode, known: set<CodeBlock>) {
    n.NIf? || n.NLoop? ==> n.sub in known
  }

  /** Every alias leads to a known block that was defined later. */
  ghost predicate AliasesEnd(known: set<CodeBlock>, clock: nat)
    reads known`aliasOf, known`defAt
  {
    forall b :: b in known && b.aliasOf != null ==> b.aliasOf in known && b.defAt < b.aliasOf.defAt <= clock
  }

  /** The end of the alias chain. */
  ghost function RootOf(b: CodeBlock, known: set<CodeBlock>, clock: nat): (r: CodeBlock)
    requires b in known && AliasesEnd(known, clock)
    reads known`aliasOf, known`defAt
    ensures r in known && r.aliasOf == null
    decreases if b.defAt <= clock then clock - b.defAt else 0
  {
    if b.aliasOf == null then b else RootOf(b.aliasOf, known, clock)
  }

  function CountOf(counts: map<Name, nat>, t: Name): nat {
    if t in counts then counts[t] else 0
  }

  /** The fields of a block, `built` left out. */
  datatype BlockFields = BlockFields(
    exitBlock: CodeBlock?,
    exitOrigName: Name,
    enters: map<Name, CodeBlock>,
    enterByName: map<Name, Name>,
    entersPerName: map<Name, nat>,
    nested: seq<CodeBlock>,
    unreachable: bool,
    nodes: seq<HeapNode>,
    unreachableNodes: seq<HeapNode>,
    aliasOf: CodeBlock?,
    defined: bool,
    elseBlock: CodeBlock?,
    defAt: nat,
    home: Option<Home>,
    inLoop: bool)

  function NameOf(b: CodeBlock?): Option<Name> {
    if b == null then None else Some(b.name)
  }

  /** The value a block stands for: references become names. */
  function ViewOf(f: BlockFields): Block {
    Block(if f.exitBlock == null then None else Some(Exit(f.exitBlock.name, f.exitOrigName)),
          f.enterByName, f.entersPerName, Names(f.nested), f.unreachable, NamedAll(f.nodes),
            NamedAll(f.unreachableNodes),
          NameOf(f.aliasOf), f.defined, NameOf(f.elseBlock), f.defAt, f.home, f.inLoop)
  }

  /** Only known blocks are referred to, and what enters is kept consistently. */
  predicate ClosedOf(f: BlockFields, known: set<CodeBlock>) {
    && (f.exitBlock != null ==> f.exitBlock in known) && (f.aliasOf != null ==> f.aliasOf in known)
    && (f.elseBlock != null ==> f.elseBlock in known)
    && f.enters.Keys == f.enterByName.Keys
    && (forall m :: m in f.enters ==> f.enters[m] in known && f.enters[m].name == m)
    && (forall i :: 0 <= i < |f.nested| ==> f.nested[i] in known)
    && (forall i :: 0 <= i < |f.nodes| ==> SubKnown(f.nodes[i], known))
    && (forall i :: 0 <= i < |f.unreachableNodes| ==> SubKnown(f.unreachableNodes[i], known))
  }

  class CodeBlock {
    const name: Name
    var exitBlock: CodeBlock?
    var exitOrigName: Name
    /** Blocks which enter this one, by their names. */
    var enters: map<Name, CodeBlock>
    var enterByName: map<Name, Name>
    var entersPerName: map<Name, nat>
    var nested: seq<CodeBlock>
    var unreachable: bool
    var nodes: seq<HeapNode>
    var unreachableNodes: seq<HeapNode>
    var built: bool
    var aliasOf: CodeBlock?
    var defined: bool
    /** The block of the `else` of the `if` this block belongs to. */
    var elseBlock: CodeBlock?
    ghost var defAt: nat
    ghost var home: Option<Home>
    ghost var inLoop: bool

    constructor (name: Name)
      ensures this.name == name && View() == NewBlock(name) && !built && Closed({})
    {
      this.name := name;
      exitBlock, exitOrigName := null, "";
      enters, enterByName, entersPerName := map[], map[], map[name := 0];
      nested, unreachable, nodes, unreachableNodes := [], false, [], [];
      built, aliasOf, defined, elseBlock := false, null, false, null;
      defAt, home, inLoop := 0, None, false;
    }

    ghost function Fields(): BlockFields
      reads this`exitBlock, this`exitOrigName, this`enters, this`enterByName, this`entersPerName, this`nested,
        this`unreachable
      reads this`nodes, this`unreachableNodes, this`aliasOf, this`defined, this`elseBlock, this`defAt, this`home,
        this`inLoop
    {
      BlockFields(exitBlock, exitOrigName, enters, enterByName, entersPerName, nested, unreachable, nodes,
        unreachableNodes,
                    aliasOf, defined, elseBlock, defAt, home, inLoop)
    }

    ghost function View(): Block
      reads this`exitBlock, this`exitOrigName, this`enters, this`enterByName, this`entersPerName, this`nested,
        this`unreachable
      reads this`nodes, this`unreachableNodes, this`aliasOf, this`defined, this`elseBlock, this`defAt, this`home,
        this`inLoop
    {
      ViewOf(Fields())
    }

    ghost predicate Closed(known: set<CodeBlock>)
      reads this`exitBlock, this`exitOrigName, this`enters, this`enterByName, this`entersPerName, this`nested,
        this`unreachable
      reads this`nodes, this`unreachableNodes, this`aliasOf, this`defined, this`elseBlock, this`defAt, this`home,
        this`inLoop
    {
      ClosedOf(Fields(), known)
    }

    ghost predicate EntersOk()
      reads this`enters, this`enterByName
    {
      enters.Keys == enterByName.Keys && forall m :: m in enters ==> enters[m].name == m
    }

    ghost function Enterers(): set<CodeBlock>
      reads this`enters
    {
      set m | m in enters :: enters[m]
    }

    /** `append`; answers whether the check for an alias passed. */
    method Append(node: HeapNode) returns (ok: bool)
      modifies this`nodes, this`unreachableNodes
      ensures ok == (aliasOf == null)
      ensures Fields() == AppendedFields(old(Fields()), exitBlock != null && !exitBlock.defined, node)
    {
      if aliasOf != null {
        return false;
      }
      ok := true;
      if unreachable {
        if exitBlock != null && !exitBlock.defined {
          unreachableNodes := unreachableNodes + [node];
        }
        return;
      }
      nodes := nodes + [node];
    }

    method IsEmpty() returns (empty: bool)
      ensures empty == CodeBlocks.IsEmpty(View())
    {
      assert forall i :: 0 <= i < |nodes| ==>
        View().nodes[i] in View().nodes && (View().nodes[i].NLabel? <==> nodes[i].NLabel?);
      for i := 0 to |nodes|
        invariant forall j :: 0 <= j < i ==> nodes[j].NLabel?
      {
        if !nodes[i].NLabel? {
          return false;
        }
      }
      return true;
    }

    method SetUnreachable()
      modifies this`unreachable
      ensures Fields() == old(Fields()).(unreachable := true)
    {
      unreachable := true;
    }

    /** `setDefined`; the number is for the proofs. */
    method SetDefined(ghost number: nat)
      modifies this`defined, this`defAt
      ensures Fields() == old(Fields()).(defined := true, defAt := number)
    {
      defined := true;
      defAt := number;
    }

    method Root(ghost known: set<CodeBlock>, ghost clock: nat) returns (block: CodeBlock)
      requires this in known && AliasesEnd(known, clock)
      ensures block == RootOf(this, known, clock)
    {
      block := this;
      while block.aliasOf != null
        invariant block in known && RootOf(block, known, clock) == RootOf(this, known, clock)
        decreases if block.defAt <= clock then clock - block.defAt else 0
      {
        block := block.aliasOf;
      }
    }

    /** `addNested`; answers whether the check for an alias passed. */
    method AddNested(inner: CodeBlock) returns (ok: bool)
      modifies this`nested
      ensures ok == (aliasOf == null)
      ensures ok ==> Fields() == old(Fields()).(nested := old(nested) + [inner])
    {
      if aliasOf != null {
        return false;
      }
      nested := nested + [inner];
      ok := true;
    }

    /** `setExit`; answers whether its checks passed. */
    method SetExit(to: CodeBlock, ghost known: set<CodeBlock>, ghost clock: nat) returns (ok: bool)
      requires to in known && AliasesEnd(known, clock)
      modifies this`exitBlock, this`exitOrigName
      ensures ok == (aliasOf == null && old(exitBlock) == null)
      ensures ok ==> Fields() == old(Fields()).(exitBlock := RootOf(to, known, clock), exitOrigName := to.name)
    {
      if aliasOf != null {
        return false;
      }
      exitOrigName := to.name;
      var block := to.Root(known, clock);
      if exitBlock != null {
        return false;
      }
      exitBlock := block;
      ok := true;
    }

    /** `enter`: the end of the alias chain is entered under the given name, or this block's own. */
    method Enter(block: CodeBlock, targetName: Option<Name>, ghost known: set<CodeBlock>, ghost clock: nat)
      requires this in known && AliasesEnd(known, clock)
      modifies RootOf(this, known, clock)`enters, RootOf(this, known, clock)`enterByName,
        RootOf(this, known, clock)`entersPerName
      ensures RootOf(this, known, clock).Fields() ==
        EnteredFields(old(RootOf(this, known, clock).Fields()), block,
          if targetName.Some? then targetName.value else name)
      decreases if defAt <= clock then clock - defAt else 0
    {
      hide Fields;
      var t := if targetName.Some? then targetName.value else name;
      if aliasOf != null {
        aliasOf.Enter(block, Some(t), known, clock);
        return;
      }
      EnterHere(block, t);
    }

    /** `enter` of a block that is no alias. */
    method EnterHere(block: CodeBlock, t: Name)
      modifies this`enters, this`enterByName, this`entersPerName
      ensures Fields() == EnteredFields(old(Fields()), block, t)
    {
      CountEnter(t);
      enters := enters[block.name := block];
      enterByName := enterByName[block.name := t];
    }

    method CountEnter(t: Name)
      modifies this`entersPerName
      ensures entersPerName == old(entersPerName)[t := CountOf(old(entersPerName), t) + 1]
    {
      if t !in entersPerName {
        entersPerName := entersPerName[t := 0];
      }
      entersPerName := entersPerName[t := entersPerName[t] + 1];
    }

    /** `setAlias`; answers whether its checks passed. */
    method SetAlias(other: CodeBlock) returns (ok: bool)
      requires this != other && other.aliasOf == null && EntersOk() && other !in Enterers() && this !in Enterers()
      modifies this`aliasOf, this`enters, this`enterByName, this`unreachable
      modifies other`enters, other`enterByName, other`entersPerName, other`nodes, Enterers()`exitBlock
      ensures ok == (old(aliasOf) == null && old(exitBlock) == null && nested == [] && old(CodeBlocks.IsEmpty(View())))
      ensures ok ==> Fields() == old(Fields()).(aliasOf := other, enters := map[], enterByName := map[],
        unreachable := true)
      ensures ok ==> other.Fields() == old(TakenOver(Fields(), other.Fields()))
      ensures ok ==> forall m :: m in old(enters) ==>
        old(enters)[m].Fields() == old(enters[m].Fields()).(exitBlock := other)
    {
      hide TakenOver, EntersOk, View, ViewOf, CodeBlocks.IsEmpty;
      if aliasOf != null || exitBlock != null || nested != [] {
        return false;
      }
      var empty := IsEmpty();
      if !empty {
        return false;
      }
      MergeInto(other);
      ok := true;
    }

    /** `setAlias` behind its checks. */
    method MergeInto(other: CodeBlock)
      requires this != other && other.aliasOf == null && EntersOk() && other !in Enterers() && this !in Enterers()
      modifies this`aliasOf, this`enters, this`enterByName, this`unreachable
      modifies other`enters, other`enterByName, other`entersPerName, other`nodes, Enterers()`exitBlock
      ensures Fields() == old(Fields()).(aliasOf := other, enters := map[], enterByName := map[], unreachable := true)
      ensures other.Fields() == old(TakenOver(Fields(), other.Fields()))
      ensures forall m :: m in old(enters) ==> old(enters)[m].exitBlock == other
    {
      hide MergedCounts, EntersOk;
      ghost var counts, moved := other.entersPerName, enterByName;
      HandOverEnters(other);
      other.nodes := nodes + other.nodes;
      PickUpNames(other, counts, moved);
      unreachable := true;
    }

    /** Whatever enters this block enters the other one from now on. */
    method HandOverEnters(other: CodeBlock)
      requires this != other && other.aliasOf == null && EntersOk() && other !in Enterers() && this !in Enterers()
      modifies this`aliasOf, this`enters, this`enterByName
      modifies other`enters, other`enterByName, other`entersPerName, Enterers()`exitBlock
      ensures aliasOf == other && enters == map[] && enterByName == map[]
      ensures other.enters == old(other.enters + enters) && other.enterByName == old(other.enterByName + enterByName)
      ensures other.entersPerName == old(MergedCounts(other.entersPerName, enterByName, {}))
      ensures forall m :: m in old(enters) ==> old(enters)[m].exitBlock == other
    {
      hide MergedCounts, EntersOk;
      aliasOf := other;
      MoveEnters(other);
      enters, enterByName := map[], map[];
    }

    /** The first loop of `setAlias`: whatever enters this block now enters the other, under the same name. */
    method MoveEnters(other: CodeBlock)
      requires this != other && other.aliasOf == null && EntersOk() && other !in Enterers()
      modifies other`enters, other`enterByName, other`entersPerName, Enterers()`exitBlock
      ensures other.enters == old(other.enters) + enters && other.enterByName == old(other.enterByName) + enterByName
      ensures other.entersPerName == MergedCounts(old(other.entersPerName), enterByName, {})
      ensures forall m :: m in enters ==> enters[m].exitBlock == other
    {
      hide MergedCounts, Split;
      ghost var counts := other.entersPerName;
      var blocks, names := enters, enterByName;
      ghost var done: map<Name, Name>, doneBlocks: map<Name, CodeBlock> := map[], map[];
      var todo := blocks.Keys;
      NothingMerged(counts);
      SplitStarts(blocks);
      SplitStarts(names);
      while todo != {}
        invariant Split(blocks, doneBlocks, todo) && Split(names, done, todo)
        invariant forall m :: m in blocks && m !in todo ==> blocks[m].exitBlock == other
        invariant other.enters == old(other.enters) + doneBlocks && other.enterByName == old(other.enterByName) + done
        invariant other.entersPerName == MergedCounts(counts, done, {})
      {
        var m :| m in todo;
        SplitMore(blocks, doneBlocks, todo, m);
        SplitMore(names, done, todo, m);
        other.TakeOver(blocks[m], names[m], counts, done);
        SumPut(old(other.enters), doneBlocks, m, blocks[m]);
        SumPut(old(other.enterByName), done, m, names[m]);
        done, doneBlocks := done[m := names[m]], doneBlocks[m := blocks[m]];
        todo := todo - {m};
      }
      SplitEnds(blocks, doneBlocks);
      SplitEnds(names, done);
    }

    /** One round of that loop, in the block that takes over. */
    method TakeOver(block: CodeBlock, targetName: Name, ghost counts: map<Name, nat>, ghost done: map<Name, Name>)
      requires aliasOf == null && block != this
      requires entersPerName == MergedCounts(counts, done, {}) && block.name !in done
      modifies this`enters, this`enterByName, this`entersPerName, block`exitBlock
      ensures enters == old(enters)[block.name := block] && enterByName == old(enterByName)[block.name := targetName]
      ensures entersPerName == MergedCounts(counts, done[block.name := targetName], {})
      ensures block.exitBlock == this
    {
      hide MergedCounts;
      MergeOne(counts, done, block.name, targetName);
      EnterHere(block, targetName);
      block.exitBlock := this;
    }

    /** The second loop of `setAlias`: the other block picks up the names this one had. */
    method PickUpNames(other: CodeBlock, ghost counts: map<Name, nat>, ghost moved: map<Name, Name>)
      requires this != other && other.entersPerName == MergedCounts(counts, moved, {})
      modifies other`entersPerName
      ensures other.entersPerName == MergedCounts(counts, moved, entersPerName.Keys)
    {
      hide MergedCounts;
      ghost var done: set<Name> := {};
      var names := entersPerName.Keys;
      while names != {}
        invariant names <= entersPerName.Keys && done == entersPerName.Keys - names
        invariant other.entersPerName == MergedCounts(counts, moved, done)
      {
        var n :| n in names;
        PickUp(counts, moved, done, n);
        if n !in other.entersPerName {
          other.entersPerName := other.entersPerName[n := 0];
        }
        done := done + {n};
        names := names - {n};
      }
      assert done == entersPerName.Keys;
    }
    // ---- Rebuilding -------------------------------------------------------------------------------

    /** `rebuild`; code behind a jump to a label that is never defined is put back. */
    method Rebuild(removeLabel: Option<Name>, ghost all: map<Name, CodeBlock>, ghost known: set<CodeBlock>)
        returns (code: seq<Stmt>)
      requires Family(all, known) && this in known && aliasOf == null
      modifies known`built
      ensures Family(all, known) && Views(all, known) == old(Views(all, known))
      ensures IsRebuilt(old(Views(all, known)), name, removeLabel, old(BuiltOf(all, known)), code, BuiltOf(all, known))
      ensures old(BuiltOf(all, known)) <= BuiltOf(all, known)
      decreases all.Keys - BuiltOf(all, known), 0
    {
      hide Family, View, ViewOf, Fields, BuiltOf, Views, IsRebuilt;
      BlockFacts(this, all, known);
      if built || !defined {
        NotRebuilt(Views(all, known), name, removeLabel, BuiltOf(all, known));
        return [];
      }
      ghost var views, built0 := Views(all, known), BuiltOf(all, known);
      MarkBuilt(all, known);
      BlockFacts(this, all, known);
      if exitBlock == null {
        code := RebuildNodes(nodes, removeLabel, false, all, known);
        RebuiltAlone(views, name, removeLabel, built0, code, BuiltOf(all, known));
      } else {
        code := RebuildExit(removeLabel, all, known, built0);
      }
    }

    /** The part of `rebuild` for a block with an exit: the exit comes first. */
    method RebuildExit(removeLabel: Option<Name>, ghost all: map<Name, CodeBlock>, ghost known: set<CodeBlock>,
        ghost built0: set<Name>)
      returns (code: seq<Stmt>)
      requires Family(all, known) && this in known && aliasOf == null && exitBlock != null && defined
      requires built0 <= all.Keys && name !in built0 && BuiltOf(all, known) == built0 + {name}
      modifies known`built
      ensures Family(all, known) && Views(all, known) == old(Views(all, known))
      ensures IsRebuilt(old(Views(all, known)), name, removeLabel, built0, code, BuiltOf(all, known))
      ensures old(BuiltOf(all, known)) <= BuiltOf(all, known)
      decreases all.Keys - BuiltOf(all, known), 3
    {
      hide Family, View, ViewOf, Fields, BuiltOf, Views, IsRebuilt, IsProcessed, NodesKnown;
      BlockFacts(this, all, known);
      BlockFacts(exitBlock, all, known);
      var removeGotoExit := !exitBlock.built && exitBlock.defined;
      var removeExitLabel := removeGotoExit && exitOrigName in exitBlock.entersPerName
        && exitBlock.entersPerName[exitOrigName] == 1;
      ghost var views := Views(all, known);
      var tail := exitBlock.Rebuild(if removeExitLabel then Some(exitOrigName) else None, all, known);
      ghost var built2 := BuiltOf(all, known);
      BlockFacts(this, all, known);
      KnownTogether(nodes, unreachableNodes, all, known);
      var own := RebuildNodes(if exitBlock.defined then nodes else nodes + unreachableNodes, removeLabel,
        removeGotoExit, all, known);
      RebuiltWithExit(views, name, removeLabel, built0, tail, built2, own, BuiltOf(all, known));
      code := own + tail;
    }

    method MarkBuilt(ghost all: map<Name, CodeBlock>, ghost known: set<CodeBlock>)
      requires Family(all, known) && this in known
      modifies this`built
      ensures Family(all, known) && Views(all, known) == old(Views(all, known))
      ensures built && BuiltOf(all, known) == old(BuiltOf(all, known)) + {name}
    {
      hide View, ClosedOf, ViewOf, Fields, Wired;
      EachClosed(known);
      ghost var views := Views(all, known);
      ViewsAt(all, known);
      built := true;
      SameViews(all, known, views);
    }

    method RebuildNodes(ns: seq<HeapNode>, removeLabel: Option<Name>, removeGotoExit: bool,
        ghost all: map<Name, CodeBlock>, ghost known: set<CodeBlock>)
      returns (code: seq<Stmt>)
      requires Family(all, known) && this in known && aliasOf == null && NodesKnown(ns, Views(all, known), known)
      modifies known`built
      ensures Family(all, known) && Views(all, known) == old(Views(all, known))
      ensures IsProcessed(old(Views(all, known)), NamedAll(ns), View(), removeLabel,
        if removeGotoExit then Some(exitOrigName) else None,
                          old(BuiltOf(all, known)), code, BuiltOf(all, known))
      ensures old(BuiltOf(all, known)) <= BuiltOf(all, known)
      decreases all.Keys - BuiltOf(all, known), 2
    {
      hide Family, View, ViewOf, Fields, BuiltOf, Views, IsProcessed, Progress, Keeps, Kept, NodesKnown, NodeProcessed;
      BlockFacts(this, all, known);
      ghost var views, names, removeGoto := Views(all, known), NamedAll(ns), if removeGotoExit then Some(exitOrigName)
        else None;
      ghost var v := View();
      NodesExist(ns, all, known);
      ProgressStarts(views, names, v, removeLabel, removeGoto, BuiltOf(all, known));
      code := [];
      for i := 0 to |ns|
        invariant Family(all, known) && View() == v && Views(all, known) == views
          && old(BuiltOf(all, known)) <= BuiltOf(all, known)
        invariant Progress(views, names, i, v, removeLabel, removeGoto, old(BuiltOf(all, known)), code,
          BuiltOf(all, known))
      {
        NodeKnown(ns, i, all, known);
        ghost var built1 := BuiltOf(all, known);
        var s := ProcessNode(ns[i], v, removeLabel, removeGoto, all, known);
        BlockFacts(this, all, known);
        FilteredStep(views, names, i, v, removeLabel, removeGoto, old(BuiltOf(all, known)), code, built1, s,
          BuiltOf(all, known));
        KeepsIs(this, s, removeLabel, removeGotoExit);
        if Keeps(s, removeLabel, removeGotoExit) {
          code := code + [s];
        }
      }
      ProgressEnds(views, names, v, removeLabel, removeGoto, old(BuiltOf(all, known)), code, BuiltOf(all, known));
    }

    /**
     The filter of `rebuild`: labels that nothing enters by or that are to be removed, and the goto to a joined
     exit.
     */
    predicate Keeps(s: Stmt, removeLabel: Option<Name>, removeGotoExit: bool)
      reads this`entersPerName, this`exitOrigName
    {
      match s
      case Label(l) => (l in entersPerName ==> entersPerName[l] != 0) && removeLabel != Some(l)
      case Goto(l) => !removeGotoExit || l != exitOrigName
      case _ => true
    }

    /** `processNode` */
    method ProcessNode(node: HeapNode, ghost b: Block, ghost removeLabel: Option<Name>, ghost removeGoto: Option<Name>,
                       ghost all: map<Name, CodeBlock>, ghost known: set<CodeBlock>) returns (s: Stmt)
      requires Family(all, known) && NodesKnown([node], Views(all, known), known)
      modifies known`built
      ensures Family(all, known) && Views(all, known) == old(Views(all, known))
        && old(BuiltOf(all, known)) <= BuiltOf(all, known)
      ensures NodeProcessed(old(Views(all, known)), Named(node), b, removeLabel, removeGoto, old(BuiltOf(all, known)),
        s, BuiltOf(all, known))
      decreases all.Keys - BuiltOf(all, known), 1
    {
      hide Family, View, ViewOf, Fields, BuiltOf, Views, IsRebuilt, NodeProcessed;
      NodesExist([node], all, known);
      ghost var views, built0 := Views(all, known), BuiltOf(all, known);
      match node
      case NPlain(x) =>
        s := Plain(x);
        SimpleProcessed(node, b, removeLabel, removeGoto, all, known);
      case NReturn(e, implied) =>
        s := Return(e, implied);
        SimpleProcessed(node, b, removeLabel, removeGoto, all, known);
      case NGoto(l) =>
        s := Goto(l);
        SimpleProcessed(node, b, removeLabel, removeGoto, all, known);
      case NLabel(l) =>
        s := Label(l);
        SimpleProcessed(node, b, removeLabel, removeGoto, all, known);
      case NLoop(kind, c, sub) =>
        SubIsLive(node, all, known);
        var body := sub.Rebuild(None, all, known);
        s := Loop(kind, c, body);
        LoopProcessed(views, Named(node), b, removeLabel, removeGoto, built0, body, BuiltOf(all, known));
      case NIf(c, sub) =>
        SubIsLive(node, all, known);
        var thn := sub.Rebuild(None, all, known);
        ghost var built1 := BuiltOf(all, known);
        if sub.elseBlock == null {
          s := If(c, thn, NoElse);
          IfProcessed(views, Named(node), b, removeLabel, removeGoto, built0, thn, built1, [], built1);
        } else {
          var els := sub.elseBlock.Rebuild(None, all, known);
          s := If(c, thn, Else(els));
          IfProcessed(views, Named(node), b, removeLabel, removeGoto, built0, thn, built1, els, BuiltOf(all, known));
        }
    }
  }

  /** The entries of `all` that are not to do are done. */
  ghost predicate Split<V>(all: map<Name, V>, done: map<Name, V>, todo: set<Name>) {
    todo <= all.Keys && done.Keys == all.Keys - todo && forall m :: m in done ==> done[m] == all[m]
  }

  lemma SplitStarts<V>(all: map<Name, V>)
    ensures Split(all, map[], all.Keys)
  {}

  lemma SplitMore<V>(all: map<Name, V>, done: map<Name, V>, todo: set<Name>, m: Name)
    requires Split(all, done, todo) && m in todo
    ensures m in all && m !in done && Split(all, done[m := all[m]], todo - {m})
  {}

  lemma SplitEnds<V>(all: map<Name, V>, done: map<Name, V>)
    requires Split(all, done, {})
    ensures done == all
  {}

  lemma SumPut<V>(a: map<Name, V>, b: map<Name, V>, k: Name, v: V)
    ensures a + b[k := v] == (a + b)[k := v]
  {}

  /** The counts after the entries of `moved` entered, too, and the names `names` were picked up. */
  function MergedCounts(counts: map<Name, nat>, moved: map<Name, Name>, names: set<Name>): map<Name, nat> {
    map t | t in counts.Keys + names + NamesUsed(moved) :: MergedCount(counts, moved, t)
  }

  function MergedCount(counts: map<Name, nat>, moved: map<Name, Name>, t: Name): nat {
    CountOf(counts, t) + |EnterersBy(moved, t)|
  }

  lemma MergeOne(counts: map<Name, nat>, moved: map<Name, Name>, m: Name, t: Name)
    requires m !in moved
    ensures var was := MergedCounts(counts, moved, {});
      MergedCounts(counts, moved[m := t], {}) == was[t := CountOf(was, t) + 1]
  {
    hide MergedCount, EnterersBy, NamesUsed;
    var was := MergedCounts(counts, moved, {});
    var after := MergedCounts(counts, moved[m := t], {});
    UsedAdd(moved, m, t);
    OneMore(counts, moved, m, t, t);
    forall u | u in after ensures u in was[t := CountOf(was, t) + 1] && after[u] == was[t := CountOf(was, t) + 1][u] {
      OneMore(counts, moved, m, t, u);
    }
  }

  lemma UsedAdd(moved: map<Name, Name>, m: Name, t: Name)
    requires m !in moved
    ensures NamesUsed(moved[m := t]) == NamesUsed(moved) + {t}
  {
    var after := moved[m := t];
    assert after[m] == t && forall n :: n in moved ==> after[n] == moved[n];
  }

  lemma OneMore(counts: map<Name, nat>, moved: map<Name, Name>, m: Name, t: Name, u: Name)
    requires m !in moved
    ensures MergedCount(counts, moved[m := t], u) == MergedCount(counts, moved, u) + if u == t then 1 else 0
    ensures t !in counts && t !in NamesUsed(moved) ==> MergedCount(counts, moved, t) == 0
  {
    EnterersAdd(moved, m, t, u);
    if t !in NamesUsed(moved) {
      NobodyEnters(moved, t);
    }
  }

  lemma NobodyEnters(moved: map<Name, Name>, t: Name)
    requires t !in NamesUsed(moved)
    ensures EnterersBy(moved, t) == {}
  {}

  lemma NothingMerged(counts: map<Name, nat>)
    ensures MergedCounts(counts, map[], {}) == counts
  {
    forall t ensures EnterersBy(map[], t) == {} {
      NobodyEnters(map[], t);
    }
  }

  lemma PickUp(counts: map<Name, nat>, moved: map<Name, Name>, names: set<Name>, n: Name)
    ensures var was := MergedCounts(counts, moved, names);
      MergedCounts(counts, moved, names + {n}) == if n in was then was else was[n := 0]
  {
    if n !in counts && n !in NamesUsed(moved) {
      NobodyEnters(moved, n);
    }
  }

  /** The fields after `append`; nodes that are not reached are kept only while the exit is not defined. */
  function AppendedFields(f: BlockFields, setAside: bool, node: HeapNode): BlockFields {
    if f.aliasOf != null then f
    else if !f.unreachable then f.(nodes := f.nodes + [node])
    else if setAside then f.(unreachableNodes := f.unreachableNodes + [node])
    else f
  }

  /** The fields after another block entered by the name `t`. */
  function EnteredFields(f: BlockFields, block: CodeBlock, t: Name): BlockFields {
    f.(enters := f.enters[block.name := block], enterByName := f.enterByName[block.name := t],
       entersPerName := f.entersPerName[t := CountOf(f.entersPerName, t) + 1])
  }

  lemma AppendedView(f: BlockFields, setAside: bool, node: HeapNode, known: set<CodeBlock>)
    requires ClosedOf(f, known) && SubKnown(node, known) && ViewOf(f).aliasOf.None?
    ensures ClosedOf(AppendedFields(f, setAside, node), known)
    ensures ViewOf(AppendedFields(f, setAside, node)) == var v := ViewOf(f);
      if !v.unreachable then v.(nodes := v.nodes + [Named(node)])
      else if setAside then v.(unreachableNodes := v.unreachableNodes + [Named(node)])
      else v
  {
    NamedAllAppends(f.nodes, [node]);
    NamedAllAppends(f.unreachableNodes, [node]);
  }

  lemma EnteredView(f: BlockFields, block: CodeBlock, t: Name, known: set<CodeBlock>)
    requires ClosedOf(f, known) && block in known
    ensures ClosedOf(EnteredFields(f, block, t), known)
      && ViewOf(EnteredFields(f, block, t)) == EnterBlock(ViewOf(f), block.name, t)
  {
    assert EnterCount(ViewOf(f), t) == CountOf(f.entersPerName, t);
  }

  lemma ExitedView(f: BlockFields, r: CodeBlock, l: Name, known: set<CodeBlock>)
    requires ClosedOf(f, known) && r in known
    ensures var f' := f.(exitBlock := r, exitOrigName := l);
      ClosedOf(f', known) && ViewOf(f') == ViewOf(f).(exit := Some(Exit(r.name, l)))
  {}

  /** The block that became an alias. */
  lemma AliasedSelf(f: BlockFields, other: CodeBlock, known: set<CodeBlock>)
    requires ClosedOf(f, known) && other in known
    ensures var f' := f.(aliasOf := other, enters := map[], enterByName := map[], unreachable := true);
      ClosedOf(f', known) && ViewOf(f') == ViewOf(f).(aliasOf := Some(other.name), enters := map[], unreachable := true)
  {}

  /** The block that took over its labels and what enters them. */
  function TakenOver(f: BlockFields, g: BlockFields): BlockFields {
    g.(nodes := f.nodes + g.nodes, enters := g.enters + f.enters, enterByName := g.enterByName + f.enterByName,
       entersPerName := MergedCounts(g.entersPerName, f.enterByName, f.entersPerName.Keys))
  }

  lemma AliasedOther(f: BlockFields, g: BlockFields, known: set<CodeBlock>)
    requires ClosedOf(f, known) && ClosedOf(g, known)
    ensures ClosedOf(TakenOver(f, g), known)
    ensures var v, w := ViewOf(f), ViewOf(g);
      ViewOf(TakenOver(f, g)) == MergeEnters(w.(nodes := v.nodes + w.nodes), v.enters, v.entersPerName.Keys)
  {
    var v, w := ViewOf(f), ViewOf(g);
    NamedAllAppends(f.nodes, g.nodes);
    MergedCountsMerge(w.(nodes := v.nodes + w.nodes), v.enters, v.entersPerName.Keys);
  }

  lemma MergedCountsMerge(b: Block, moved: map<Name, Name>, names: set<Name>)
    ensures MergeEnters(b, moved, names) ==
      b.(enters := b.enters + moved, entersPerName := MergedCounts(b.entersPerName, moved, names))
  {
    assert forall t :: EnterCount(b, t) == CountOf(b.entersPerName, t);
    assert MergeEnters(b, moved, names).entersPerName == MergedCounts(b.entersPerName, moved, names);
  }

  /** A block whose exit was redirected. */
  lemma RedirectedBlock(f: BlockFields, other: CodeBlock, known: set<CodeBlock>)
    requires ClosedOf(f, known) && other in known && f.exitBlock != null
    ensures var f' := f.(exitBlock := other);
      ClosedOf(f', known) && ViewOf(f') == ViewOf(f).(exit := Some(ViewOf(f).exit.value.(to := other.name)))
  {}

  /** What the view of a block says about its fields. */
  lemma ViewFields(b: CodeBlock)
    ensures var v := b.View();
      && v.defined == b.defined && v.unreachable == b.unreachable && v.entersPerName == b.entersPerName
      && v.enters == b.enterByName
      && v.exit == (if b.exitBlock == null then None else Some(Exit(b.exitBlock.name, b.exitOrigName)))
      && v.aliasOf == (if b.aliasOf == null then None else Some(b.aliasOf.name))
      && v.elseBlock == (if b.elseBlock == null then None else Some(b.elseBlock.name))
      && v.nodes == NamedAll(b.nodes) && v.unreachableNodes == NamedAll(b.unreachableNodes)
      && v.nested == Names(b.nested)
      && v.defAt == b.defAt && v.home == b.home && v.inLoop == b.inLoop
  {}

  // ---- Blocks that know each other ---------------------------------------------------------------

  /** The known blocks are found under their names. */
  predicate Indexed(all: map<Name, CodeBlock>, known: set<CodeBlock>) {
    && (forall n :: n in all ==> all[n] in known && all[n].name == n)
    && (forall b :: b in known ==> b.name in all && all[b.name] == b)
  }

  ghost function Views(all: map<Name, CodeBlock>, known: set<CodeBlock>): map<Name, Block>
    requires Indexed(all, known)
    reads known
  {
    map n | n in all :: all[n].View()
  }

  /** Blocks refer to known blocks only. */
  ghost predicate AllClosed(known: set<CodeBlock>)
    reads known
  {
    forall b :: b in known ==> b.Closed(known)
  }

  lemma IndexedAdd(all: map<Name, CodeBlock>, known: set<CodeBlock>, b: CodeBlock)
    requires Indexed(all, known) && b.name !in all
    ensures Indexed(all[b.name := b], known + {b})
  {}

  lemma IndexedName(all: map<Name, CodeBlock>, known: set<CodeBlock>, b: CodeBlock)
    requires Indexed(all, known) && b in known
    ensures b.name in all && all[b.name] == b
  {}

  lemma IndexedBlock(all: map<Name, CodeBlock>, known: set<CodeBlock>, n: Name)
    requires Indexed(all, known) && n in all
    ensures all[n] in known && all[n].name == n
  {}

  lemma ViewsAdd(all: map<Name, CodeBlock>, known: set<CodeBlock>, b: CodeBlock)
    requires Indexed(all, known) && Indexed(all[b.name := b], known + {b}) && b.name !in all
    ensures Views(all[b.name := b], known + {b}) == Views(all, known)[b.name := b.View()]
  {
    hide CodeBlock.View;
    forall n | n in all ensures all[n] in known {
      IndexedBlock(all, known, n);
    }
  }

  lemma ViewsAt(all: map<Name, CodeBlock>, known: set<CodeBlock>)
    requires Indexed(all, known)
    ensures Views(all, known).Keys == all.Keys && forall n :: n in all ==> Views(all, known)[n] == all[n].View()
  {}

  lemma OneView(root: CodeBlock)
    ensures Indexed(map[root.name := root], {root})
      && Views(map[root.name := root], {root}) == map[root.name := root.View()]
  {}

  lemma OneClosed(root: CodeBlock)
    requires root.Closed({})
    ensures AllClosed({root})
  {
    StillClosed(root, {}, {root});
  }

  lemma IndexedOthers(all: map<Name, CodeBlock>, known: set<CodeBlock>, b: CodeBlock)
    requires Indexed(all, known) && b in known
    ensures b.name in all && all[b.name] == b && forall n :: n in all && n != b.name ==> all[n] in known && all[n] != b
  {}

  /** Only block `b` changed since the views were `was`. */
  lemma ViewsPut(all: map<Name, CodeBlock>, known: set<CodeBlock>, was: map<Name, Block>, b: CodeBlock)
    requires Indexed(all, known) && b in known && was.Keys == all.Keys
    requires forall n :: n in all && n != b.name ==> all[n].View() == was[n]
    ensures Views(all, known) == was[b.name := b.View()]
  {
    hide CodeBlock.View;
  }

  /** Only block `b` changed. */
  lemma ClosedPut(known: set<CodeBlock>, b: CodeBlock)
    requires forall c :: c in known && c != b ==> c.Closed(known)
    requires b.Closed(known)
    ensures AllClosed(known)
  {
    hide CodeBlock.Closed;
  }

  lemma EachClosed(known: set<CodeBlock>)
    requires AllClosed(known)
    ensures forall c :: c in known ==> c.Closed(known)
  {}

  lemma ClosedAdd(known: set<CodeBlock>, b: CodeBlock)
    requires AllClosed(known) && b.Closed({})
    ensures AllClosed(known + {b})
  {
    forall c | c in known ensures c.Closed(known + {b}) {
      StillClosed(c, known, known + {b});
    }
    StillClosed(b, {}, known + {b});
  }

  lemma StillClosed(b: CodeBlock, known: set<CodeBlock>, known': set<CodeBlock>)
    requires b.Closed(known) && known <= known'
    ensures b.Closed(known')
  {}

  // ---- Rebuilding on objects and on values --------------------------------------------------------

  /** Blocks that know each other and whose nodes refer to blocks that can be built. */
  ghost predicate Family(all: map<Name, CodeBlock>, known: set<CodeBlock>)
    reads known
  {
    Indexed(all, known) && AllClosed(known) && Wired(Views(all, known))
  }

  ghost function BuiltOf(all: map<Name, CodeBlock>, known: set<CodeBlock>): (built: set<Name>)
    requires Indexed(all, known)
    reads known`built
    ensures built <= all.Keys
  {
    set n | n in all && all[n].built
  }

  /** `code` and `built'` are what `RebuildA` gives. */
  ghost predicate IsRebuilt(blocks: map<Name, Block>, n: Name, removeLabel: Option<Name>, built: set<Name>,
      code: seq<Stmt>, built': set<Name>) {
    && Wired(blocks) && n in blocks && blocks[n].aliasOf.None? && built <= blocks.Keys
    && var r := RebuildA(blocks, n, removeLabel, built); code == Erase(r.code) && built' == r.built
  }

  ghost predicate IsProcessed(blocks: map<Name, Block>, ns: seq<Node>, b: Block, removeLabel: Option<Name>,
      removeGoto: Option<Name>,
                              built: set<Name>, code: seq<Stmt>, built': set<Name>)
  {
    && Wired(blocks) && RefsExist(blocks, ns) && built <= blocks.Keys
    && var r := NodesA(blocks, ns, b, removeLabel, removeGoto, built); code == Erase(r.code) && built' == r.built
  }

  ghost predicate NodesKnown(ns: seq<HeapNode>, blocks: map<Name, Block>, known: set<CodeBlock>) {
    RefsExist(blocks, NamedAll(ns)) && forall i :: 0 <= i < |ns| ==> SubKnown(ns[i], known)
  }

  lemma SameViews(all: map<Name, CodeBlock>, known: set<CodeBlock>, views: map<Name, Block>)
    requires Indexed(all, known) && views.Keys == all.Keys && forall n :: n in all ==> all[n].View() == views[n]
    ensures Views(all, known) == views
  {
    hide CodeBlock.View;
  }

  /** What the value of a block says about the block. */
  lemma BlockFacts(b: CodeBlock, all: map<Name, CodeBlock>, known: set<CodeBlock>)
    requires Family(all, known) && b in known
    ensures Indexed(all, known) && b.name in Views(all, known) && Wired(Views(all, known))
      && Views(all, known).Keys == all.Keys
    ensures b.built <==> b.name in BuiltOf(all, known)
    ensures var v := Views(all, known)[b.name];
      && v == b.View() && v.defined == b.defined && v.entersPerName == b.entersPerName
      && (v.aliasOf.None? <==> b.aliasOf == null)
      && v.exit == (if b.exitBlock == null then None else Some(Exit(b.exitBlock.name, b.exitOrigName)))
      && v.nodes == NamedAll(b.nodes) && v.unreachableNodes == NamedAll(b.unreachableNodes)
      && (v.elseBlock == if b.elseBlock == null then None else Some(b.elseBlock.name))
    ensures b.exitBlock != null ==> b.exitBlock in known && b.exitBlock.aliasOf == null
    ensures b.elseBlock != null ==> b.elseBlock in known
    ensures NodesKnown(b.nodes, Views(all, known), known) && NodesKnown(b.unreachableNodes, Views(all, known), known)
  {
    hide AllClosed, Indexed, CodeBlock.View, RefsExist;
    IndexedName(all, known, b);
    ViewsAt(all, known);
    ViewFields(b);
    EachClosed(known);
    if b.exitBlock != null {
      IndexedName(all, known, b.exitBlock);
      ViewFields(b.exitBlock);
    }
  }

  lemma KnownTogether(ns: seq<HeapNode>, more: seq<HeapNode>, all: map<Name, CodeBlock>, known: set<CodeBlock>)
    requires Indexed(all, known) && NodesKnown(ns, Views(all, known), known)
      && NodesKnown(more, Views(all, known), known)
    ensures NodesKnown(ns + more, Views(all, known), known) && NamedAll(ns + more) == NamedAll(ns) + NamedAll(more)
  {
    hide Indexed, Views;
    NamedAllAppends(ns, more);
  }

  lemma NotRebuilt(blocks: map<Name, Block>, n: Name, removeLabel: Option<Name>, built: set<Name>)
    requires Wired(blocks) && n in blocks && blocks[n].aliasOf.None? && built <= blocks.Keys
      && (n in built || !blocks[n].defined)
    ensures IsRebuilt(blocks, n, removeLabel, built, [], built)
  {}

  lemma RebuiltAlone(blocks: map<Name, Block>, n: Name, removeLabel: Option<Name>, built: set<Name>, code: seq<Stmt>,
      built': set<Name>)
    requires Wired(blocks) && n in blocks && blocks[n].aliasOf.None? && built <= blocks.Keys && n !in built
    requires blocks[n].defined && blocks[n].exit.None?
    requires IsProcessed(blocks, blocks[n].nodes, blocks[n], removeLabel, None, built + {n}, code, built')
    ensures IsRebuilt(blocks, n, removeLabel, built, code, built')
  {
    hide Wired, RefsExist, NodesA;
  }

  lemma RebuiltWithExit(blocks: map<Name, Block>, n: Name, removeLabel: Option<Name>, built: set<Name>, tail: seq<Stmt>,
      built2: set<Name>,
                        own: seq<Stmt>, built': set<Name>)
    requires Wired(blocks) && n in blocks && blocks[n].aliasOf.None? && built <= blocks.Keys && n !in built
    requires blocks[n].defined && blocks[n].exit.Some?
    requires var exit := blocks[n].exit.value;
      && exit.to in blocks
      && var removeGoto := exit.to !in built + {n} && blocks[exit.to].defined;
      && var removeExitLabel := removeGoto && EnterCount(blocks[exit.to], exit.origName) == 1;
      && IsRebuilt(blocks, exit.to, if removeExitLabel then Some(exit.origName) else None, built + {n}, tail, built2)
      && var nodes := if blocks[exit.to].defined then blocks[n].nodes else blocks[n].nodes + blocks[n].unreachableNodes;
         IsProcessed(blocks, nodes, blocks[n], removeLabel, if removeGoto then Some(exit.origName) else None, built2,
           own, built')
    ensures IsRebuilt(blocks, n, removeLabel, built, own + tail, built')
  {
    hide Wired, RefsExist, NodesA;
    var r := RebuildA(blocks, n, removeLabel, built);
    var exit := blocks[n].exit.value;
    var removeGoto := exit.to !in built + {n} && blocks[exit.to].defined;
    var removeExitLabel := removeGoto && EnterCount(blocks[exit.to], exit.origName) == 1;
    var t := RebuildA(blocks, exit.to, if removeExitLabel then Some(exit.origName) else None, built + {n});
    var nodes := if blocks[exit.to].defined then blocks[n].nodes else blocks[n].nodes + blocks[n].unreachableNodes;
    var o := NodesA(blocks, nodes, blocks[n], removeLabel, if removeGoto then Some(exit.origName) else None, t.built);
    EraseAppends(o.code, t.code);
  }

  /** A processed node before the filter. */
  function Processed(a: AStmt): Stmt {
    match a
    case APlain(s) => Plain(s)
    case AReturn(e, implied) => Return(e, implied)
    case AGoto(l, _) => Goto(l)
    case ALabel(l, _) => Label(l)
    case AIf(c, thn, els) => If(c, Erase(thn), if els.AElse? then Else(Erase(els.stmts)) else NoElse)
    case ALoop(kind, c, body) => Loop(kind, c, Erase(body))
  }

  ghost predicate NodeProcessed(blocks: map<Name, Block>, n: Node, b: Block, removeLabel: Option<Name>,
      removeGoto: Option<Name>,
                                built: set<Name>, s: Stmt, built': set<Name>)
  {
    && Wired(blocks) && RefsExist(blocks, [n]) && built <= blocks.Keys
    && var r := NodeA(blocks, n, b, removeLabel, removeGoto, built); s == Processed(r.stmt) && built' == r.built
  }

  /** The nodes before index `i` have been processed. */
  ghost predicate Progress(blocks: map<Name, Block>, ns: seq<Node>, i: nat, b: Block, removeLabel: Option<Name>,
      removeGoto: Option<Name>,
                           built: set<Name>, code: seq<Stmt>, now: set<Name>)
  {
    && i <= |ns| && Wired(blocks) && RefsExist(blocks, ns) && RefsExist(blocks, ns[i..]) && built <= blocks.Keys
    && now <= blocks.Keys
    && var r, rest := NodesA(blocks, ns, b, removeLabel, removeGoto, built),
      NodesA(blocks, ns[i..], b, removeLabel, removeGoto, now);
       Erase(r.code) == code + Erase(rest.code) && r.built == rest.built
  }

  lemma ProgressStarts(blocks: map<Name, Block>, ns: seq<Node>, b: Block, removeLabel: Option<Name>,
      removeGoto: Option<Name>, built: set<Name>)
    requires Wired(blocks) && RefsExist(blocks, ns) && built <= blocks.Keys
    ensures Progress(blocks, ns, 0, b, removeLabel, removeGoto, built, [], built)
  {
    assert ns[0..] == ns;
  }

  lemma ProgressEnds(blocks: map<Name, Block>, ns: seq<Node>, b: Block, removeLabel: Option<Name>,
      removeGoto: Option<Name>,
                     built: set<Name>, code: seq<Stmt>, now: set<Name>)
    requires Progress(blocks, ns, |ns|, b, removeLabel, removeGoto, built, code, now)
    ensures IsProcessed(blocks, ns, b, removeLabel, removeGoto, built, code, now)
  {
    assert ns[|ns|..] == [];
  }

  lemma ProgressStep(blocks: map<Name, Block>, ns: seq<Node>, i: nat, b: Block, removeLabel: Option<Name>,
      removeGoto: Option<Name>,
                     built: set<Name>, code: seq<Stmt>, now: set<Name>)
    requires i < |ns| && Progress(blocks, ns, i, b, removeLabel, removeGoto, built, code, now)
    ensures RefsExist(blocks, [ns[i]])
    ensures var r := NodeA(blocks, ns[i], b, removeLabel, removeGoto, now);
      Progress(blocks, ns, i + 1, b, removeLabel, removeGoto, built, code + EraseStmt(r.stmt), r.built)
  {
    hide Wired;
    var rest := ns[i..];
    assert rest[0] == ns[i] && rest[1..] == ns[i + 1..];
    assert forall n :: n in [ns[i]] || n in ns[i + 1..] ==> n in rest;
    var r := NodeA(blocks, ns[i], b, removeLabel, removeGoto, now);
    var more := NodesA(blocks, ns[i + 1..], b, removeLabel, removeGoto, r.built);
    assert [r.stmt] + more.code == NodesA(blocks, rest, b, removeLabel, removeGoto, now).code;
    assert ([r.stmt] + more.code)[1..] == more.code;
  }

  lemma NodesExist(ns: seq<HeapNode>, all: map<Name, CodeBlock>, known: set<CodeBlock>)
    requires Family(all, known) && NodesKnown(ns, Views(all, known), known)
    ensures Indexed(all, known) && RefsExist(Views(all, known), NamedAll(ns)) && Views(all, known).Keys == all.Keys
  {
    ViewsAt(all, known);
  }

  lemma NodeKnown(ns: seq<HeapNode>, i: nat, all: map<Name, CodeBlock>, known: set<CodeBlock>)
    requires Indexed(all, known) && i < |ns| && NodesKnown(ns, Views(all, known), known)
    ensures NodesKnown([ns[i]], Views(all, known), known)
  {
    hide Indexed, Views;
    assert NamedAll(ns)[i] in NamedAll(ns);
    assert NamedAll([ns[i]]) == [NamedAll(ns)[i]];
  }

  /** The filter on values. */
  predicate Kept(b: Block, s: Stmt, removeLabel: Option<Name>, removeGoto: Option<Name>) {
    match s
    case Label(l) => (l in b.entersPerName ==> b.entersPerName[l] != 0) && removeLabel != Some(l)
    case Goto(l) => removeGoto != Some(l)
    case _ => true
  }

  lemma KeepsIs(b: CodeBlock, s: Stmt, removeLabel: Option<Name>, removeGotoExit: bool)
    ensures b.Keeps(s, removeLabel, removeGotoExit) ==
      Kept(b.View(), s, removeLabel, if removeGotoExit then Some(b.exitOrigName) else None)
  {}

  /** One node processed and filtered. */
  lemma FilteredStep(blocks: map<Name, Block>, ns: seq<Node>, i: nat, b: Block, removeLabel: Option<Name>,
      removeGoto: Option<Name>,
                     built: set<Name>, code: seq<Stmt>, now: set<Name>, s: Stmt, built': set<Name>)
    requires i < |ns| && Progress(blocks, ns, i, b, removeLabel, removeGoto, built, code, now)
    requires NodeProcessed(blocks, ns[i], b, removeLabel, removeGoto, now, s, built')
    ensures Progress(blocks, ns, i + 1, b, removeLabel, removeGoto, built,
      if Kept(b, s, removeLabel, removeGoto) then code + [s] else code, built')
  {
    hide Progress, Wired;
    ProgressStep(blocks, ns, i, b, removeLabel, removeGoto, built, code, now);
    assert ns[i] in [ns[i]];
    var r := NodeA(blocks, ns[i], b, removeLabel, removeGoto, now);
    assert EraseStmt(r.stmt) == if Kept(b, s, removeLabel, removeGoto) then [s] else [];
    assert code + [] == code;
  }

  lemma SimpleProcessed(node: HeapNode, b: Block, removeLabel: Option<Name>, removeGoto: Option<Name>,
                        all: map<Name, CodeBlock>, known: set<CodeBlock>)
    requires Family(all, known) && NodesKnown([node], Views(all, known), known) && !node.NIf? && !node.NLoop?
    ensures var views, built := Views(all, known), BuiltOf(all, known);
      && Wired(views) && RefsExist(views, [Named(node)]) && built <= views.Keys
      && NodeProcessed(views, Named(node), b, removeLabel, removeGoto, built,
        Processed(NodeA(views, Named(node), b, removeLabel, removeGoto, built).stmt), built)
  {
    hide Indexed, AllClosed, Wired;
    ViewsAt(all, known);
    assert NamedAll([node]) == [Named(node)];
  }

  /** The nested blocks of a node can be rebuilt. */
  lemma SubIsLive(node: HeapNode, all: map<Name, CodeBlock>, known: set<CodeBlock>)
    requires Family(all, known) && NodesKnown([node], Views(all, known), known) && (node.NIf? || node.NLoop?)
    ensures node.sub in known && node.sub.aliasOf == null
    ensures node.sub.elseBlock != null ==> node.sub.elseBlock in known && node.sub.elseBlock.aliasOf == null
    ensures var views, n := Views(all, known), Named(node);
      && Wired(views) && RefsExist(views, [n]) && BuiltOf(all, known) <= views.Keys
      && views[n.sub].elseBlock == (if node.sub.elseBlock == null then None else Some(node.sub.elseBlock.name))
  {
    hide Indexed, AllClosed, Wired;
    ViewsAt(all, known);
    assert NamedAll([node]) == [Named(node)];
    assert Named(node) in [Named(node)];
    BlockFacts(node.sub, all, known);
    if node.sub.elseBlock != null {
      BlockFacts(node.sub.elseBlock, all, known);
    }
  }

  lemma LoopProcessed(blocks: map<Name, Block>, n: Node, b: Block, removeLabel: Option<Name>, removeGoto: Option<Name>,
                      built: set<Name>, body: seq<Stmt>, built': set<Name>)
    requires Wired(blocks) && RefsExist(blocks, [n]) && built <= blocks.Keys && n.NLoop?
    requires IsRebuilt(blocks, n.sub, None, built, body, built')
    ensures NodeProcessed(blocks, n, b, removeLabel, removeGoto, built, Loop(n.kind, n.cond, body), built')
  {
    hide Wired, RebuildA;
    assert n in [n];
  }

  lemma IfProcessed(blocks: map<Name, Block>, n: Node, b: Block, removeLabel: Option<Name>, removeGoto: Option<Name>,
                    built: set<Name>, thn: seq<Stmt>, built1: set<Name>, els: seq<Stmt>, built': set<Name>)
    requires Wired(blocks) && RefsExist(blocks, [n]) && built <= blocks.Keys && n.NIf? && n.sub in blocks
    requires IsRebuilt(blocks, n.sub, None, built, thn, built1)
    requires match blocks[n.sub].elseBlock
             case None => built' == built1
             case Some(e) => IsRebuilt(blocks, e, None, built1, els, built')
    ensures NodeProcessed(blocks, n, b, removeLabel, removeGoto, built,
                          If(n.cond, thn, if blocks[n.sub].elseBlock.Some? then Else(els) else NoElse), built')
  {
    hide Wired, RebuildA;
    assert n in [n];
  }
}
