/**
 The visitor of `ControlFlowVisitor.php` on the objects it updates. In the fragment no check fails, and
 every step does to the objects what the step of the `CodeBlocks` module does to the state.
 */
module ControlFlowVisitor {
  import opened Wrappers
  import opened PhpCode
  import opened CodeBlocks
  import opened BlockInvariant
  import opened HeapBlocks
  import opened HeapScope
  import opened VisitorShape
  import opened BlockNames
  import opened BlockVisits
  import opened BodyVisits
  import opened LabelVisits
  import opened Annotated
  import opened Rebuild
  import opened BlockCode
  import opened Accounting
  import opened TopVisits
  import opened GotoElimination
  import FinishedBlocks

  /** The checks of `append` and `setExit` pass on the current block. */
  ghost predicate CurrentOpen(scope: LabelScope)
    requires scope.Valid()
    reads scope, scope.known
  {
    scope.currentBlock.aliasOf == null && (scope.currentBlock.exitBlock != null ==> scope.currentBlock.unreachable)
  }

  class Visitor {
    const scope: LabelScope

    /** `beforeTraverse` */
    constructor ()
      ensures scope.Valid() && scope.Abs() == InitialState() && Unbuilt(scope) && fresh(scope) && fresh(scope.known)
    {
      hide Indexed, AllClosed, Views, CodeBlock.View, CodeBlock.Closed;
      var root := new CodeBlock(MAIN);
      scope := new LabelScope(root);
    }

    method Append(node: HeapNode)
      requires scope.Valid() && CurrentOpen(scope) && SubKnown(node, scope.known)
      modifies scope.known`nodes, scope.known`unreachableNodes
      ensures scope.Valid() && scope.Abs() == CodeBlocks.Append(old(scope.Abs()), Named(node))
    {
      hide Indexed, AllClosed, Views, ClosedOf, ViewOf, AppendedFields, CodeBlock.Fields;
      var b := scope.currentBlock;
      ghost var all, known, was := scope.All(), scope.known, scope.Abs().blocks;
      CurrentView(scope);
      Before(all, known, b);
      ghost var f := b.Fields();
      var ok := b.Append(node);
      assert ok;
      AppendedView(f, b.exitBlock != null && !b.exitBlock.defined, node, known);
      ClosedPut(known, b);
      ViewsPut(all, known, was, b);
    }

    method SetUnreachable()
      requires scope.Valid()
      modifies scope.known`unreachable
      ensures scope.Valid() && scope.Abs() == CodeBlocks.SetUnreachable(old(scope.Abs()))
    {
      hide Indexed, AllClosed, Views, ClosedOf, ViewOf, CodeBlock.Fields;
      var b := scope.currentBlock;
      ghost var all, known, was := scope.All(), scope.known, scope.Abs().blocks;
      ghost var f := b.Fields();
      Before(all, known, b);
      CurrentView(scope);
      b.SetUnreachable();
      UnreachableView(f, known);
      ClosedPut(known, b);
      ViewsPut(all, known, was, b);
    }

    /** `moveInto` */
    method MoveInto(to: CodeBlock)
      requires scope.Valid() && CurrentOpen(scope) && AliasesEnd(scope.known, scope.clock) && to in scope.known
      modifies scope.known`exitBlock, scope.known`exitOrigName, scope.known`enters, scope.known`enterByName,
        scope.known`entersPerName
      ensures scope.Valid() && scope.Abs() == CodeBlocks.MoveInto(old(scope.Abs()), to.name)
    {
      hide Indexed, AllClosed, Views, CodeBlock.View, CodeBlock.Closed, LabelScope.Valid, LabelScope.Abs,
        CodeBlocks.Root, AliasesEnd, RootOf;
      var from := scope.currentBlock;
      CurrentView(scope);
      CurrentIsKnown(scope);
      if !from.unreachable {
        RootIsSame(scope, to);
        ghost var st := scope.Abs();
        SetExit(to);
        EnterRoot(to);
        assert scope.Abs() == CodeBlocks.MoveInto(st, to.name);
      }
    }

    method SetExit(to: CodeBlock)
      requires scope.Valid() && AliasesEnd(scope.known, scope.clock) && to in scope.known
      requires scope.currentBlock.exitBlock == null && scope.currentBlock.aliasOf == null
      modifies scope.known`exitBlock, scope.known`exitOrigName
      ensures scope.Valid() && AliasesEnd(scope.known, scope.clock)
      ensures scope.Abs() == var st, r := old(scope.Abs()), RootOf(to, scope.known, scope.clock).name;
        Put(st, st.current, Current(st).(exit := Some(Exit(r, to.name))))
    {
      hide Indexed, AllClosed, Views, ClosedOf, ViewOf, CodeBlock.Fields, RootOf;
      var b := scope.currentBlock;
      ghost var all, known, was := scope.All(), scope.known, scope.Abs().blocks;
      ghost var f := b.Fields();
      Before(all, known, b);
      CurrentView(scope);
      var ok := b.SetExit(to, scope.known, scope.clock);
      assert ok;
      ExitedView(f, RootOf(to, known, scope.clock), to.name, known);
      ClosedPut(known, b);
      ViewsPut(all, known, was, b);
    }

    method EnterRoot(to: CodeBlock)
      requires scope.Valid() && AliasesEnd(scope.known, scope.clock) && to in scope.known
      modifies scope.known`enters, scope.known`enterByName, scope.known`entersPerName
      ensures scope.Valid() && AliasesEnd(scope.known, scope.clock)
      ensures scope.Abs() == var st, r := old(scope.Abs()), RootOf(to, scope.known, scope.clock).name;
        Put(st, r, EnterBlock(Get(st, r), st.current, to.name))
    {
      hide Indexed, AllClosed, Views, ClosedOf, ViewOf, CodeBlock.Fields, EnteredFields, EnterBlock;
      var from := scope.currentBlock;
      ghost var all, known, was := scope.All(), scope.known, scope.Abs().blocks;
      ghost var r := RootOf(to, known, scope.clock);
      Before(all, known, r);
      ghost var f := r.Fields();
      to.Enter(from, None, scope.known, scope.clock);
      EnteredView(f, from, to.name, known);
      ClosedPut(known, r);
      ViewsPut(all, known, was, r);
    }

    method SetAlias(to: CodeBlock)
      requires scope.Valid() && CurrentOpen(scope) && to in scope.known
      requires var b := scope.currentBlock;
        && b.exitBlock == null && b.nested == [] && IsEmpty(b.View()) && to != b && to.aliasOf == null
        && to !in b.Enterers()
        && b !in b.Enterers() && (forall m :: m in b.enters ==> b.enters[m].exitBlock != null)
      modifies scope.known`aliasOf, scope.known`enters, scope.known`enterByName, scope.known`entersPerName
      modifies scope.known`unreachable, scope.known`nodes, scope.known`exitBlock
      ensures scope.Valid() && scope.Abs() == CodeBlocks.SetAlias(old(scope.Abs()), to.name)
    {
      hide Indexed, AllClosed, Views, ClosedOf, ViewOf, TakenOver, MergeEnters, CodeBlocks.IsEmpty, CodeBlocks.SetAlias,
        CodeBlock.EntersOk, CodeBlock.Fields;
      var b := scope.currentBlock;
      ghost var all, known, st := scope.All(), scope.known, scope.Abs();
      CurrentView(scope);
      Before(all, known, b);
      Before(all, known, to);
      ghost var enterers, f, g, was := b.enters, b.Fields(), to.Fields(), st.blocks;
      EnterersKnown(all, b, known);
      PureAliasReady(all, known, b, to);
      Redirections(all, known, b, to, was);
      AliasedSelf(f, to, known);
      AliasedOther(f, g, known);
      var ok := b.SetAlias(to);
      assert ok;
      assert b.Closed(known) && to.Closed(known);
      forall n | n in all && n != b.name && n != to.name
        ensures all[n].Closed(known)
        ensures if n in enterers then all[n].View() == was[n].(exit := Some(was[n].exit.value.(to := to.name)))
          else all[n].View() == was[n]
      {
        if n in enterers {
          assert all[n].Fields() == old(all[n].Fields()).(exitBlock := to);
        } else {
          assert all[n].Fields() == old(all[n].Fields());
        }
      }
      EveryClosed(all, known);
      AliasViews(all, known, was, b, to);
      AliasStep(st, Views(all, known), to.name);
    }

    /** `setDefined` */
    method Define(b: CodeBlock)
      requires scope.Valid() && b in scope.known
      modifies scope.known`defined, scope.known`defAt, scope`clock
      ensures scope.Valid() && scope.Abs() == CodeBlocks.SetDefined(old(scope.Abs()), b.name)
    {
      hide Views, LabelScope.Valid;
      DefineBlock(b);
      Tick();
    }

    method DefineBlock(b: CodeBlock)
      requires scope.Valid() && b in scope.known
      modifies scope.known`defined, scope.known`defAt
      ensures scope.Valid()
      ensures scope.Abs() == var st := old(scope.Abs());
        Put(st, b.name, Get(st, b.name).(defined := true, defAt := st.clock + 1))
    {
      hide Indexed, AllClosed, Views, ClosedOf, ViewOf, CodeBlock.Fields;
      ghost var all, known, was := scope.All(), scope.known, scope.Abs().blocks;
      ghost var f := b.Fields();
      Before(all, known, b);
      b.SetDefined(scope.clock + 1);
      DefinedView(f, scope.clock + 1, known);
      ClosedPut(known, b);
      ViewsPut(all, known, was, b);
    }

    ghost method Tick()
      requires scope.Valid()
      modifies scope`clock
      ensures scope.Valid() && scope.Abs() == var st := old(scope.Abs()); st.(clock := st.clock + 1)
    {
      hide Views, Indexed, AllClosed;
      scope.clock := scope.clock + 1;
    }

    /** `addNested` */
    method AddNested(inner: CodeBlock)
      requires scope.Valid() && scope.currentBlock.aliasOf == null && inner in scope.known
      modifies scope.known`nested
      ensures scope.Valid() && scope.Abs() == var st := old(scope.Abs());
        Put(st, st.current, Current(st).(nested := Current(st).nested + [inner.name]))
    {
      hide Indexed, AllClosed, Views, ClosedOf, ViewOf;
      var b := scope.currentBlock;
      ghost var all, known, was := scope.All(), scope.known, scope.Abs().blocks;
      ghost var f := b.Fields();
      CurrentView(scope);
      Before(all, known, b);
      var ok := b.AddNested(inner);
      assert ok;
      NestedView(f, inner, known);
      ClosedPut(known, b);
      ViewsPut(all, known, was, b);
    }

    /** The bookkeeping of a nested block. */
    ghost method SetHome(b: CodeBlock, home: Option<Home>, inLoop: bool)
      requires scope.Valid() && b in scope.known
      modifies scope.known`home, scope.known`inLoop
      ensures scope.Valid() && scope.Abs() == var st := old(scope.Abs());
        Put(st, b.name, Get(st, b.name).(home := home, inLoop := inLoop))
    {
      hide Indexed, AllClosed, Views, ClosedOf, ViewOf;
      ghost var all, known, was := scope.All(), scope.known, scope.Abs().blocks;
      ghost var f := b.Fields();
      Before(all, known, b);
      b.home, b.inLoop := home, inLoop;
      HomeView(f, home, inLoop, known);
      ClosedPut(known, b);
      ViewsPut(all, known, was, b);
    }

    /** The attribute that tells which block belongs to an `else`. */
    method SetElse(sub: CodeBlock, eb: CodeBlock)
      requires scope.Valid() && sub in scope.known && eb in scope.known
      modifies scope.known`elseBlock
      ensures scope.Valid() && scope.Abs() == var st := old(scope.Abs());
        Put(st, sub.name, Get(st, sub.name).(elseBlock := Some(eb.name)))
    {
      hide Indexed, AllClosed, Views, ClosedOf, ViewOf;
      ghost var all, known, was := scope.All(), scope.known, scope.Abs().blocks;
      ghost var f := sub.Fields();
      Before(all, known, sub);
      sub.elseBlock := eb;
      ElseView(f, eb, known);
      ClosedPut(known, sub);
      ViewsPut(all, known, was, sub);
    }

    // ---- Visits -----------------------------------------------------------------------------------

    /** `enterNode` of a goto. */
    method EnterGoto(l: Name)
      requires scope.Valid() && Unbuilt(scope) && Shaped(scope.Abs()) && l != MAIN
      modifies scope, scope.known
      ensures scope.Valid() && scope.Abs() == CodeBlocks.EnterGoto(old(scope.Abs()), l)
      ensures BlocksAdded(scope, old(scope.known)) && fresh(scope.known - old(scope.known))
    {
      hide LabelScope.Valid, LabelScope.Abs, Shaped, CodeBlocks.Append, CodeBlocks.MoveInto, CodeBlocks.GetBlock;
      ghost var st := scope.Abs();
      AppendShaped(st, NGoto(l));
      GetBlockShaped(CodeBlocks.Append(st, NGoto(l)), l);
      ShapedHeap(scope);
      Append(NGoto(l));
      var block := scope.GetBlock(l);
      ShapedHeap(scope);
      MoveInto(block);
      SetUnreachable();
    }

    /** `enterNode` of a label. */
    method EnterLabel(l: Name)
      requires scope.Valid() && Unbuilt(scope) && StateOk(scope.Abs()) && Unvisited(scope.Abs(), l) && l != MAIN
        && l != scope.Abs().current
      requires IsEmpty(Current(scope.Abs())) ==> Current(scope.Abs()).nested == []
      modifies scope, scope.known
      ensures scope.Valid() && scope.Abs() == CodeBlocks.EnterLabel(old(scope.Abs()), l)
      ensures BlocksAdded(scope, old(scope.known)) && fresh(scope.known - old(scope.known))
    {
      hide LabelScope.Valid, LabelScope.Abs, Shaped, StateOk, CodeBlocks.Append, CodeBlocks.MoveInto,
        CodeBlocks.SetAlias, CodeBlocks.GetBlock, Unvisited;
      hide CodeBlocks.IsEmpty, Root, CurrentOpen, SetDefined, BlocksAdded, Unbuilt, CodeBlock.View, ViewOf,
        CodeBlocks.EnterLabel;
      ghost var st := scope.Abs();
      EnterLabelSteps(st, l);
      var block := DefineLabel(l);
      CurrentView(scope);
      var empty := scope.currentBlock.IsEmpty();
      if empty {
        EmptyIsOpen(st);
        ToAlias(block);
      } else {
        RunOn(block);
      }
      SwitchTo(block);
      Append(NLabel(l));
    }

    method DefineLabel(l: Name) returns (block: CodeBlock)
      requires scope.Valid() && Unbuilt(scope) && StateOk(scope.Abs()) && Unvisited(scope.Abs(), l) && l != MAIN
        && l != scope.Abs().current
      modifies scope, scope.known`defined, scope.known`defAt
      ensures scope.Valid() && scope.Abs() == SetDefined(CodeBlocks.GetBlock(old(scope.Abs()), l), l)
      ensures block in scope.known && block.name == l && scope.known <= old(scope.known) + {block}
      ensures BlocksAdded(scope, old(scope.known)) && fresh(scope.known - old(scope.known))
      ensures Shaped(scope.Abs()) && scope.Abs().current == old(scope.Abs()).current
        && Current(scope.Abs()) == old(Current(scope.Abs()))
    {
      hide LabelScope.Valid, LabelScope.Abs, Shaped, StateOk, CodeBlocks.GetBlock, Unvisited;
      DefinedShaped(scope.Abs(), l);
      block := scope.GetBlock(l);
      Define(block);
    }

    method ToAlias(block: CodeBlock)
      requires scope.Valid() && Shaped(scope.Abs()) && block in scope.known && block.name != scope.Abs().current
        && block.name in scope.Abs().blocks
      requires var t := scope.Abs().blocks[block.name];
        t.aliasOf.None? && t.exit.None? && Current(scope.Abs()).defAt < t.defAt <= scope.Abs().clock
      requires var b := Current(scope.Abs());
        && b.exit.None? && b.nested == [] && IsEmpty(b) && scope.Abs().current !in b.enters
        && forall m :: m in b.enters ==> m in scope.Abs().blocks && scope.Abs().blocks[m].exit.Some?
      modifies scope.known`aliasOf, scope.known`enters, scope.known`enterByName, scope.known`entersPerName
      modifies scope.known`unreachable, scope.known`nodes, scope.known`exitBlock
      ensures scope.Valid() && scope.Abs() == CodeBlocks.SetAlias(old(scope.Abs()), block.name)
      ensures Root(scope.Abs(), block.name) == block.name && Shaped(scope.Abs().(current := block.name))
    {
      hide LabelScope.Valid, LabelScope.Abs, Shaped, CodeBlocks.SetAlias, CodeBlocks.IsEmpty, Root;
      ShapedHeap(scope);
      AliasShaped(scope.Abs(), block.name);
      AliasHeap(scope, block);
      SetAlias(block);
    }

    method RunOn(block: CodeBlock)
      requires scope.Valid() && Shaped(scope.Abs()) && block in scope.known && block.name != scope.Abs().current
        && block.name in scope.Abs().blocks
      requires var t := scope.Abs().blocks[block.name]; t.aliasOf.None? && t.exit.None?
      modifies scope.known`nodes, scope.known`unreachableNodes
      modifies scope.known`exitBlock, scope.known`exitOrigName, scope.known`enters, scope.known`enterByName,
        scope.known`entersPerName
      ensures scope.Valid() && scope.Abs() ==
        CodeBlocks.MoveInto(CodeBlocks.Append(old(scope.Abs()), NGoto(block.name)), block.name)
      ensures Root(scope.Abs(), block.name) == block.name && Shaped(scope.Abs().(current := block.name))
    {
      hide LabelScope.Valid, LabelScope.Abs, Shaped, CodeBlocks.Append, CodeBlocks.MoveInto, Root;
      ShapedHeap(scope);
      MovedShaped(scope.Abs(), block.name);
      AppendShaped(scope.Abs(), NGoto(block.name));
      Append(NGoto(block.name));
      ShapedHeap(scope);
      MoveInto(block);
    }

    /** The block of a label becomes the current one. */
    method SwitchTo(block: CodeBlock)
      requires scope.Valid() && block in scope.known && Root(scope.Abs(), block.name) == block.name
      requires Shaped(scope.Abs().(current := block.name))
      modifies scope`currentBlock
      ensures scope.Valid() && scope.Abs() == old(scope.Abs()).(current := Root(old(scope.Abs()), block.name))
        && CurrentOpen(scope)
    {
      hide Root, Shaped, AliasesEnd, CurrentOpen, LabelScope.Valid, Views, RootOf;
      AliasesHeap(scope, block.name);
      RootIsSame(scope, block);
      RootKnown(scope, block);
      var r := block.Root(scope.known, scope.clock);
      SetCurrent(r);
      ShapedHeap(scope);
    }

    method SetCurrent(r: CodeBlock)
      requires scope.Valid() && r in scope.known
      modifies scope`currentBlock
      ensures scope.Valid() && scope.Abs() == old(scope.Abs()).(current := r.name)
    {
      hide Views, Indexed, AllClosed;
      scope.currentBlock := r;
    }

    method Push()
      requires scope.Valid()
      modifies scope`blockStack, scope`counter
      ensures scope.Valid()
      ensures scope.Abs() == var st := old(scope.Abs());
        st.(stack := st.stack + [st.current], counter := st.counter + 1)
    {
      hide Views, Indexed, AllClosed;
      scope.blockStack := scope.blockStack + [scope.currentBlock];
      scope.counter := scope.counter + 1;
    }

    /** `popStack` */
    method PopStack()
      requires scope.Valid() && scope.Abs().stack != []
      modifies scope`blockStack, scope`currentBlock
      ensures scope.Valid() && scope.Abs() == CodeBlocks.PopStack(old(scope.Abs()))
    {
      hide Views, Indexed, AllClosed;
      var top := |scope.blockStack| - 1;
      scope.currentBlock := scope.blockStack[top];
      scope.blockStack := scope.blockStack[..top];
    }

    /** The rest of `makeNested`, when the new block has been made. */
    method OpenNested(sub: CodeBlock, ghost home: Option<Home>, ghost inLoop: bool)
      requires scope.Valid() && CurrentOpen(scope) && sub in scope.known
      modifies scope`blockStack, scope`counter, scope`clock, scope`currentBlock
      modifies scope.known`home, scope.known`inLoop, scope.known`defined, scope.known`defAt, scope.known`nested
      ensures scope.Valid() && scope.Abs() == OpenedBy(old(scope.Abs()), sub.name, home, inLoop)
    {
      hide LabelScope.Valid, LabelScope.Abs, SetDefined;
      Push();
      SetHome(sub, home, inLoop);
      Define(sub);
      AddNested(sub);
      SetCurrent(sub);
    }

    /** `enterNode` of a statement with a body. The node gets its block when it is appended. */
    method EnterNested(node: Node, key: string)
      requires scope.Valid() && Unbuilt(scope) && StateOk(scope.Abs()) && IsNested(node)
      requires node.sub == MkName(scope.Abs().current, key, scope.Abs().counter) && node.sub !in scope.Abs().blocks
        && node.sub != MAIN
      modifies scope, scope.known
      ensures scope.Valid() && scope.Abs() == CodeBlocks.EnterNested(old(scope.Abs()), node, key)
      ensures BlocksAdded(scope, old(scope.known)) && fresh(scope.known - old(scope.known))
    {
      hide LabelScope.Valid, LabelScope.Abs, Shaped, StateOk, CodeBlocks.Append, CodeBlocks.GetBlock, OpenedBy,
        CodeBlocks.EnterNested, CurrentOpen, MkName, Current, NextHome, AliasesEnd;
      ghost var st := scope.Abs();
      OkIsShaped(st);
      NestedSteps(st, node, key);
      GetBlockShaped(st, node.sub);
      AppendShaped(CodeBlocks.GetBlock(st, node.sub), node);
      var sub := scope.GetBlock(node.sub);
      ShapedHeap(scope);
      Append(WithBlock(node, sub));
      ShapedHeap(scope);
      OpenNested(sub, NextHome(st), Current(st).inLoop || node.NLoop?);
    }

    /** `enterNode` of an `else`; the current block is the one of its `if`. */
    method EnterElse()
      requires scope.Valid() && Unbuilt(scope) && StateOk(scope.Abs())
      requires var st := scope.Abs();
        && Current(st).elseBlock.None? && Current(st).home.Some?
        && MkName(st.current, ELSE_KEY, st.counter) !in st.blocks && MkName(st.current, ELSE_KEY, st.counter) != MAIN
      modifies scope, scope.known
      ensures scope.Valid() && scope.Abs() == CodeBlocks.EnterElse(old(scope.Abs()), old(scope.Abs()).current)
      ensures BlocksAdded(scope, old(scope.known)) && fresh(scope.known - old(scope.known))
    {
      hide LabelScope.Valid, LabelScope.Abs, Shaped, StateOk, CodeBlocks.Append, CodeBlocks.GetBlock, OpenedBy,
        CodeBlocks.EnterElse, CurrentOpen;
      ghost var st := scope.Abs();
      OkIsShaped(st);
      CurrentView(scope);
      CurrentIsKnown(scope);
      ElseSteps(st);
      GetBlockShaped(st, MkName(st.current, ELSE_KEY, st.counter));
      var sub := scope.currentBlock;
      NamesAndCounter(scope);
      var eb := scope.GetBlock(MkName(sub.name, ELSE_KEY, scope.counter));
      ShapedHeap(scope);
      OpenNested(eb, Current(st).home, Current(st).inLoop);
      SetElse(sub, eb);
    }

    /** The traversal of statements without labels. */
    method VisitAll(ss: seq<Stmt>, ghost inLoop: bool, ghost labels: set<Name>)
      requires scope.Valid() && Unbuilt(scope) && Ready(scope.Abs(), labels) && LabelNames(labels)
      requires BodyOk(ss, inLoop, labels) && Current(scope.Abs()).inLoop == inLoop
      modifies scope, scope.known
      ensures scope.Valid() && scope.Abs() == CodeBlocks.VisitAll(old(scope.Abs()), ss)
      ensures BlocksAdded(scope, old(scope.known)) && fresh(scope.known - old(scope.known))
      decreases ss, 0
    {
      hide LabelScope.Valid, LabelScope.Abs, Ready, LabelNames, CodeBlocks.Visit;
      for i := 0 to |ss|
        invariant scope.Valid() && Ready(scope.Abs(), labels) && BodyOk(ss[i..], inLoop, labels)
          && Current(scope.Abs()).inLoop == inLoop
        invariant CodeBlocks.VisitAll(scope.Abs(), ss[i..]) == CodeBlocks.VisitAll(old(scope.Abs()), ss)
        invariant BlocksAdded(scope, old(scope.known)) && fresh(scope.known - old(scope.known))
      {
        ghost var st := scope.Abs();
        assert ss[i..][0] == ss[i] && ss[i..][1..] == ss[i + 1..];
        VisitStmt(st, ss[i], inLoop, labels);
        VisitedStays(st, CodeBlocks.Visit(st, ss[i]), [ss[i]], labels);
        VisitedGrew(st, CodeBlocks.Visit(st, ss[i]), [ss[i]], labels);
        Visit(ss[i], inLoop, labels);
      }
    }

    method Visit(s: Stmt, ghost inLoop: bool, ghost labels: set<Name>)
      requires scope.Valid() && Unbuilt(scope) && Ready(scope.Abs(), labels) && LabelNames(labels)
      requires BodyStmtOk(s, inLoop, labels) && Current(scope.Abs()).inLoop == inLoop
      modifies scope, scope.known
      ensures scope.Valid() && scope.Abs() == CodeBlocks.Visit(old(scope.Abs()), s)
      ensures BlocksAdded(scope, old(scope.known)) && fresh(scope.known - old(scope.known))
      decreases s, 1
    {
      hide LabelScope.Valid, LabelScope.Abs, Ready, LabelNames, CurrentOpen, Shaped, StateOk, CodeBlocks.Append,
        CodeBlocks.EnterGoto;
      ReadyToVisit(scope, labels);
      match s
      case Plain(x) =>
        Append(NPlain(x));
      case Return(e, implied) =>
        Append(NReturn(e, implied));
        SetUnreachable();
      case Goto(l) =>
        EnterGoto(l);
      case If(c, thn, els) =>
        VisitIf(c, thn, els, inLoop, labels);
      case Loop(kind, c, body) =>
        VisitLoop(kind, c, body, inLoop, labels);
    }

    method VisitLoop(kind: LoopKind, c: Expr, body: seq<Stmt>, ghost inLoop: bool, ghost labels: set<Name>)
      requires scope.Valid() && Unbuilt(scope) && Ready(scope.Abs(), labels) && LabelNames(labels)
        && BodyOk(body, true, labels)
      modifies scope, scope.known
      ensures scope.Valid() && scope.Abs() == CodeBlocks.Visit(old(scope.Abs()), Loop(kind, c, body))
      ensures BlocksAdded(scope, old(scope.known)) && fresh(scope.known - old(scope.known))
      decreases body, 1
    {
      hide LabelScope.Valid, LabelScope.Abs, Ready, LabelNames, CodeBlocks.EnterNested, CodeBlocks.VisitAll, StateOk,
        BodyOk;
      ghost var st := scope.Abs();
      NamesAndCounter(scope);
      var sub := MkName(scope.currentBlock.name, LoopKey(kind), scope.counter);
      var node := NLoop(kind, c, sub);
      BodyOpens(st, node, LoopKey(kind), body, true, labels);
      EnterNested(node, LoopKey(kind));
      VisitAll(body, true, labels);
      PopStack();
      assert CodeBlocks.Visit(st, Loop(kind, c, body)) ==
        CodeBlocks.PopStack(CodeBlocks.VisitAll(CodeBlocks.EnterNested(st, node, LoopKey(kind)), body));
    }

    method VisitIf(c: Expr, thn: seq<Stmt>, els: Else, ghost inLoop: bool, ghost labels: set<Name>)
      requires scope.Valid() && Unbuilt(scope) && Ready(scope.Abs(), labels) && LabelNames(labels)
        && Current(scope.Abs()).inLoop == inLoop
      requires BodyOk(thn, inLoop, labels) && (els.Else? ==> BodyOk(els.stmts, inLoop, labels))
      modifies scope, scope.known
      ensures scope.Valid() && scope.Abs() == CodeBlocks.Visit(old(scope.Abs()), If(c, thn, els))
      ensures BlocksAdded(scope, old(scope.known)) && fresh(scope.known - old(scope.known))
      decreases If(c, thn, els), 0
    {
      hide LabelScope.Valid, LabelScope.Abs, Ready, LabelNames, CodeBlocks.EnterNested, CodeBlocks.EnterElse,
        CodeBlocks.VisitAll, StateOk, BodyOk;
      ghost var st := scope.Abs();
      NamesAndCounter(scope);
      var sub := MkName(scope.currentBlock.name, IF_KEY, scope.counter);
      var node := NIf(c, sub);
      BodyOpens(st, node, IF_KEY, thn, inLoop, labels);
      EnterNested(node, IF_KEY);
      VisitAll(thn, inLoop, labels);
      if els.Else? {
        VisitElse(els.stmts, inLoop, labels);
      }
      PopStack();
      assert CodeBlocks.Visit(st, If(c, thn, els)) ==
        var st2 := CodeBlocks.VisitAll(CodeBlocks.EnterNested(st, node, IF_KEY), thn);
        CodeBlocks.PopStack(if els.Else?
          then CodeBlocks.PopStack(CodeBlocks.VisitAll(CodeBlocks.EnterElse(st2, sub), els.stmts)) else st2);
    }

    method VisitElse(ss: seq<Stmt>, ghost inLoop: bool, ghost labels: set<Name>)
      requires scope.Valid() && Unbuilt(scope) && Ready(scope.Abs(), labels) && LabelNames(labels)
        && Current(scope.Abs()).inLoop == inLoop
      requires BodyOk(ss, inLoop, labels) && Current(scope.Abs()).elseBlock.None? && Current(scope.Abs()).home.Some?
      modifies scope, scope.known
      ensures scope.Valid()
      ensures scope.Abs() == CodeBlocks.PopStack(CodeBlocks.VisitAll(CodeBlocks.EnterElse(old(scope.Abs()),
        old(scope.Abs()).current), ss))
      ensures scope.Abs().stack == old(scope.Abs()).stack
      ensures BlocksAdded(scope, old(scope.known)) && fresh(scope.known - old(scope.known))
      decreases ss, 1
    {
      hide LabelScope.Valid, LabelScope.Abs, Ready, LabelNames, CodeBlocks.EnterElse, CodeBlocks.VisitAll, StateOk;
      ElseOpens(scope.Abs(), ss, inLoop, labels);
      EnterElse();
      VisitAll(ss, inLoop, labels);
      PopStack();
    }

    /** The traversal of a whole program, the implied return at its end included. */
    method Traverse(src: seq<Stmt>)
      requires scope.Valid() && Unbuilt(scope) && scope.Abs() == InitialState() && InFragment(src)
      modifies scope, scope.known
      ensures scope.Valid() && scope.Abs() == Build(src) && BlocksAdded(scope, old(scope.known))
        && fresh(scope.known - old(scope.known))
    {
      hide LabelScope.Valid, LabelScope.Abs, TopInv, InFragment, CodeBlocks.Visit, InitialState, Unbuilt;
      var p := src + [IMPLIED_RETURN];
      WholeInFragment(src);
      FinishedBlocks.InitialTop(p);
      ghost var starts: Starts := map[MAIN := 0];
      assert p[0..] == p;
      for i := 0 to |p|
        invariant scope.Valid() && TopInv(scope.Abs(), p, i, starts)
          && CodeBlocks.VisitAll(scope.Abs(), p[i..]) == Build(src)
        invariant BlocksAdded(scope, old(scope.known)) && fresh(scope.known - old(scope.known))
      {
        assert p[i..][0] == p[i] && p[i..][1..] == p[i + 1..];
        starts := VisitTop(p, i, starts);
      }
    }

    method VisitTop(p: seq<Stmt>, i: nat, ghost starts: Starts) returns (ghost starts': Starts)
      requires scope.Valid() && Unbuilt(scope) && InFragment(p) && i < |p| && TopInv(scope.Abs(), p, i, starts)
      modifies scope, scope.known
      ensures scope.Valid() && scope.Abs() == CodeBlocks.Visit(old(scope.Abs()), p[i])
        && TopInv(scope.Abs(), p, i + 1, starts')
      ensures BlocksAdded(scope, old(scope.known)) && fresh(scope.known - old(scope.known))
    {
      hide LabelScope.Valid, LabelScope.Abs, TopInv, InFragment, Unbuilt, BlocksAdded, CodeBlocks.EnterLabel, IsEmpty,
        StateOk, Unvisited, Ready;
      if p[i].Label? {
        LabelCanBeVisited(scope.Abs(), p, i, starts);
        starts' := LabelKeepsTop(scope.Abs(), p, i, starts);
        EnterLabel(p[i].name);
      } else {
        StmtCanBeVisited(scope.Abs(), p, i, starts);
        StmtKeepsTop(scope.Abs(), p, i, starts);
        starts' := starts;
        Visit(p[i], false, TopNames(p));
      }
    }

    /** `rebuildAndTrim` */
    method RebuildAndTrim(ghost src: seq<Stmt>) returns (code: seq<Stmt>)
      requires InFragment(src) && scope.Valid() && Unbuilt(scope) && scope.Abs() == Build(src)
      modifies scope.known`built
      ensures code == Eliminated(src)
    {
      hide LabelScope.Abs, InFragment, Build, Indexed, AllClosed, Views, CodeBlock.View, Represents, LabelScope.Valid,
        IsRebuilt, Family, Root, RootOf, AliasesEnd;
      hide BlocksOk, WellBuilt;
      var _ := BuildRepresents(src);
      ghost var all, known, blocks := scope.All(), scope.known, scope.Abs().blocks;
      RootCanBeRebuilt(scope, src);
      var root := scope.root.Root(known, scope.clock);
      code := root.Rebuild(None, all, known);
      RebuiltIs(blocks, root.name, code, BuiltOf(all, known));
      code := TrimEnd(code);
    }

    method TrimEnd(nodes: seq<Stmt>) returns (code: seq<Stmt>)
      ensures code == Trim(nodes)
    {
      code := nodes;
      while code != [] && IsImplied(code[|code| - 1])
        invariant Trim(code) == Trim(nodes)
        decreases |code|
      {
        code := code[..|code| - 1];
      }
    }
  }

  lemma RebuiltIs(blocks: map<Name, Block>, root: Name, code: seq<Stmt>, built: set<Name>)
    requires IsRebuilt(blocks, root, None, {}, code, built)
    ensures Wired(blocks) && root in blocks && blocks[root].aliasOf.None? && code == Erase(WholeCode(blocks, root))
  {
    hide Wired, RebuildA;
  }

  lemma RootCanBeRebuilt(scope: LabelScope, src: seq<Stmt>)
    requires InFragment(src) && scope.Valid() && Unbuilt(scope) && scope.Abs() == Build(src)
    requires BlocksOk(scope.Abs().blocks, scope.Abs().clock) && WellBuilt(scope.Abs().blocks)
      && MAIN in scope.Abs().blocks
    ensures scope.root in scope.known && AliasesEnd(scope.known, scope.clock)
    ensures Indexed(scope.All(), scope.known) && Family(scope.All(), scope.known)
      && BuiltOf(scope.All(), scope.known) == {}
    ensures var r := RootOf(scope.root, scope.known, scope.clock);
      r.name == Root(scope.Abs(), MAIN) && r in scope.known && r.aliasOf == null
    ensures scope.Abs().blocks == Views(scope.All(), scope.known)
  {
    hide InFragment, Build, CodeBlock.View, Root;
    IndexedBlock(scope.All(), scope.known, MAIN);
    BlocksOrdered(scope.Abs());
    OrderedHeap(scope);
    RootIsSame(scope, scope.root);
    forall n | n in scope.All() ensures !scope.All()[n].built {
      IndexedBlock(scope.All(), scope.known, n);
    }
  }

  lemma BlocksOrdered(st: State)
    requires BlocksOk(st.blocks, st.clock)
    ensures AliasOrder(st)
  {
    hide RefsOk;
    forall n | n in st.blocks && st.blocks[n].aliasOf.Some?
      ensures var t := st.blocks[n].aliasOf.value; t in st.blocks && st.blocks[n].defAt < st.blocks[t].defAt <= st.clock
    {
      assert LinksOk(st.blocks, n);
      assert LocalOk(st.blocks[st.blocks[n].aliasOf.value], st.clock);
    }
  }

  lemma LabelCanBeVisited(st: State, p: seq<Stmt>, i: nat, starts: Starts)
    requires TopInv(st, p, i, starts) && InFragment(p) && i < |p| && p[i].Label?
    ensures var l := p[i].name; StateOk(st) && Unvisited(st, l) && l != MAIN && l != st.current
    ensures IsEmpty(Current(st)) ==> Current(st).nested == []
  {
    hide StateOk, Growing, LeftHold, LabelsSeen, Unvisited, OnlyLabels, IsEmpty;
    LabelIsUnvisited(st, p, i, starts);
    CurrentIsTop(st, p, i, starts);
    StateOfReady(st, TopNames(p));
    var ks := p[starts[st.current]..i];
    EmptyMeansOnlyLabels(st, ks);
    if IsEmpty(Current(st)) {
      NothingNested(st, ks);
    }
  }

  lemma StmtCanBeVisited(st: State, p: seq<Stmt>, i: nat, starts: Starts)
    requires TopInv(st, p, i, starts) && InFragment(p) && i < |p| && !p[i].Label?
    ensures Ready(st, TopNames(p)) && LabelNames(TopNames(p)) && BodyStmtOk(p[i], false, TopNames(p))
      && !Current(st).inLoop
  {
    hide StateOk, Growing, LeftHold, LabelsSeen, LabelNames, BodyStmtOk;
    CurrentIsTop(st, p, i, starts);
  }

  /** The visitor, run on a program: what it returns does what the program does. */
  method EliminateGotos(src: seq<Stmt>) returns (code: seq<Stmt>)
    requires InFragment(src)
    ensures code == Eliminated(src)
    ensures IsSource(src) ==> forall o :: SameTraces(src, code, o)
  {
    hide LabelScope.Valid, LabelScope.Abs, InFragment, Build, InitialState, Unbuilt, SameTraces, Eliminated, IsSource;
    var visitor := new Visitor();
    visitor.Traverse(src);
    code := visitor.RebuildAndTrim(src);
    if IsSource(src) {
      forall o ensures SameTraces(src, code, o) {
        EliminationKeepsMeaning(src, o);
      }
    }
  }

  lemma ReadyToVisit(scope: LabelScope, labels: set<Name>)
    requires scope.Valid() && Ready(scope.Abs(), labels) && LabelNames(labels)
    ensures CurrentOpen(scope) && Shaped(scope.Abs()) && MAIN !in labels
  {
    hide StateOk;
    StateOfReady(scope.Abs(), labels);
    OkIsShaped(scope.Abs());
    ShapedHeap(scope);
  }

  lemma NameIsFree(st: State, labels: set<Name>, key: string)
    requires Ready(st, labels) && LabelNames(labels) && IsKey(key)
    ensures var n := MkName(st.current, key, st.counter); n !in st.blocks && n != MAIN
    ensures StateOk(st)
  {
    hide StateOk;
    NewName(st, labels, key);
  }

  /** A nested block can be opened, its body visited and the block left. */
  lemma BodyOpens(st: State, node: Node, key: string, body: seq<Stmt>, inLoop: bool, labels: set<Name>)
    requires Ready(st, labels) && LabelNames(labels) && IsNested(node) && IsKey(key)
      && node.sub == MkName(st.current, key, st.counter)
    requires BodyOk(body, inLoop, labels) && inLoop == (Current(st).inLoop || node.NLoop?)
    ensures StateOk(st) && node.sub !in st.blocks && node.sub != MAIN
    ensures var st1 := CodeBlocks.EnterNested(st, node, key);
      && Ready(st1, labels) && Current(st1).inLoop == inLoop
      && var st2 := CodeBlocks.VisitAll(st1, body);
      && Ready(st2, labels) && st2.current == node.sub && st2.stack != [] && Current(st2).inLoop == inLoop
      && Current(st2).elseBlock.None? && Current(st2).home.Some?
  {
    hide Ready, LabelNames, StateOk, CodeBlocks.EnterNested, CodeBlocks.VisitAll, BodyOk;
    NameIsFree(st, labels, key);
    CurrentIsOk(st);
    EnterNestedReady(st, node, key, labels);
    var st1 := CodeBlocks.EnterNested(st, node, key);
    OpenedCurrent(st, node, inLoop);
    VisitBody(st1, body, inLoop, labels);
    VisitedGrew(st1, CodeBlocks.VisitAll(st1, body), body, labels);
    VisitedStays(st1, CodeBlocks.VisitAll(st1, body), body, labels);
  }

  lemma OpenedCurrent(st: State, node: Node, inLoop: bool)
    requires IsNested(node) && node.sub !in st.blocks && st.current in CodeBlocks.Append(st, node).blocks
      && st.current != node.sub
    ensures var st1 := Opened(CodeBlocks.Append(st, node), node.sub, NextHome(st), inLoop);
      && st1.current == node.sub && Current(st1).inLoop == inLoop && Current(st1).elseBlock.None?
      && Current(st1).home.Some? && st1.stack != []
  {}

  lemma ElseOpens(st: State, ss: seq<Stmt>, inLoop: bool, labels: set<Name>)
    requires Ready(st, labels) && LabelNames(labels) && BodyOk(ss, inLoop, labels) && Current(st).inLoop == inLoop
    requires Current(st).elseBlock.None? && Current(st).home.Some?
    ensures StateOk(st)
    ensures var n := MkName(st.current, ELSE_KEY, st.counter); n !in st.blocks && n != MAIN
    ensures var st1 := CodeBlocks.EnterElse(st, st.current);
      && Ready(st1, labels) && Current(st1).inLoop == inLoop
      && var st2 := CodeBlocks.VisitAll(st1, ss);
      && Ready(st2, labels) && st2.stack == st.stack + [st.current]
  {
    hide Ready, LabelNames, StateOk, CodeBlocks.VisitAll, BodyOk, MkName;
    NameIsFree(st, labels, ELSE_KEY);
    CurrentIsOk(st);
    EnterElseReady(st, st.current, labels);
    var st1 := CodeBlocks.EnterElse(st, st.current);
    var n := MkName(st.current, ELSE_KEY, st.counter);
    assert Current(st1) == OpenedBlock(n, st.clock, Current(st).home, inLoop);
    VisitBody(st1, ss, inLoop, labels);
    VisitedGrew(st1, CodeBlocks.VisitAll(st1, ss), ss, labels);
    VisitedStays(st1, CodeBlocks.VisitAll(st1, ss), ss, labels);
  }

  lemma NamesAndCounter(scope: LabelScope)
    requires scope.Valid()
    ensures scope.Abs().current == scope.currentBlock.name && scope.Abs().counter == scope.counter
  {
    hide Views;
  }

  function WithBlock(node: Node, sub: CodeBlock): (h: HeapNode)
    requires IsNested(node) && node.sub == sub.name
    ensures Named(h) == node
  {
    match node
    case NIf(c, _) => NIf(c, sub)
    case NLoop(kind, c, _) => NLoop(kind, c, sub)
  }

  /** Making the block before or after the node is appended is the same. */
  lemma NestedSteps(st: State, node: Node, key: string)
    requires StateOk(st) && IsNested(node) && node.sub == MkName(st.current, key, st.counter) && node.sub !in st.blocks
    ensures CodeBlocks.EnterNested(st, node, key)
      == OpenedBy(CodeBlocks.Append(CodeBlocks.GetBlock(st, node.sub), node), node.sub, NextHome(st),
        Current(st).inLoop || node.NLoop?)
  {
    hide LocalOk, LinksOk, RefsOk, MkName;
    EnterNestedKeepsOk(st, node, key);
    assert LinksOk(st.blocks, st.current);
    ExitInBlocks(st.blocks, st.current);
    AppendGetBlock(st, node, node.sub);
    AppendAppends(st, node);
    OpenedAgain(CodeBlocks.Append(st, node), node.sub, NextHome(st), Current(st).inLoop || node.NLoop?);
  }

  lemma AppendGetBlock(st: State, node: Node, n: Name)
    requires st.current in st.blocks && n !in st.blocks && st.blocks[st.current].aliasOf.None?
    requires st.blocks[st.current].exit.Some? ==> st.blocks[st.current].exit.value.to in st.blocks
    ensures CodeBlocks.Append(CodeBlocks.GetBlock(st, n), node) == CodeBlocks.GetBlock(CodeBlocks.Append(st, node), n)
    ensures CodeBlocks.Append(st, node).blocks.Keys == st.blocks.Keys
  {
    var b := st.blocks[st.current];
    PutCommutes(st.blocks, st.current, b.(nodes := b.nodes + [node]), n);
    PutCommutes(st.blocks, st.current, b.(unreachableNodes := b.unreachableNodes + [node]), n);
  }

  lemma OpenedAgain(st: State, n: Name, home: Option<Home>, inLoop: bool)
    requires st.current in st.blocks && n !in st.blocks
    ensures OpenedBy(CodeBlocks.GetBlock(st, n), n, home, inLoop) == Opened(st, n, home, inLoop)
  {
    var nb := OpenedBlock(n, st.clock, home, inLoop);
    assert st.blocks[n := NewBlock(n)][n := NewBlock(n).(home := home, inLoop := inLoop)][n := nb] ==
      st.blocks[n := nb];
  }

  lemma ElseSteps(st: State)
    requires StateOk(st) && Current(st).elseBlock.None? && Current(st).home.Some?
      && MkName(st.current, ELSE_KEY, st.counter) !in st.blocks
    ensures var n := MkName(st.current, ELSE_KEY, st.counter);
      var open := OpenedBy(CodeBlocks.GetBlock(st, n), n, Current(st).home, Current(st).inLoop);
      CodeBlocks.EnterElse(st, st.current) == Put(open, st.current, Get(open, st.current).(elseBlock := Some(n)))
  {
    hide LocalOk, LinksOk, RefsOk, MkName, BlocksOk;
    EnterElseKeepsOk(st, st.current);
    OpenedAgain(st, MkName(st.current, ELSE_KEY, st.counter), Current(st).home, Current(st).inLoop);
  }

  function OpenedBy(st: State, n: Name, home: Option<Home>, inLoop: bool): State {
    var st1 := st.(stack := st.stack + [st.current], counter := st.counter + 1);
    var st2 := SetDefined(Put(st1, n, Get(st1, n).(home := home, inLoop := inLoop)), n);
    Put(st2, st2.current, Current(st2).(nested := Current(st2).nested + [n])).(current := n)
  }

  lemma EnterLabelSteps(st: State, l: Name)
    requires StateOk(st) && Unvisited(st, l) && l != st.current
    ensures var st1 := SetDefined(CodeBlocks.GetBlock(st, l), l);
      && st1.current == st.current && l in st1.blocks && Current(st1) == Current(st)
      && st1.blocks[l].aliasOf.None? && st1.blocks[l].exit.None?
      && Current(st1).defAt < st1.blocks[l].defAt <= st1.clock
      && (forall m :: m in Current(st1).enters ==> m in st1.blocks && st1.blocks[m].exit.Some?)
    ensures CodeBlocks.EnterLabel(st, l) == var st1 := SetDefined(CodeBlocks.GetBlock(st, l), l);
      var st2 := if IsEmpty(Current(st)) then CodeBlocks.SetAlias(st1, l)
        else CodeBlocks.MoveInto(CodeBlocks.Append(st1, NGoto(l)), l);
      CodeBlocks.Append(st2.(current := Root(st2, l)), NLabel(l))
  {
    DefinedShaped(st, l);
  }

  lemma RootKnown(scope: LabelScope, block: CodeBlock)
    requires scope.Valid() && block in scope.known && AliasesEnd(scope.known, scope.clock)
    ensures RootOf(block, scope.known, scope.clock) in scope.known
  {}

  lemma AliasesHeap(scope: LabelScope, l: Name)
    requires scope.Valid() && Shaped(scope.Abs().(current := l))
    ensures AliasesEnd(scope.known, scope.clock)
  {
    hide Indexed, Views, LabelScope.Valid, LabelScope.Abs;
    assert AliasOrder(scope.Abs());
    OrderedHeap(scope);
  }

  lemma OrderedHeap(scope: LabelScope)
    requires scope.Valid() && AliasOrder(scope.Abs())
    ensures AliasesEnd(scope.known, scope.clock)
  {
    hide Indexed, Views, ClosedOf, ViewOf;
    forall b | b in scope.known && b.aliasOf != null
      ensures b.aliasOf in scope.known && b.defAt < b.aliasOf.defAt <= scope.clock {
      EachClosed(scope.known);
      AliasIsKnown(b, scope.known);
      IndexedName(scope.All(), scope.known, b);
      IndexedName(scope.All(), scope.known, b.aliasOf);
      ViewsAt(scope.All(), scope.known);
      ViewFields(b);
      ViewFields(b.aliasOf);
    }
  }

  /** The checks of `setAlias` pass. */
  lemma AliasHeap(scope: LabelScope, to: CodeBlock)
    requires scope.Valid() && to in scope.known && to.name != scope.Abs().current && to.name in scope.Abs().blocks
    requires var t := scope.Abs().blocks[to.name]; t.aliasOf.None? && t.exit.None?
    requires var b := Current(scope.Abs());
      && b.exit.None? && b.nested == [] && IsEmpty(b) && scope.Abs().current !in b.enters
      && forall m :: m in b.enters ==> m in scope.Abs().blocks && scope.Abs().blocks[m].exit.Some?
    ensures var b := scope.currentBlock;
      && b.exitBlock == null && b.nested == [] && IsEmpty(b.View()) && to != b && to.aliasOf == null
      && to !in b.Enterers()
      && b !in b.Enterers() && (forall m :: m in b.enters ==> b.enters[m].exitBlock != null)
  {
    hide Indexed, Views, ClosedOf, ViewOf, CodeBlocks.IsEmpty;
    var all, known, b := scope.All(), scope.known, scope.currentBlock;
    CurrentView(scope);
    EachClosed(known);
    EnterersKnown(all, b, known);
    ViewsAt(all, known);
    IndexedName(all, known, to);
    ViewFields(to);
    ViewFields(b);
    forall m | m in b.enters ensures b.enters[m].exitBlock != null {
      ViewFields(b.enters[m]);
    }
  }

  ghost predicate Unbuilt(scope: LabelScope)
    reads scope`known, scope.known`built
  {
    forall b :: b in scope.known ==> !b.built
  }

  /** Blocks were added, and still none is built. */
  ghost predicate BlocksAdded(scope: LabelScope, known: set<CodeBlock>)
    reads scope`known, scope.known`built
  {
    known <= scope.known && Unbuilt(scope)
  }

  lemma ShapedHeap(scope: LabelScope)
    requires scope.Valid() && Shaped(scope.Abs())
    ensures CurrentOpen(scope) && AliasesEnd(scope.known, scope.clock)
  {
    hide AliasOrder;
    CurrentView(scope);
    OrderedHeap(scope);
  }

  lemma AliasIsKnown(b: CodeBlock, known: set<CodeBlock>)
    requires b.Closed(known) && b.aliasOf != null
    ensures b.aliasOf in known
  {}

  lemma DefinedView(f: BlockFields, number: nat, known: set<CodeBlock>)
    requires ClosedOf(f, known)
    ensures var f' := f.(defined := true, defAt := number);
      ClosedOf(f', known) && ViewOf(f') == ViewOf(f).(defined := true, defAt := number)
  {}

  lemma NestedView(f: BlockFields, inner: CodeBlock, known: set<CodeBlock>)
    requires ClosedOf(f, known) && inner in known
    ensures var f' := f.(nested := f.nested + [inner]);
      ClosedOf(f', known) && ViewOf(f') == ViewOf(f).(nested := ViewOf(f).nested + [inner.name])
  {}

  lemma HomeView(f: BlockFields, home: Option<Home>, inLoop: bool, known: set<CodeBlock>)
    requires ClosedOf(f, known)
    ensures var f' := f.(home := home, inLoop := inLoop);
      ClosedOf(f', known) && ViewOf(f') == ViewOf(f).(home := home, inLoop := inLoop)
  {}

  lemma ElseView(f: BlockFields, eb: CodeBlock, known: set<CodeBlock>)
    requires ClosedOf(f, known) && eb in known
    ensures var f' := f.(elseBlock := eb);
      ClosedOf(f', known) && ViewOf(f') == ViewOf(f).(elseBlock := Some(eb.name))
  {}

  lemma PureAliasReady(all: map<Name, CodeBlock>, known: set<CodeBlock>, b: CodeBlock, to: CodeBlock)
    requires b.Closed(known) && Indexed(all, known) && b in known && to in known
    requires b.exitBlock == null && b.nested == [] && IsEmpty(b.View()) && to !in b.Enterers() && b !in b.Enterers()
    ensures b.View().exit.None? && b.View().nested == [] && b.name !in b.View().enters && to.name !in b.View().enters
  {
    EnterersKnown(all, b, known);
    IndexedName(all, known, b);
    IndexedName(all, known, to);
  }

  /** What redirecting the exits will do to the entering blocks. */
  lemma Redirections(all: map<Name, CodeBlock>, known: set<CodeBlock>, b: CodeBlock, to: CodeBlock,
      was: map<Name, Block>)
    requires Indexed(all, known) && AllClosed(known) && b in known && to in known && was == Views(all, known)
    requires forall m :: m in b.enters ==> b.enters[m].exitBlock != null
    ensures forall m :: m in b.enters ==> (
      && m in all && m in was && was[m].exit.Some? && ClosedOf(all[m].Fields().(exitBlock := to), known)
      && ViewOf(all[m].Fields().(exitBlock := to)) == was[m].(exit := Some(was[m].exit.value.(to := to.name))))
  {
    hide ClosedOf, ViewOf, Indexed;
    Before(all, known, b);
    EnterersKnown(all, b, known);
    forall m | m in b.enters
      ensures was[m].exit.Some? && ClosedOf(all[m].Fields().(exitBlock := to), known)
      ensures ViewOf(all[m].Fields().(exitBlock := to)) == was[m].(exit := Some(was[m].exit.value.(to := to.name)))
    {
      RedirectedBlock(all[m].Fields(), to, known);
      ViewFields(all[m]);
    }
  }

  lemma EveryClosed(all: map<Name, CodeBlock>, known: set<CodeBlock>)
    requires Indexed(all, known) && forall n :: n in all ==> all[n].Closed(known)
    ensures AllClosed(known)
  {
    hide CodeBlock.Closed;
  }

  lemma AliasViews(all: map<Name, CodeBlock>, known: set<CodeBlock>, was: map<Name, Block>, x: CodeBlock, to: CodeBlock)
    requires Indexed(all, known) && was.Keys == all.Keys && x in known && to in known && x != to
    requires var v := was[x.name];
      && x.View() == v.(aliasOf := Some(to.name), enters := map[], unreachable := true)
      && to.View() == MergeEnters(was[to.name].(nodes := v.nodes + was[to.name].nodes), v.enters, v.entersPerName.Keys)
      && (forall n :: n in all && n != x.name && n != to.name ==>
           if n in v.enters then was[n].exit.Some?
             && all[n].View() == was[n].(exit := Some(was[n].exit.value.(to := to.name)))
           else all[n].View() == was[n])
    ensures AliasedViews(was, Views(all, known), x.name, to.name)
  {
    hide CodeBlock.View, MergeEnters;
  }

  lemma EnterersKnown(all: map<Name, CodeBlock>, b: CodeBlock, known: set<CodeBlock>)
    requires b.Closed(known) && Indexed(all, known)
    ensures b.EntersOk() && b.enters.Keys == b.View().enters.Keys
    ensures forall m :: m in b.enters ==> m in all && all[m] == b.enters[m] && b.enters[m] in known
    ensures b.Enterers() <= known && forall n :: n in all && n !in b.enters ==> all[n] !in b.Enterers()
  {}

  /** The alias step on the views of blocks: `x` becomes an alias of `to`. */
  ghost predicate AliasedViews(was: map<Name, Block>, now: map<Name, Block>, x: Name, to: Name) {
    && x in was && to in was && x != to && now.Keys == was.Keys
    && now[x] == was[x].(aliasOf := Some(to), enters := map[], unreachable := true)
    && now[to] == MergeEnters(was[to].(nodes := was[x].nodes + was[to].nodes), was[x].enters, was[x].entersPerName.Keys)
    && (forall n :: n in was && n != x && n != to && n in was[x].enters ==>
         was[n].exit.Some? && now[n] == was[n].(exit := Some(was[n].exit.value.(to := to))))
    && (forall n :: n in was && n != x && n != to && n !in was[x].enters ==> now[n] == was[n])
  }

  lemma AliasStep(st: State, now: map<Name, Block>, to: Name)
    requires AliasedViews(st.blocks, now, st.current, to)
    requires var b := st.blocks[st.current];
      b.aliasOf.None? && b.exit.None? && b.nested == [] && IsEmpty(b) && st.current !in b.enters && to !in b.enters
    ensures CodeBlocks.SetAlias(st, to) == st.(blocks := now)
  {
    hide MergeEnters;
    var b, st' := st.blocks[st.current], CodeBlocks.SetAlias(st, to);
    assert Redirect(st.blocks, b.enters.Keys, to)[to] == st.blocks[to];
    assert Redirect(st.blocks, b.enters.Keys, to)[st.current] == b;
    assert st'.blocks.Keys == now.Keys;
    assert st'.blocks == now;
  }

  lemma CurrentIsKnown(scope: LabelScope)
    requires scope.Valid()
    ensures scope.currentBlock in scope.known
  {}

  /** The end of the alias chain is the same on objects and on values. */
  lemma {:induction false} RootIsSame(scope: LabelScope, b: CodeBlock)
    requires scope.Valid() && AliasesEnd(scope.known, scope.clock) && b in scope.known
    ensures CodeBlocks.Root(scope.Abs(), b.name) == RootOf(b, scope.known, scope.clock).name
    decreases if b.defAt <= scope.clock then scope.clock - b.defAt else 0
  {
    hide Indexed, AllClosed, Views, CodeBlock.Closed, CodeBlock.View;
    var st := scope.Abs();
    Before(scope.All(), scope.known, b);
    ViewFields(b);
    if b.aliasOf != null {
      Before(scope.All(), scope.known, b.aliasOf);
      ViewFields(b.aliasOf);
      RootIsSame(scope, b.aliasOf);
    }
  }

  lemma UnreachableView(f: BlockFields, known: set<CodeBlock>)
    requires ClosedOf(f, known)
    ensures ClosedOf(f.(unreachable := true), known)
      && ViewOf(f.(unreachable := true)) == ViewOf(f).(unreachable := true)
  {}

  lemma Before(all: map<Name, CodeBlock>, known: set<CodeBlock>, b: CodeBlock)
    requires Indexed(all, known) && AllClosed(known) && b in known
    ensures b.name in all && all[b.name] == b && forall n :: n in all && n != b.name ==> all[n] in known && all[n] != b
    ensures Views(all, known).Keys == all.Keys && forall n :: n in all ==> Views(all, known)[n] == all[n].View()
    ensures forall c :: c in known ==> c.Closed(known)
  {
    IndexedOthers(all, known, b);
    ViewsAt(all, known);
    EachClosed(known);
  }

  /** The view of the current block, and what an exit says. */
  lemma CurrentView(scope: LabelScope)
    requires scope.Valid()
    ensures var b, st := scope.currentBlock, scope.Abs();
      && st.current == b.name && st.current in st.blocks && st.blocks[st.current] == b.View()
      && b.View().exit == (if b.exitBlock == null then None else Some(Exit(b.exitBlock.name, b.exitOrigName)))
      && (b.View().aliasOf.Some? <==> b.aliasOf != null) && b.View().unreachable == b.unreachable
      && (b.exitBlock != null ==>
             && b.exitBlock in scope.known && Get(st, b.exitBlock.name) == b.exitBlock.View()
             && b.exitBlock.View().defined == b.exitBlock.defined)
  {
    hide CodeBlock.View;
    var b := scope.currentBlock;
    EachClosed(scope.known);
    IndexedName(scope.All(), scope.known, b);
    ViewsAt(scope.All(), scope.known);
    ViewFields(b);
    if b.exitBlock != null {
      IndexedName(scope.All(), scope.known, b.exitBlock);
      ViewFields(b.exitBlock);
    }
  }
}
