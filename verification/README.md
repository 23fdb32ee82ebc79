# MWDB: permissions, deobfuscation, search translation and the threat library

Dafny models of four parts of the repository whose behaviour spans many steps, and proofs of what they are meant to
guarantee.

**Permissions over the object graph.** Objects have parents and children, cycles and self-loops included; a group has at
most one share per object, with the provenance it was inherited from. `ObjectGraph` has the tables, `Grant` and
`Uninherit` say what `give_access`, `add_parent` and `remove_parent` do to one group's view, and `ObjectStore` runs the
breadth-first search, the copying loop and the recursion over children on the tables themselves. The invariant is
closure: a group that sees an object sees all its children. A share that is deleted is the hard case, because the
recursion takes it away before the parent's own share goes; the proof shows that no parent that still sees the object is
left, except the one the removal came from. `Provenance` says what shares name as their origin after links and unlinks,
and when an unlink takes back what a link gave.

**Goto elimination** (`ControlFlowVisitor.php`). `PhpCode` is the language and its meaning: a configuration is the code
still to run and the history so far, branches ask an oracle that may depend on the history, and two programs mean the
same if each gets as far as the other after any number of steps. `CodeBlocks` is block building on values, `Rebuild` the
depth-first rebuild; `BlockInvariant`, `BlockVisits`, `BodyVisits`, `LabelVisits` and `TopVisits` show what every visit
keeps, `BlockCode` and `Accounting` why the rebuilt code is faithful, `Annotated` why faithful code means the same.
`TraversalStates` says what holds in every state on the way, `Conservation` counts statements, `LabelsLeft` and
`GotosLeft` say which labels and how many gotos are left. `HeapBlocks`, `HeapScope`, `VisitorShape` and
`ControlFlowVisitor` are the classes that update blocks in place; each method is tied to the step on values.

**Constant folding** (`Resolver.php`, `ResolveValueVisitor.php`, the reducers). `Folding` is the abstract interpreter on
values: variables refer to cells that they may share, cells carry the mutable mark. `Runtime` says what code shows for
given meanings of PHP's operators, `FoldingSound` proves that folding keeps it, `FoldingComplete` that whatever the code
determines is computed, `FoldingVisitor` has the cells as objects whose mark is set in place, and `Deobfuscator`
composes both passes.

**Search text** (`parse_helpers.py`, `fields.py`). `Glob` and `LikeOperator` define what patterns match (section 9.7.1
of the PostgreSQL manual), `SearchTokens` and `LikeTranslation` the tokenizer and the translations, `PatternEnds`,
`JsonSearch`, `JsonPrefilter` and `QuestionMarks` the conditions on JSON columns (strings escaped as in section 7 of RFC
8259), `StoredSearch` and `ContainsSearch` what searches for given texts find, `FieldPath` field paths and their
selectors.

**Companions.** `ThreatPaths`, `Threatlib` and `ThreatExport` are the threat library: validation, the service with the
mirror in tags and attributes, the export. `PhpTags` is the chunked scan for PHP tags, `ConfigValues` hashing and
storage of configurations, `HashCollisions` which of them share a hash.

Where a promise is false, a lemma names an input and another one says when it holds. An unlink may keep a share that no
upload justifies (`Uninherit.DiamondKeepsOrphanedShare`, against line 22 of docs/user-guide/9-Sharing-objects.rst);
`Uninherit.UnlinkRemovesExactly` says which shares go, and `Uninherit.NothingUnjustifiedIff` when none is left over. A
`?` in a JSON search may lose rows (`JsonPrefilter.QuestionLoses`); `JsonPrefilter.PrefilterKeepsIff` and
`JsonPrefilter.ConfigPrefilterKeepsIff` say when. A field path of asterisks is read differently
(`FieldPath.ParsePrinted`), and a wildcard that is overlooked is compared as text
(`LikeTranslation.StringEqualsMeansGlob`). An `else` that reads what its `then` branch assigned may show something else
(`Deobfuscator.ElseReliesOnThen`); `FoldingSound.ElsesApart` is a condition on the code under which none does. An unlink
does not take back a link to a child on a cycle (`Provenance.UnlinkTakesBackIff`), and a search for strings that start
with one backslash finds none (`ContainsSearch.StartFindsIff`).

## Model

| member | source | states |
|---|---|---|
| `Grant.GrantExact` | mwdb/model/object.py:412-434 | from a closed view the group afterwards sees what it saw and every descendant-or-self of the object, nothing else; no share that existed changes and all new ones have one provenance |
| `Grant.GrantCloses` | mwdb/model/object.py:412-434 | although the search stops at objects already seen, the view is closed under children afterwards |
| `Grant.LinkCloses` | mwdb/model/object.py:295-308 | handing the parent's share on to the child restores closure under the relation with the new row, cycles included |
| `Provenance.LinkHandsOn` | mwdb/model/object.py:295-308 | a link gives every object that is newly seen, which is every unseen descendant-or-self of the child, the reason, related object and user of the parent's share, dated now; no other share changes |
| `Grant.SearchEnds` | mwdb/model/object.py:418-431 | when the queue is empty the shares written are exactly those of the objects reached through objects the group did not see |
| `Uninherit.FindDevisor` | mwdb/model/object.py:340-359 | which of the three answers comes: the share itself iff another parent has the same provenance, none iff no other parent is seen, otherwise the share of the last parent that is seen, with another provenance |
| `Uninherit.Uninherited` | mwdb/model/object.py:361-389 | one recursion creates no share and touches only newly visited objects whose share has the origin's provenance, each deleted or given reason and related object of a share that had another provenance, its user kept, dated now |
| `Uninherit.DeletedAreOrphaned` | mwdb/model/object.py:361-389 | whoever loses its share has no parent left that is seen, except the object the removal came from; with a devisor handed down nobody loses a share |
| `Uninherit.UnlinkKeepsClosed` | mwdb/model/object.py:313-389 | on any graph, unlinking takes a closed view to a view closed under all remaining edges |
| `Uninherit.UnlinkIsConfined` | mwdb/model/object.py:313-389 | unlinking creates no share; a share that changes belongs to a descendant-or-self of the child, had the provenance of the parent's share, and is deleted or takes over reason and related object of a share with another provenance, its user kept, dated now |
| `Uninherit.UnlinkRemovesExactly` | mwdb/model/object.py:313-389 | on any graph: an object loses its share iff it hangs on the removed link by a chain of sole heirs, objects whose share has the parent's provenance and that have no other seen parent, chains that come back to the parent included |
| `Uninherit.UnlinkRemovesSoleHeirs` | mwdb/model/object.py:361-389 | whatever hangs on the link is not seen any more |
| `Uninherit.GoneHangsOn` | mwdb/model/object.py:361-389 | whatever the recursion takes away hung on the link, because an object that is gone has had all its children visited |
| `Uninherit.NothingUnjustifiedIff` | mwdb/model/object.py:313-389 | the sharing guide's rule, uploads and their descendants only, holds after an unlink iff on the view before, everything no longer reached from an upload that stays hangs on the link |
| `Uninherit.ChildAfterUnlink` | mwdb/model/object.py:340-389 | what becomes of the child, case by case: nothing happens, it is lost iff no other parent is seen, or it takes over reason and related object from the seen parent with the oldest relation row |
| `Provenance.RemappedInherit` | mwdb/model/object.py:361-389 | every share that an unlink changes has reason and related object of a parent's share afterwards, along a row that is left, and not those it had; it keeps its user and is dated now |
| `Provenance.OnlyChildStaysWithParent` | mwdb/model/object.py:361-389 | whom the group sees by way of one parent only, with its provenance, is lost iff that parent is, and otherwise has that parent's provenance afterwards, too |
| `Provenance.UnlinkTakesBackIff` | mwdb/model/object.py:265-352 | linking a child that was not seen and unlinking it again takes the access away unless a parent of the child is also its descendant, and then it does not |
| `Provenance.UnlinkTakesAllBack` | mwdb/model/object.py:265-352 | if no object made visible by a link has two seen parents and what was seen below has another provenance, an unlink takes back exactly what the link gave |
| `Uninherit.DiamondKeepsOrphanedShare` | mwdb/model/object.py:340-389 | a concrete closed view in which an object keeps its share after an unlink although no upload leads to it any more |
| `ObjectStore.Store.CreatePermission` | mwdb/model/object_permission.py:121-155 | true iff the pair had no share; exactly that share is added |
| `ObjectStore.Store.GiveAccess` | mwdb/model/object.py:412-434 | the search terminates on every graph with the group's view as the grant specifies; other groups' shares and closure are kept |
| `ObjectStore.Store.AddParent` | mwdb/model/object.py:265-311 | adds the row iff it is new, hands every share of the parent on, keeps closure |
| `ObjectStore.Store.RemoveParent` | mwdb/model/object.py:313-352 | removes the row iff it is there, every group's view becomes what unlinking specifies, keeps closure |
| `ObjectStore.Store.FindAnotherDevisor` | mwdb/model/object.py:340-359 | the loop over the parents gives the answer of the specification |
| `ObjectStore.Store.UninheritShare` | mwdb/model/object.py:361-389 | the recursion with its shared visited set does to the shares of the group what the specification says and leaves other groups alone |
| `ObjectStore.Store.UninheritChildren` | mwdb/model/object.py:382-383 | the loop over the children, each seeing what the earlier ones left |
| `ObjectStore.EveryRunIsClosed` | mwdb/model/object.py:265-434 | after any sequence of creations, grants, links and unlinks every group sees every child of what it sees |
| `ObjectStore.Store.Apply` | mwdb/model/object.py:265-434 | an operation on the tables does to every group's view what it is specified to do to one |
| `ObjectStore.Run` | mwdb/model/object.py:265-434 | the tables at the end hold, for every group, exactly what the operations make of an empty view, and are closed |
| `GotoElimination.EliminationKeepsMeaning` | docker/phpdeobf/src/ControlFlowVisitor.php:100-232 | for every program of the fragment, every oracle and every number of steps, source and result have the same traces |
| `GotoElimination.BuildRepresents` | docker/phpdeobf/src/ControlFlowVisitor.php:100-165 | no internal exception fires in any traversal, and the finished blocks represent the program |
| `TraversalStates.EveryStateIsConsistent` | docker/phpdeobf/src/ControlFlowVisitor.php:372-493 | in every state that a traversal passes through, between any two statements and in bodies at any depth, no exception has fired, alias chains end, aliases have no exit, and each block counts under each name exactly the blocks that exit to it by that name |
| `TraversalStates.PrefixesPass` | docker/phpdeobf/src/ControlFlowVisitor.php:111-165 | the states after each statement of a list are among those its visit passes through |
| `TraversalStates.BodyPasses` | docker/phpdeobf/src/ControlFlowVisitor.php:167-219 | what visits rely on holds in every state inside of a body |
| `Annotated.FaithfulMeansSame` | docker/phpdeobf/src/ControlFlowVisitor.php:319-352 | erasing the labels and gotos that a faithful rebuild drops leaves a program with the same traces |
| `Annotated.Round` | docker/phpdeobf/src/ControlFlowVisitor.php:319-352 | from matching configurations both programs go on by at least one step to matching configurations |
| `Accounting.RebuildIsFaithful` | docker/phpdeobf/src/ControlFlowVisitor.php:319-370 | rebuilding blocks that represent a program gives faithful code: what is joined stands where its goto stood, and no dropped label is still jumped to |
| `Accounting.KeptLabelIsKept` | docker/phpdeobf/src/ControlFlowVisitor.php:330-351 | a goto that is left has its label left, decided by the enter counts and the label asked to be removed |
| `BlockCode.RebuildMirrors` | docker/phpdeobf/src/ControlFlowVisitor.php:319-352 | what is emitted for a block, its joined exit included, stands for the code the block holds |
| `BlockCode.JumpToTop` | docker/phpdeobf/src/ControlFlowVisitor.php:111-165 | a jump of the source goes to the statements behind its top-level label |
| `BlockInvariant.JumpKeepsOk` | docker/phpdeobf/src/ControlFlowVisitor.php:186-194 | appending a goto and entering its target keeps the invariant of all blocks; the exit was free |
| `BlockInvariant.RootIsLive` | docker/phpdeobf/src/ControlFlowVisitor.php:438-445 | the end of an alias chain exists and is no alias; a block not yet defined is its own root |
| `BlockNames.MkNameCounter` | docker/phpdeobf/src/ControlFlowVisitor.php:34-37 | equal generated names were made with equal counters |
| `BlockNames.NextNameIsNew` | docker/phpdeobf/src/ControlFlowVisitor.php:34-47 | the next name was never generated before |
| `BlockVisits.EnterNestedKeepsOk` | docker/phpdeobf/src/ControlFlowVisitor.php:167-184 | opening the block of an `if` or a loop keeps the invariant |
| `BlockVisits.EnterElseKeepsOk` | docker/phpdeobf/src/ControlFlowVisitor.php:167-184 | opening the block of an `else` inside the block of its `if` keeps the invariant |
| `BodyVisits.VisitBody` | docker/phpdeobf/src/ControlFlowVisitor.php:111-219 | visiting statements without labels adds exactly their code, up to the first jump, to the current block and leaves all earlier blocks' code alone |
| `LabelVisits.AliasReady` | docker/phpdeobf/src/ControlFlowVisitor.php:114-120 | a block of labels only becomes an alias of the next label's block, and every label can still be jumped to |
| `LabelVisits.AliasKeepsOk` | docker/phpdeobf/src/ControlFlowVisitor.php:372-408 | merging enters, names and labels into the other block keeps the invariant of all blocks, counts included |
| `LabelVisits.RootOfAliased` | docker/phpdeobf/src/ControlFlowVisitor.php:386-393 | afterwards the roots are the same, with the new alias replaced by its target |
| `LabelVisits.FallThroughReady` | docker/phpdeobf/src/ControlFlowVisitor.php:120-127 | code that runs on into a label gets a goto and an exit there |
| `TopVisits.StmtKeepsTop` | docker/phpdeobf/src/ControlFlowVisitor.php:111-165 | a top-level statement extends what the current block holds; all other blocks keep holding their code |
| `TopVisits.LabelKeepsTop` | docker/phpdeobf/src/ControlFlowVisitor.php:114-128 | a label starts a new block or moves the current one, at the right place of the program |
| `FinishedBlocks.FinishedRepresents` | docker/phpdeobf/src/ControlFlowVisitor.php:230-233 | after the implied return every block holds the code from its place on, and every exit leads to the block that has the label |
| `FinishedBlocks.OneBlockPerLabel` | docker/phpdeobf/src/ControlFlowVisitor.php:114-128 | a label is a node of one live block only |
| `FinishedBlocks.CountsAgree` | docker/phpdeobf/src/ControlFlowVisitor.php:479-493 | the enter count under a name is the number of blocks that exit there under it |
| `Conservation.RebuildConservesReachable` | docker/phpdeobf/src/ControlFlowVisitor.php:319-370 | what a rebuild processes, dropped labels and gotos counted, is as a multiset at any depth the nodes of the blocks reachable from the root, each once |
| `Conservation.ErasedFits` | docker/phpdeobf/src/ControlFlowVisitor.php:340-351 | the filter changes no count but those of labels it drops and of gotos |
| `Conservation.EliminationConserves` | docker/phpdeobf/src/ControlFlowVisitor.php:221-233 | the program that is returned, with the trimmed implied returns put back, has every simple statement, return, `if` and loop exactly as often as the blocks reachable from the root, and no label or goto more often |
| `Conservation.GotosHaveOneLabel` | docker/phpdeobf/src/ControlFlowVisitor.php:330-351 | every goto left in the output has its label there exactly once |
| `LabelsLeft.LabelsLeftIff` | docker/phpdeobf/src/ControlFlowVisitor.php:319-352 | in the program that is returned a label is left iff a goto to it is left, or a block that cannot be reached from the root would jump to it |
| `LabelsLeft.LabelsAreTargets` | docker/phpdeobf/src/ControlFlowVisitor.php:319-352 | where every block that jumps can be reached, the labels left are exactly the targets of the gotos left |
| `LabelsLeft.RebuildLeaves` | docker/phpdeobf/src/ControlFlowVisitor.php:319-352 | in a rebuild blocks are joined to one block each at most, whoever was not joined leaves its goto, and a kept label is entered by more than the one block joined to it |
| `GotosLeft.GotosLeftExactly` | docker/phpdeobf/src/ControlFlowVisitor.php:326-351 | the gotos left are one for each reached block that jumps, less one for each reached block that is neither the root nor nested: each of those is joined to one of the blocks that lead to it |
| `GotosLeft.NoImpliedEnd` | docker/phpdeobf/src/ControlFlowVisitor.php:221-228 | no implied return is left at the end |
| `Rebuild.RebuildA` | docker/phpdeobf/src/ControlFlowVisitor.php:319-352 | the recursion over exits and nested blocks ends, because unbuilt blocks get fewer, and only adds to the built blocks |
| `HeapBlocks.CodeBlock.constructor` | docker/phpdeobf/src/ControlFlowVisitor.php:313-317 | a new block is entered by nobody, under its own name only |
| `HeapBlocks.CodeBlock.Append` | docker/phpdeobf/src/ControlFlowVisitor.php:447-457 | the node is appended, set aside or dropped, as the exit demands; answers whether the alias check passed |
| `HeapBlocks.CodeBlock.IsEmpty` | docker/phpdeobf/src/ControlFlowVisitor.php:410-419 | true iff all nodes are labels |
| `HeapBlocks.CodeBlock.Root` | docker/phpdeobf/src/ControlFlowVisitor.php:438-445 | the end of the alias chain |
| `HeapBlocks.CodeBlock.AddNested` | docker/phpdeobf/src/ControlFlowVisitor.php:495-499 | the nested block is recorded unless the alias check fails |
| `HeapBlocks.CodeBlock.SetExit` | docker/phpdeobf/src/ControlFlowVisitor.php:464-476 | the exit is the root of the block asked for, under that block's name; fails for an alias or a second exit |
| `HeapBlocks.CodeBlock.Enter` | docker/phpdeobf/src/ControlFlowVisitor.php:479-493 | the root is entered once more under the given name, or under this block's own |
| `HeapBlocks.CodeBlock.SetAlias` | docker/phpdeobf/src/ControlFlowVisitor.php:372-408 | all four checks, and the merge of enters, names and labels |
| `HeapBlocks.CodeBlock.MoveEnters` | docker/phpdeobf/src/ControlFlowVisitor.php:388-393 | every entering block enters the other block under the same name and exits there |
| `HeapBlocks.CodeBlock.PickUpNames` | docker/phpdeobf/src/ControlFlowVisitor.php:402-406 | names the other block did not have are picked up with count zero |
| `HeapBlocks.CodeBlock.Rebuild` | docker/phpdeobf/src/ControlFlowVisitor.php:319-352 | emits and marks as built exactly what the rebuild on values says |
| `HeapBlocks.CodeBlock.RebuildNodes` | docker/phpdeobf/src/ControlFlowVisitor.php:340-351 | the map over the nodes and the filter of labels and gotos |
| `HeapBlocks.CodeBlock.ProcessNode` | docker/phpdeobf/src/ControlFlowVisitor.php:354-370 | the nested blocks of a node are rebuilt in order and put in place |
| `HeapScope.LabelScope.constructor` | docker/phpdeobf/src/ControlFlowVisitor.php:16-24 | a scope with its root block, which is the current one |
| `HeapScope.LabelScope.GetBlock` | docker/phpdeobf/src/ControlFlowVisitor.php:26-32 | the block of a label, made the first time it is asked for |
| `ControlFlowVisitor.Visitor.MoveInto` | docker/phpdeobf/src/ControlFlowVisitor.php:186-194 | sets the exit and enters the root, on reachable blocks only |
| `ControlFlowVisitor.Visitor.SetAlias` | docker/phpdeobf/src/ControlFlowVisitor.php:372-408 | the alias step on all objects at once is the alias step on values |
| `ControlFlowVisitor.Visitor.EnterLabel` | docker/phpdeobf/src/ControlFlowVisitor.php:113-128 | the visit of a label on objects is the visit on values; no check fails |
| `ControlFlowVisitor.Visitor.EnterGoto` | docker/phpdeobf/src/ControlFlowVisitor.php:149-163 | the visit of a goto on objects is the visit on values |
| `ControlFlowVisitor.Visitor.EnterNested` | docker/phpdeobf/src/ControlFlowVisitor.php:167-184 | appending a statement with a body and opening its block |
| `ControlFlowVisitor.Visitor.EnterElse` | docker/phpdeobf/src/ControlFlowVisitor.php:129-184 | opening the block of an `else`, which is not appended |
| `ControlFlowVisitor.Visitor.PopStack` | docker/phpdeobf/src/ControlFlowVisitor.php:49-52 | back to the block that holds the nested one |
| `ControlFlowVisitor.Visitor.Visit` | docker/phpdeobf/src/ControlFlowVisitor.php:111-219 | entering and leaving one statement, with what is inside of it |
| `ControlFlowVisitor.Visitor.Traverse` | docker/phpdeobf/src/ControlFlowVisitor.php:100-165 | the traversal leaves the scope as block building on values gives it |
| `ControlFlowVisitor.Visitor.RebuildAndTrim` | docker/phpdeobf/src/ControlFlowVisitor.php:221-228 | rebuilds from the root and drops the implied returns at the end |
| `ControlFlowVisitor.EliminateGotos` | docker/phpdeobf/src/ControlFlowVisitor.php:100-233 | the visitor on objects returns a program with the same traces as its input under every oracle |
| `FoldingSound.FoldingKeepsOutput` | docker/phpdeobf/src/Resolver.php:51-167 | after any number of steps, through loops, labels and shared cells, a program and its folded form have shown the same, if no `else` reads a known value that its `then` branch left behind |
| `FoldingSound.KeptForElse` | docker/phpdeobf/src/Resolver.php:390-426 | behind a `then` branch, a variable that is not stale is relied on only if it was in front of the `if`, with the same value; what got an unknown value is not stale |
| `FoldingSound.UnknownIsMarked` | docker/phpdeobf/src/Resolver.php:390-426 | a variable that is assigned an unknown value is not relied on afterwards |
| `FoldingSound.IfOk` | docker/phpdeobf/src/Resolver.php:107-160 | both branches of an `if` are folded rightly for runs that take them |
| `FoldingSound.NoElsesApart` | docker/phpdeobf/src/Resolver.php:107-160 | without `else` nothing is ever stale |
| `Deobfuscator.ElseMayReadUnknown` | docker/phpdeobf/src/Resolver.php:390-426 | an `else` that reads a variable to which its `then` branch gave an unknown value is covered |
| `FoldingSound.FoldAllOk` | docker/phpdeobf/src/Resolver.php:51-167 | a value of a cell that is neither mutable nor stale is the variable's value at that point of every run |
| `FoldingSound.FoldExprOk` | docker/phpdeobf/src/ResolveValueVisitor.php:38-106 | a visited expression has the same value as before in every store that agrees with the cells, and its value attribute is that value |
| `FoldingSound.AssignOk` | docker/phpdeobf/src/Resolver.php:390-426 | after an assignment nothing but the assigned value is newly relied on, and the rewritten assignment has the same effect, with an operator or without |
| `FoldingSound.MarkAllForgets` | docker/phpdeobf/src/Resolver.php:162-167 | marking all variables leaves nothing to rely on |
| `FoldingSound.ReducedEchoPrints` | docker/phpdeobf/src/Reducer/MiscReducer.php:40-51 | a reduced `echo` prints what the original prints |
| `FoldingSound.FindFolded` | docker/phpdeobf/src/Resolver.php:87-96 | a jump goes to the folded form of what it went to, where nothing is relied on |
| `FoldingSound.LoopOk` | docker/phpdeobf/src/Resolver.php:87-96 | condition and body of a loop are folded rightly for every round |
| `FoldingComplete.FoldKnowsIff` | docker/phpdeobf/src/Reducer/BinaryOpReducer.php:29-134 | an expression is computed iff all variables its evaluation looks at, short circuits considered, are relied on and it divides by zero nowhere; then its value is its value in every store that agrees, and an operator becomes that literal |
| `FoldingComplete.FoldingIsComplete` | docker/phpdeobf/src/Resolver.php:51-167 | in a folded program, in branches and bodies as well, every operator whose value the straight-line code in front determines is that literal, and so are the expressions of `echo` and `return` |
| `FoldingComplete.AssignedIsRelied` | docker/phpdeobf/src/Resolver.php:390-426 | after an assignment of an expression that is determined exactly its value is newly relied on |
| `FoldingComplete.UnknownSpoilsExactly` | docker/phpdeobf/src/Resolver.php:390-426 | an assignment of a value that is not known spoils exactly the variable and those that share its old cell |
| `FoldingComplete.AssignIsComputed` | docker/phpdeobf/src/Resolver.php:120-140 | an assignment keeps its variable and gets its expression computed; what is left of an operator has an assignment form again |
| `FoldingComplete.ReducedEcho` | docker/phpdeobf/src/Reducer/MiscReducer.php:40-51 | a reduced `echo` has a literal for every known value and the expression for every unknown one; it is not reduced iff one is mutable |
| `Deobfuscator.DeobfuscationKeepsOutput` | docker/phpdeobf/src/Deobfuscator.php:110-116 | goto elimination followed by folding shows exactly what the source shows, if in between no `else` reads what is stale |
| `Deobfuscator.EliminatedNoElses` | docker/phpdeobf/src/Deobfuscator.php:110-116 | code without `else` stays without, blocks inlined into bodies included, so that both passes keep its output |
| `Deobfuscator.Deobfuscate` | docker/phpdeobf/src/Deobfuscator.php:110-116 | both passes on objects |
| `Deobfuscator.ElseReliesOnThen` | docker/phpdeobf/src/Resolver.php:107-160 | a concrete program whose `else` reads what its `then` branch assigned, and whose output folding changes |
| `FoldingVisitor.SecondPass.GetValue` | docker/phpdeobf/src/Utils.php:50-62 | what an expression node's cell gives is what the abstract scope says of it: its value, unknown, or mutable |
| `FoldingVisitor.ScalarValue.SetMutable` | docker/phpdeobf/src/ValRef/AbstractValRef.php:12-15 | the mark is set as asked |
| `FoldingVisitor.ValueScope.SetVariable` | docker/phpdeobf/src/Scope.php:37-44 | one variable refers to the given cell, which it may share |
| `FoldingVisitor.ValueScope.GetVariable` | docker/phpdeobf/src/Scope.php:46-55 | the cell of a variable, if it has one |
| `FoldingVisitor.SecondPass.SetCurrentVarsMutable` | docker/phpdeobf/src/Resolver.php:162-167 | every cell in use is marked, no other |
| `FoldingVisitor.SecondPass.Assign` | docker/phpdeobf/src/Resolver.php:390-426 | takes over the cell of a known value; for an unknown one the old cell is marked, for whoever shares it |
| `FoldingVisitor.SecondPass.VisitExpr` | docker/phpdeobf/src/ResolveValueVisitor.php:48-106 | what an expression is reduced to, and its value cell |
| `FoldingVisitor.SecondPass.VisitStmt` | docker/phpdeobf/src/Resolver.php:51-160 | one statement, with what is inside of it, as on values |
| `FoldingVisitor.SecondPass.ReduceEchoExprs` | docker/phpdeobf/src/Reducer/MiscReducer.php:40-51 | a mutable value stops the reduction, an unknown one keeps its expression |
| `FoldingVisitor.SecondPass.VisitReturn` | docker/phpdeobf/src/Reducer/MiscReducer.php:58-64 | a known result is put in place |
| `FoldingVisitor.FoldProgram` | docker/phpdeobf/src/Deobfuscator.php:110-116 | the pass on objects gives the folded program, which shows the same |
| `SearchTokens.TokenizeString` | mwdb/core/search/parse_helpers.py:22-74 | the tokens are the characters of the value, unescaped and grouped, with wildcards and control escapes between them |
| `LikeOperator.ParseAppends` | mwdb/core/search/parse_helpers.py:129-149 | the meaning of LIKE texts put one behind the other |
| `LikeTranslation.LikeStatementMeans` | mwdb/core/search/parse_helpers.py:129-149 | the LIKE text of every value is well formed and stands for the pattern the value stands for |
| `LikeTranslation.StringEqualsMeansGlob` | mwdb/core/search/parse_helpers.py:350-356 | the chosen condition holds of exactly the strings the value matches, for all strings, iff no value with a wildcard is taken for one without |
| `LikeTranslation.ConfigLikeStatementMeans` | mwdb/core/search/parse_helpers.py:213-240 | the LIKE text for configurations is well formed and stands for the unicode-escaped pattern |
| `LikeTranslation.ConfigTranslationsAgree` | mwdb/core/search/parse_helpers.py:183-240 | without wildcards the LIKE text matches exactly the text of the equality translation |
| `StoredSearch.StoredIsKept` | mwdb/core/search/parse_helpers.py:183-210 | stored text of a configuration, given as a value, is compared as it is, with all its escapes |
| `StoredSearch.StoredFindsItself` | mwdb/core/search/parse_helpers.py:213-281 | with its wildcards escaped it stands for itself in LIKE patterns, and for itself quoted in quoted ones |
| `StoredSearch.StoredWithoutWildcards` | mwdb/core/search/parse_helpers.py:213-240 | stored text without wildcards finds exactly itself without any escape |
| `StoredSearch.EscapedStandsForItself` | mwdb/core/search/parse_helpers.py:21-74 | every text can be searched for: with wildcards and backslashes escaped it is taken for no pattern and stands for itself |
| `StoredSearch.EscapedFindsItself` | mwdb/core/search/parse_helpers.py:121-149 | such a value finds exactly the text, taken for a pattern or not |
| `StoredSearch.BackslashMakesPlain` | mwdb/core/search/parse_helpers.py:38-64 | a backslash makes any character plain but a line feed, in front of which it stands for itself |
| `PatternEnds.PiecesThenStar` | mwdb/core/search/parse_helpers.py:330-340 | a star put behind a value is a wildcard iff the backslashes in front of it are even in number |
| `PatternEnds.SettledIsWrapped` | mwdb/core/search/parse_helpers.py:318-340 | if both ends are judged rightly, the ensured value is the value between two wildcards |
| `PatternEnds.UnsettledEnd` | mwdb/core/search/parse_helpers.py:318-340 | otherwise the ensured value ends in a literal star or newline |
| `PatternEnds.UnsettledStart` | mwdb/core/search/parse_helpers.py:318-340 | or starts with a literal backslash |
| `JsonSearch.QuotedLikeMeans` | mwdb/core/search/parse_helpers.py:152-180 | the quoted LIKE text is well formed and stands for the value's pattern with backslashes and quotes escaped as in JSON |
| `JsonSearch.QuotedConfigMeans` | mwdb/core/search/parse_helpers.py:243-281 | the same under all three escapings, control escapes included |
| `JsonPrefilter.PrefilterKeepsIff` | mwdb/core/search/fields.py:264-296 | for JSON columns, the condition on the whole text, with both quoted patterns for inner values, keeps every document that holds a matching string iff both ends are judged rightly, no literal needs a control escape, and no run of wildcards between two literals is only `?` |
| `JsonPrefilter.PrefilterKeeps` | mwdb/core/search/fields.py:264-296 | the same conditions suffice in both columns and for all values, literal backslashes included |
| `JsonPrefilter.BareRunLoses` | mwdb/core/search/fields.py:264-296 | for a run of `?` between two literals there is a matching string whose document both quoted patterns miss |
| `JsonPrefilter.ConfigBareRunLoses` | mwdb/core/search/fields.py:264-296 | in configurations there is one that unicode escaping gives, for values without quotes and backslashes |
| `JsonPrefilter.UnsettledLoses` | mwdb/core/search/fields.py:264-296 | ends that are judged wrongly and control characters lose every document that is one string |
| `QuestionMarks.SampleIsMissed` | mwdb/core/search/parse_helpers.py:152-180 | a pattern with such a run, quoted, misses the document with a backslash for every `?`; between two `*` it misses it without escaped quotes, too |
| `QuestionMarks.QuotedSampleIsMissed` | mwdb/core/search/parse_helpers.py:152-180 | without quotes it misses the document with a quote for every `?` |
| `QuestionMarks.OwnMisses` | mwdb/core/search/parse_helpers.py:152-180 | where each literal so far was matched by the text made for it, a run of `?` finds too much text in front of its literal |
| `QuestionMarks.AheadBareMisses` | mwdb/core/search/parse_helpers.py:152-180 | literals that are matched one further on run into the closing quote |
| `QuestionMarks.BehindMisses` | mwdb/core/search/parse_helpers.py:152-180 | literals that are matched one further back run into the text made for a `*` |
| `Glob.EncodedMatches` | mwdb/core/search/parse_helpers.py:152-180 | if every run of wildcards has a `*`, encoding pattern and text alike keeps matches |
| `JsonPrefilter.ConfigPrefilterKeepsIff` | mwdb/core/search/fields.py:264-296 | for configurations and the strings that are stored there, iff both ends are judged rightly and no run between two literals is only `?`, or no stored string matches at all |
| `JsonPrefilter.WholeConditionIsRedundant` | mwdb/core/search/fields.py:230-296 | under these conditions the whole row condition equals the condition on elements alone, for inner patterns and for literal ones |
| `JsonPrefilter.QuestionLoses` | mwdb/core/search/fields.py:264-296 | `a?b` matches a string with a quote, which configurations store as it is, and its document is lost in both columns |
| `ContainsSearch.ContainsFinds` | mwdb/core/search/fields.py:230-296 | a search for `*text*` finds exactly the rows in which a selected element's JSON text contains the text as the column holds it, with JSON's quotes or plain ones; the condition on the whole text loses none |
| `ContainsSearch.ElementContains` | mwdb/core/search/fields.py:232-262 | the same for one element, both quoted patterns counted |
| `ContainsSearch.StartFindsIff` | mwdb/core/search/fields.py:230-296 | `text*` accepts exactly the strings that start with the text, in both columns, iff the text is not a single backslash |
| `ContainsSearch.BackslashFindsNothing` | mwdb/core/search/parse_helpers.py:318-328 | a single backslash with a star behind it is taken for a value between two stars and finds no string at all |
| `ContainsSearch.StartFindsRows` | mwdb/core/search/fields.py:230-296 | `text*` finds exactly the rows with a selected scalar that starts with the text, if the column holds it without control characters; the condition on the whole text loses none |
| `FieldPath.SplitTokenizedString` | mwdb/core/search/parse_helpers.py:81-90 | the slices are the parts between separators |
| `FieldPath.CountAsterisks` | mwdb/core/search/parse_helpers.py:107-113 | what the loop leaves in its counter: the trailing asterisks, one less if there is nothing else |
| `FieldPath.ParseFieldPath` | mwdb/core/search/parse_helpers.py:93-118 | name and asterisks of every element |
| `FieldPath.ParsePrinted` | mwdb/core/search/parse_helpers.py:93-118 | what a printed path is parsed as, and that it is the path itself iff no step consists of asterisks only |
| `FieldPath.SelectorIsRead` | mwdb/core/search/parse_helpers.py:284-307 | the jsonpath text, read from its `$` on, gives the root asterisks and all further names and asterisks, quotes and backslashes included |
| `FieldPath.SelectorIsUnambiguous` | mwdb/core/search/parse_helpers.py:284-307 | two paths have the same jsonpath text iff root asterisks and all further steps agree |
| `ThreatPaths.ValidatedIsClean` | docker/plugins/threatlib/validation.py:35-56 | an accepted path has no empty, `.`, `..` or `.git` segment, in upper or lower case, and validating it again gives it back |
| `ThreatPaths.AcceptedIff` | docker/plugins/threatlib/validation.py:35-56 | a path is accepted iff it has 1 to 1024 characters, no backslash and no NUL, its segments are not empty, `..` or `.git`, and not all `.`; of an accepted path only the `.` segments are dropped |
| `ThreatPaths.JoinOfSegments` | docker/plugins/threatlib/validation.py:35-56 | a path is its segments joined |
| `Threatlib.Library.CreateThreat` | docker/plugins/threatlib/service.py:47-68 | answers and new table; mirror and layout are kept |
| `Threatlib.Library.LinkSample` | docker/plugins/threatlib/service.py:125-146 | answers and new table; tags and names of the file agree with the tables afterwards |
| `Threatlib.LinkSucceedsIff` | docker/plugins/threatlib/service.py:113-146 | a link is made iff the path is acceptable and fits the threat, the link is not there, and a flat threat has no other; nothing changes iff the same link is there |
| `Threatlib.StemIs` | docker/plugins/threatlib/service.py:113-122 | the one file of a flat threat has its name, with an extension or, if the name has none itself, without |
| `Threatlib.Library.Unlink` | docker/plugins/threatlib/service.py:149-156 | exactly that link goes; tag and name go only if no other link of the file has them |
| `Threatlib.Library.UnlinkSample` | docker/plugins/threatlib/service.py:159-166 | true iff the link was there |
| `Threatlib.Library.SetCategory` | docker/plugins/threatlib/service.py:169-191 | answers and new table; the tags of all the threat's files agree with the new category |
| `Threatlib.Library.SetReadme` | docker/plugins/threatlib/service.py:194-198 | only the text changes |
| `Threatlib.Library.DeleteThreat` | docker/plugins/threatlib/service.py:201-211 | the threat and exactly its links go; the mirror is kept |
| `Threatlib.Library.ApplyMirror` | docker/plugins/threatlib/mirror.py:9-13 | tag and name are added to the file, if there is one |
| `Threatlib.Library.RemoveMirror` | docker/plugins/threatlib/mirror.py:16-24 | tag and name are removed unless a remaining link has them |
| `Threatlib.Serve` | docker/plugins/threatlib/service.py:47-211 | the tables at the end are what the requests make of those at the start, and every object's category tags are exactly the categories, and its names exactly the names, of the threats that link it; other tags are untouched |
| `Threatlib.Library.ServeOne` | docker/plugins/threatlib/service.py:47-211 | the same for one request, refused ones included |
| `Threatlib.LinkMirrors` | docker/plugins/threatlib/service.py:139-142 | adding the link, its tag and its name keeps the mirror |
| `Threatlib.UnlinkMirrors` | docker/plugins/threatlib/service.py:149-156 | removing a link with the conditional removal keeps the mirror, with files under several paths and in several threats |
| `Threatlib.RecategorizedMirrors` | docker/plugins/threatlib/service.py:176-188 | retagging all files of a threat keeps the mirror |
| `ThreatExport.LinkPathsDiffer` | docker/plugins/threatlib/sync/export.py:143-152 | different links go to different repository paths |
| `ThreatExport.LinkSegments` | docker/plugins/threatlib/sync/export.py:143-152 | a link goes below the directory of its category, and of its threat if that is one; no segment of its path is empty, `.`, `..` or `.git` |
| `ThreatExport.SamplesAreNoReadmes` | docker/plugins/threatlib/sync/export.py:143-157 | no sample path is a README path |
| `ThreatExport.DirectoriesDiffer` | docker/plugins/threatlib/sync/export.py:153-157 | different threats have different README entries |
| `ThreatExport.Export` | docker/plugins/threatlib/sync/export.py:140-158 | the manifest holds exactly one entry per link with that link's hash and one per README with its hash; the statistics count them |
| `ThreatExport.WriteLinks` | docker/plugins/threatlib/sync/export.py:147-152 | the links of one threat are added, none of them over another entry |
| `ThreatExport.WriteReadme` | docker/plugins/threatlib/sync/export.py:153-157 | the README of one threat is added, if it has one |
| `PhpTags.OverlapIsEnough` | mwdb/core/filetype.py:16-18 | what lies in front of the kept end makes no difference to what a tag search finds with the next chunk |
| `PhpTags.HasTagMeans` | mwdb/core/filetype.py:15-38 | the tags found in lowercased bytes are the open tags in the bytes themselves, letters in either case |
| `PhpTags.ContainsPhpTag` | mwdb/core/filetype.py:21-38 | for every content and every way reads split it: true iff the content holds `<?=`, or `<?php` in any case; the stream ends at its start |
| `PhpTags.RefineFileType` | mwdb/core/filetype.py:41-51 | the verdict says PHP iff it did or the content holds a tag; what is behind the first comma stays, comma included |
| `ConfigValues.RearrangedSameHash` | mwdb/core/util.py:31-37 | the hash of a configuration does not depend on the order of lists and dictionaries at any depth |
| `HashCollisions.SameHashIff` | mwdb/core/util.py:31-37 | if the hash function and Python's text of a list tell their arguments apart, two values share a hash iff they are the same up to order at any depth, scalars that print alike, and empty lists for empty dictionaries |
| `ConfigValues.SortedForgetsOrder` | mwdb/core/util.py:31-37 | sorting gives the same for the same strings in another order |
| `ConfigValues.EncodedIsDecoded` | mwdb/core/util.py:40-66 | decoding an encoded value gives it back, for every nested value |
| `ConfigValues.EncodedIsPrintable` | mwdb/core/util.py:40-58 | what is stored is printable ASCII at any depth, with the same structure, keys and scalars |

## Left out

- Database sessions, savepoints, IntegrityError retries and commits: tables are maps and sets, and each call is atomic.
- Deleting objects, explicit access checks, hooks, and the clock, which is the parameter `now`.
- A claim that every share left after an unlink is justified by a parent: it is false, as the diamond shows. Which objects count as uploads is a parameter of `NothingUnjustifiedIff`.
- `else if`, `switch`, `try`, `for`, `foreach`, functions and classes, `break` and `continue`: goto elimination and folding are modelled on simple statements, `return`, `goto`, labels, `if` with `else`, `while` and `do`.
- GotoElimination.EliminationKeepsMeaning: is about programs with distinct top-level labels, every goto's label defined, no label in a body, no goto inside a loop, and no label that `mkname` may generate (a name, `_If_`, `_Else_`, `_While_` or `_Do_`, and a number); other programs are not modelled.
- Conservation.EliminationConserves: counts nodes of blocks; code behind a jump is dropped when it is appended, as in the source. Labels and gotos may be dropped; `LabelsLeftIff` and `GotosLeftExactly` say which labels and how many gotos.
- Code set aside because a label is never defined: in the fragment every label is defined, so putting it back adds nothing; the objects build it in a local list instead of the field.
- A node of an `if` or a loop holds its nested block from the moment it is appended; in the source the attribute is set right after.
- Comments on implied gotos and returns, and the wrapper nodes that keep the parser from traversing children.
- FoldingSound.FoldingKeepsOutput: for programs in which no `else` reads a stale variable, where a variable is stale if the `then` branch gave it a value that is known from the code. The condition suffices; an `else` that reads one may still show the same by chance of its values, which no condition on the code decides.
- FoldingComplete.FoldingIsComplete: behind an assignment that is not determined it gives up variables that were assigned from one another and may share a cell, even if they do not share this one; `UnknownSpoilsExactly` and `FoldKnowsIff` are exact for every scope.
- Provenance.UnlinkTakesAllBack: the conditions suffice; what an unlink takes back in general is `Uninherit.UnlinkRemovesExactly`.
- Deobfuscator.DeobfuscationKeepsOutput: states the condition on the code between the two passes.
- FoldingVisitor.ValueScope.SetVariable: superglobals, which a scope keeps apart from its variables, are not modelled.
- FoldingVisitor.ValueScope.GetVariable: superglobals, which are looked up first, are not modelled.
- Arrays, objects, references, `global`, functions, closures, `unset`, `eval`, include, `$GLOBALS` fallbacks and variable variables in folding.
- Operators that throw, warnings, and how PHP converts and prints values: the operators are a parameter, total on values, and `echo` shows values.
- Annotations about reductions and the pretty printer.
- luqum's parser and its wildcard expression: whether a value is taken for a pattern is the parameter of `LikeTranslation.StringEqualsMeansGlob`.
- JsonPrefilter.PrefilterKeepsIff: for a value that has both a backslash as a literal and a run of `?` between two literals, only that the conditions suffice (`PrefilterKeeps`), not that they are needed.
- JsonPrefilter.ConfigPrefilterKeepsIff: the same for a value that has a backslash or a quote as a literal and such a run.
- JsonPrefilter.WholeConditionIsRedundant: for literal patterns the elements are strings or print like their JSON text; objects and arrays under the selected path are left out.
- Ranges in jsonpath, whose bounds are compared as strings, and the evaluation of jsonpath itself.
- Code points are characters; collation and normalisation in PostgreSQL are left out.
- Threat library: creation and update times, listing, loading files that are gone; tags that users add under a category's name count as the mirror's.
- ThreatExport.Export: writing to disk, snapshots, preserved paths, the collision check, and a path that is a directory of another path; reading an object and hashing it is the parameter `hash`.
- ThreatPaths.ValidatedIsClean: `posixpath.normpath` is modelled for relative paths; lowercasing is ASCII.
- ConfigValues.RearrangedSameHash: SHA-256 and Python's text of a list are parameters; tuples are lists.
- HashCollisions.SameHashIff: a text or key that is itself a hash or the text of a list of hashes can share a hash with what it stands for, as the code hashes both alike; such values are excluded.
- ConfigValues.EncodedIsDecoded: decoding knows the escapes that encoding makes; octal, named and other escapes are errors in the model.
- libmagic, ssdeep, TLSH, storage, the HTTP resources and the web interface.
