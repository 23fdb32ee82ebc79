/** `LabelScope` of `ControlFlowVisitor.php` as an object, and the state it stands for. */
module HeapScope {
  import opened CodeBlocks
  import opened HeapBlocks

  class LabelScope {
    const root: CodeBlock
    var currentBlock: CodeBlock
    var counter: nat
    var blockStack: seq<CodeBlock>
    var blocks: map<Name, CodeBlock>
    ghost var known: set<CodeBlock>
    ghost var clock: nat

    ghost function All(): map<Name, CodeBlock>
      reads this`blocks
    {
      blocks[root.name := root]
    }

    ghost predicate Valid()
      reads this, known
    {
      && root.name == MAIN && MAIN !in blocks && Indexed(All(), known) && AllClosed(known)
      && currentBlock in known && forall b :: b in blockStack ==> b in known
    }

    ghost function Abs(): State
      requires Valid()
      reads this, known
    {
      State(Views(All(), known), currentBlock.name, Names(blockStack), counter, clock, false)
    }

    constructor (root: CodeBlock)
      requires root.name == MAIN && root.View() == NewBlock(MAIN) && root.Closed({})
      modifies root`defined, root`defAt
      ensures Valid() && this.root == root && known == {root}
      ensures Abs() == InitialState()
    {
      hide Indexed, AllClosed, Views;
      this.root := root;
      currentBlock := root;
      counter, blockStack, blocks := 0, [root], map[];
      known, clock := {root}, 1;
      new;
      root.SetDefined(1);
      OneView(root);
      OneClosed(root);
      assert All() == map[root.name := root];
      assert Names(blockStack) == [MAIN];
    }

    method AddBlock(b: CodeBlock)
      requires Valid() && b.name != MAIN && b.name !in blocks && b.View() == NewBlock(b.name) && b.Closed({})
      modifies this`blocks, this`known
      ensures Valid() && blocks == old(blocks)[b.name := b] && known == old(known) + {b}
      ensures Abs() == Put(old(Abs()), b.name, NewBlock(b.name))
    {
      hide Indexed, AllClosed, CodeBlock.View, CodeBlock.Closed, Views;
      IndexedAdd(All(), known, b);
      ClosedAdd(known, b);
      ViewsAdd(All(), known, b);
      assert All()[b.name := b] == blocks[b.name := b][root.name := root];
      blocks := blocks[b.name := b];
      known := known + {b};
    }

    method GetBlock(l: Name) returns (b: CodeBlock)
      requires Valid() && l != MAIN
      modifies this`blocks, this`known
      ensures Valid() && b in known && b.name == l && Abs() == CodeBlocks.GetBlock(old(Abs()), l)
      ensures l in old(blocks) ==> known == old(known)
      ensures l !in old(blocks) ==> fresh(b) && !b.built && known == old(known) + {b}
    {
      hide Indexed, AllClosed, CodeBlock.View, CodeBlock.Closed, Views;
      ViewsAt(All(), known);
      if l !in blocks {
        b := new CodeBlock(l);
        AddBlock(b);
      }
      IndexedBlock(All(), known, l);
      b := blocks[l];
    }
  }
}
