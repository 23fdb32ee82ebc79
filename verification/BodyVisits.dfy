/** Visiting statements that hold no labels: what they add to the current block, and what they leave alone. */
module BodyVisits {
  import opened Wrappers
  import opened PhpCode
  import opened Annotated
  import opened CodeBlocks
  import opened BlockCode
  import opened BlockInvariant
  import opened BlockNames
  import opened BlockVisits

  /** Statements without labels; inside of loops without gotos, too. */
  predicate BodyOk(ss: seq<Stmt>, inLoop: bool, labels: set<Name>)
    decreases ss
  {
    ss != [] ==> BodyStmtOk(ss[0], inLoop, labels) && BodyOk(ss[1..], inLoop, labels)
  }

  predicate BodyStmtOk(s: Stmt, inLoop: bool, labels: set<Name>)
    decreases s
  {
    match s
    case Plain(_) => true
    case Return(_, _) => true
    case Goto(l) => !inLoop && l in labels
    case Label(_) => false
    case If(_, thn, els) => BodyOk(thn, inLoop, labels) && (els.Else? ==> BodyOk(els.stmts, inLoop, labels))
    case Loop(kind, _, body) => kind != DoTest && BodyOk(body, true, labels)
  }

  lemma {:induction false} BodyHasNoLabels(ss: seq<Stmt>, inLoop: bool, labels: set<Name>)
    requires BodyOk(ss, inLoop, labels)
    ensures NoLabels(ss)
    decreases ss
  {
    if ss != [] {
      BodyHasNoLabels(ss[1..], inLoop, labels);
      forall i | 0 <= i < |ss| ensures !ss[i].Label? {
        if i > 0 {
          assert ss[i] == ss[1..][i - 1];
        }
      }
    }
  }

  /** Control does not get behind the statements. */
  predicate HasTerm(ss: seq<Stmt>) {
    exists s :: s in ss && (s.Goto? || s.Return?)
  }

  // ---- What visits leave alone ------------------------------------------------------------------

  ghost predicate SameCode(b: Block, b': Block) {
    b' == b.(enters := b'.enters, entersPerName := b'.entersPerName)
  }

  ghost predicate CurrentGrew(b: Block, b': Block) {
    && SameFace(b, b') && b'.defAt == b.defAt
    && b.nodes <= b'.nodes
    && (forall l :: HasLabel(b', l) ==> HasLabel(b, l))
    && (b.unreachable ==> b'.nodes == b.nodes && b'.unreachable && b'.exit == b.exit)
  }

  ghost predicate NewBlockFits(n: Name, b: Block, clock: nat, labels: set<Name>) {
    && b.aliasOf.None? && (forall l :: !HasLabel(b, l))
    && (if b.defined then b.defAt > clock && n !in labels else n in labels)
  }

  ghost predicate Grew(st: State, st': State, labels: set<Name>) {
    && st'.current == st.current && st'.stack == st.stack && st.clock <= st'.clock && st.counter <= st'.counter
    && st.current in st.blocks
    && (forall n :: n in st.blocks ==> n in st'.blocks && (n != st.current ==> SameCode(st.blocks[n], st'.blocks[n])))
    && CurrentGrew(st.blocks[st.current], st'.blocks[st.current])
    && (forall n :: n in st'.blocks && n !in st.blocks ==> NewBlockFits(n, st'.blocks[n], st.clock, labels))
  }

  lemma GrewTrans(a: State, b: State, c: State, labels: set<Name>)
    requires Grew(a, b, labels) && Grew(b, c, labels)
    ensures Grew(a, c, labels)
  {
    forall n | n in c.blocks && n !in a.blocks ensures NewBlockFits(n, c.blocks[n], a.clock, labels) {
      if n in b.blocks {
        assert NewBlockFits(n, b.blocks[n], a.clock, labels);
        assert c.blocks[n].nodes == b.blocks[n].nodes;
        forall l ensures !HasLabel(c.blocks[n], l) {
          assert !HasLabel(b.blocks[n], l);
        }
      } else {
        assert NewBlockFits(n, c.blocks[n], b.clock, labels);
      }
    }
  }

  /** Only label names and generated names are in use. */
  ghost predicate NamesOk(st: State, labels: set<Name>) {
    forall n :: n in st.blocks ==> n in labels || n == MAIN || GeneratedBefore(n, st.counter)
  }

  ghost predicate LabelNames(labels: set<Name>) {
    MAIN !in labels && forall l :: l in labels ==> !Generated(l)
  }

  lemma NewName(st: State, labels: set<Name>, key: string)
    requires NamesOk(st, labels) && LabelNames(labels) && IsKey(key)
    ensures var n := MkName(st.current, key, st.counter);
      && n !in st.blocks && n !in labels && n != MAIN && GeneratedBefore(n, st.counter + 1)
  {
    NextNameIsNew(st.current, key, st.counter);
    MainIsNotGenerated();
  }

  lemma NamesStay(st: State, st': State, labels: set<Name>)
    requires NamesOk(st, labels) && st.counter <= st'.counter
    requires forall n :: n in st'.blocks && n !in st.blocks ==>
      n in labels || n == MAIN || GeneratedBefore(n, st'.counter)
    ensures NamesOk(st', labels)
  {
    forall n | n in st'.blocks && n in st.blocks && n !in labels && n != MAIN ensures GeneratedBefore(n, st'.counter) {
      var p, k, i: nat :| IsKey(k) && i < st.counter && n == MkName(p, k, i);
    }
  }

  /** Statements may be visited, and every label may be jumped to. */
  ghost predicate Ready(st: State, labels: set<Name>) {
    && StateOk(st) && NamesOk(st, labels)
    && forall l :: l in labels && l in st.blocks ==> Jumpable(st, l)
  }

  /** What a jump relies on stays; new blocks with a label's name are not defined yet. */
  ghost predicate JumpsKept(st: State, st': State, labels: set<Name>) {
    && st.clock <= st'.clock
    && (forall n :: n in st.blocks ==> n in st'.blocks && SameForJumps(st.blocks[n], st'.blocks[n]))
    && (forall l :: l in labels && l in st'.blocks && l !in st.blocks ==> !st'.blocks[l].defined)
  }

  ghost predicate SameForJumps(b: Block, b': Block) {
    && b'.aliasOf == b.aliasOf && b'.defAt == b.defAt && b'.home == b.home && b'.defined == b.defined
    && b'.inLoop == b.inLoop
    && b.nodes <= b'.nodes
  }

  lemma GrewKeepsJumps(st: State, st': State, labels: set<Name>)
    requires Grew(st, st', labels)
    ensures JumpsKept(st, st', labels)
  {}

  lemma JumpableStays(st: State, st': State, labels: set<Name>, l: Name)
    requires BlocksOk(st.blocks, st.clock) && BlocksOk(st'.blocks, st'.clock) && JumpsKept(st, st', labels)
      && l in labels && l in st'.blocks
    requires l in st.blocks ==> Jumpable(st, l)
    ensures Jumpable(st', l)
  {
    hide LinksOk, RefsOk;
    assert LocalOk(st'.blocks[l], st'.clock);
    if l in st.blocks {
      RootIsLive(st, l);
      RootUnmoved(st, st', l);
      if st.blocks[l].defined {
        HasLabelGrows(st.blocks[Root(st, l)], st'.blocks[Root(st, l)], l);
      }
    }
  }

  lemma HasLabelGrows(b: Block, b': Block, l: Name)
    requires HasLabel(b, l) && b.nodes <= b'.nodes
    ensures HasLabel(b', l)
  {
    var i :| 0 <= i < |b.nodes| && b.nodes[i] == NLabel(l);
    assert b'.nodes[i] == NLabel(l);
  }

  /** The visit of `ss`, which starts in `st`, ends in `st'`. */
  ghost predicate Visited(st: State, st': State, ss: seq<Stmt>, labels: set<Name>) {
    && Ready(st', labels) && Grew(st, st', labels)
    && var b, b' := st.blocks[st.current], st'.blocks[st.current];
       !b.unreachable ==> Holds(st'.blocks, b.defAt, b'.nodes[|b.nodes|..], ss) && b'.unreachable == HasTerm(ss)
  }

  // ---- Putting code together ----------------------------------------------------------------------

  /** Blocks defined after `d` keep their nodes. */
  ghost predicate CodeKept(blocks: Blocks, blocks': Blocks, d: nat) {
    forall n :: n in blocks && blocks[n].defAt > d && blocks[n].home.Some? ==>
      n in blocks' && blocks'[n].nodes == blocks[n].nodes && blocks'[n].elseBlock == blocks[n].elseBlock
        && blocks'[n].defAt == blocks[n].defAt
      && blocks'[n].home.Some?
  }

  lemma {:induction false} HoldsStays(blocks: Blocks, blocks': Blocks, d: nat, d': nat, ns: seq<Node>, ks: seq<Stmt>)
    requires Holds(blocks, d, ns, ks) && CodeKept(blocks, blocks', d) && d' <= d
    ensures Holds(blocks', d', ns, ks)
    decreases ks, 0
  {
    if ks != [] {
      match ks[0]
      case If(_, thn, els) =>
        HeldStays(blocks, blocks', d, d', ns[0].sub, thn);
        if els.Else? {
          HeldStays(blocks, blocks', d, d', blocks[ns[0].sub].elseBlock.value, els.stmts);
        }
        HoldsStays(blocks, blocks', d, d', ns[1..], ks[1..]);
      case Loop(_, _, body) =>
        HeldStays(blocks, blocks', d, d', ns[0].sub, body);
        HoldsStays(blocks, blocks', d, d', ns[1..], ks[1..]);
      case Plain(_) => HoldsStays(blocks, blocks', d, d', ns[1..], ks[1..]);
      case _ =>
    }
  }

  lemma {:induction false} HeldStays(blocks: Blocks, blocks': Blocks, d: nat, d': nat, b: Name, body: seq<Stmt>)
    requires HeldBy(blocks, d, b, body) && CodeKept(blocks, blocks', d) && d' <= d
    ensures HeldBy(blocks', d', b, body)
    decreases body, 1
  {
    HoldsStays(blocks, blocks', d, d', blocks[b].nodes, body);
  }

  /** More code behind code that control gets behind. */
  lemma {:induction false} HoldsConcat(blocks: Blocks, d: nat, ns: seq<Node>, ks: seq<Stmt>, ns': seq<Node>,
      ks': seq<Stmt>)
    requires NoLabels(ks) && !HasTerm(ks) && Holds(blocks, d, ns, ks) && Holds(blocks, d, ns', ks')
    ensures Holds(blocks, d, ns + ns', ks + ks')
    decreases |ks|
  {
    if ks == [] {
      assert ns + ns' == ns' && ks + ks' == ks';
    } else {
      assert ks[0] in ks && forall s :: s in ks[1..] ==> s in ks;
      assert (ns + ns')[0] == ns[0] && (ns + ns')[1..] == ns[1..] + ns';
      assert (ks + ks')[0] == ks[0] && (ks + ks')[1..] == ks[1..] + ks';
      HoldsConcat(blocks, d, ns[1..], ks[1..], ns', ks');
    }
  }

  /** Code that control does not get to is not held. */
  lemma {:induction false} HoldsDead(blocks: Blocks, d: nat, ns: seq<Node>, ks: seq<Stmt>, ks': seq<Stmt>)
    requires NoLabels(ks) && HasTerm(ks) && Holds(blocks, d, ns, ks)
    ensures Holds(blocks, d, ns, ks + ks')
    decreases |ks|
  {
    assert (ks + ks')[0] == ks[0] && (ks + ks')[1..] == ks[1..] + ks';
    if !(ks[0].Goto? || ks[0].Return?) {
      var s :| s in ks && (s.Goto? || s.Return?);
      assert s in ks[1..];
      HoldsDead(blocks, d, ns[1..], ks[1..], ks');
    }
  }

  lemma GrewKeepsCode(st: State, st': State, labels: set<Name>)
    requires Grew(st, st', labels)
    ensures CodeKept(st.blocks, st'.blocks, st.blocks[st.current].defAt)
  {}

  lemma VisitedTrans(st: State, st1: State, st2: State, s: Stmt, rest: seq<Stmt>, labels: set<Name>)
    requires Visited(st, st1, [s], labels) && Visited(st1, st2, rest, labels) && !s.Label?
    ensures Visited(st, st2, [s] + rest, labels)
  {
    hide Ready, Holds;
    GrewTrans(st, st1, st2, labels);
    var b, b1, b2 := st.blocks[st.current], st1.blocks[st.current], st2.blocks[st.current];
    if !b.unreachable {
      var d := b.defAt;
      GrewKeepsCode(st1, st2, labels);
      var ns1 := b1.nodes[|b.nodes|..];
      HoldsStays(st1.blocks, st2.blocks, d, d, ns1, [s]);
      assert HasTerm([s] + rest) == (HasTerm([s]) || HasTerm(rest)) by {
        TermOfConcat([s], rest);
      }
      if b1.unreachable {
        HoldsDead(st2.blocks, d, ns1, [s], rest);
      } else {
        HoldsConcat(st2.blocks, d, ns1, [s], b2.nodes[|b1.nodes|..], rest);
        assert b2.nodes[|b.nodes|..] == ns1 + b2.nodes[|b1.nodes|..];
      }
    }
  }

  lemma TermOfConcat(a: seq<Stmt>, b: seq<Stmt>)
    ensures HasTerm(a + b) == (HasTerm(a) || HasTerm(b))
  {
    if HasTerm(a) {
      var s :| s in a && (s.Goto? || s.Return?);
      assert s in a + b;
    }
    if HasTerm(b) {
      var s :| s in b && (s.Goto? || s.Return?);
      assert s in a + b;
    }
  }

  // ---- The visits ---------------------------------------------------------------------------------

  lemma VisitNothing(st: State, labels: set<Name>)
    requires Ready(st, labels)
    ensures Visited(st, st, [], labels)
  {
    var b := st.blocks[st.current];
    assert b.nodes[|b.nodes|..] == [];
  }

  lemma ReadyStays(st: State, st': State, labels: set<Name>)
    requires Ready(st, labels) && StateOk(st') && Grew(st, st', labels)
    requires forall n :: n in st'.blocks && n !in st.blocks ==>
      n in labels || n == MAIN || GeneratedBefore(n, st'.counter)
    ensures Ready(st', labels)
  {
    hide StateOk, Jumpable, JumpsKept, BlocksOk;
    NamesStay(st, st', labels);
    GrewKeepsJumps(st, st', labels);
    AllJumpable(st, st', labels);
  }

  lemma AllJumpable(st: State, st': State, labels: set<Name>)
    requires StateOk(st) && StateOk(st') && JumpsKept(st, st', labels)
    requires forall l :: l in labels && l in st.blocks ==> Jumpable(st, l)
    ensures forall l :: l in labels && l in st'.blocks ==> Jumpable(st', l)
  {
    hide Jumpable, BlocksOk, JumpsKept;
    forall l | l in labels && l in st'.blocks ensures Jumpable(st', l) {
      JumpableStays(st, st', labels, l);
    }
  }

  lemma BlocksAreOk(st: State)
    requires StateOk(st)
    ensures BlocksOk(st.blocks, st.clock)
  {}

  lemma VisitPlain(st: State, x: Simple, labels: set<Name>)
    requires Ready(st, labels)
    ensures Visited(st, Visit(st, Plain(x)), [Plain(x)], labels)
  {
    hide StateOk, Jumpable, GeneratedBefore;
    var st' := Append(st, NPlain(x));
    PlainKeepsOk(st, x);
    CurrentIsOk(st);
    AppendAppends(st, NPlain(x));
    AppendGrows(st, NPlain(x), labels);
    ReadyStays(st, st', labels);
    var b, b' := st.blocks[st.current], st'.blocks[st.current];
    if !b.unreachable {
      assert b'.nodes[|b.nodes|..] == [NPlain(x)];
      OnePlain(st'.blocks, b.defAt, x);
    }
  }

  lemma OnePlain(blocks: Blocks, d: nat, x: Simple)
    ensures Holds(blocks, d, [NPlain(x)], [Plain(x)]) && !HasTerm([Plain(x)])
  {
    var ns: seq<Node> := [NPlain(x)];
    assert [Plain(x)][1..] == [] && ns[1..] == [];
  }

  lemma CurrentIsOk(st: State)
    requires StateOk(st)
    ensures st.current in st.blocks && st.blocks[st.current].aliasOf.None? && st.blocks[st.current].defined
    ensures LocalOk(st.blocks[st.current], st.clock)
  {}

  lemma AppendGrows(st: State, node: Node, labels: set<Name>)
    requires st.current in st.blocks && st.blocks[st.current].aliasOf.None? && !node.NLabel?
    ensures Grew(st, Append(st, node), labels)
  {
    AppendAppends(st, node);
    var b, b' := st.blocks[st.current], Append(st, node).blocks[st.current];
    forall l | HasLabel(b', l) ensures HasLabel(b, l) {}
  }

  lemma VisitReturn(st: State, e: Option<Expr>, implied: bool, labels: set<Name>)
    requires Ready(st, labels)
    ensures Visited(st, Visit(st, Return(e, implied)), [Return(e, implied)], labels)
  {
    hide StateOk, Jumpable, GeneratedBefore;
    var node := NReturn(e, implied);
    var s := Return(e, implied);
    var st1 := Append(st, node);
    var st' := SetUnreachable(st1);
    ReturnKeepsOk(st, e, implied);
    CurrentIsOk(st);
    AppendAppends(st, node);
    AppendGrows(st, node, labels);
    UnreachableGrows(st, st1, labels);
    ReadyStays(st, st', labels);
    var b, b' := st.blocks[st.current], st'.blocks[st.current];
    if !b.unreachable {
      assert b'.nodes[|b.nodes|..] == [node];
      assert s in [s] && HasTerm([s]);
    }
  }

  lemma UnreachableGrows(st: State, st1: State, labels: set<Name>)
    requires Grew(st, st1, labels)
    ensures Grew(st, SetUnreachable(st1), labels)
  {
    var b, b' := st.blocks[st.current], SetUnreachable(st1).blocks[st.current];
    forall l | HasLabel(b', l) ensures HasLabel(b, l) {
      assert HasLabel(st1.blocks[st.current], l);
    }
  }

  lemma GetBlockCommutes(st: State, l: Name)
    requires StateOk(st)
    ensures GetBlock(Append(st, NGoto(l)), l) == Append(GetBlock(st, l), NGoto(l))
  {
    hide LocalOk, LinksOk, RefsOk;
    var b := st.blocks[st.current];
    assert b.exit.Some? ==> b.exit.value.to in st.blocks by {
      assert LinksOk(st.blocks, st.current);
      ExitInBlocks(st.blocks, st.current);
    }
    if l !in st.blocks {
      PutCommutes(st.blocks, st.current, b.(nodes := b.nodes + [NGoto(l)]), l);
      PutCommutes(st.blocks, st.current, b.(unreachableNodes := b.unreachableNodes + [NGoto(l)]), l);
    }
  }

  lemma PutCommutes(blocks: Blocks, m: Name, b: Block, n: Name)
    requires m != n
    ensures blocks[m := b][n := NewBlock(n)] == blocks[n := NewBlock(n)][m := b]
  {}

  lemma ExitInBlocks(blocks: Blocks, n: Name)
    requires n in blocks && LinksOk(blocks, n)
    ensures blocks[n].exit.Some? ==> blocks[n].exit.value.to in blocks
  {}

  lemma GetBlockGrows(st: State, l: Name, labels: set<Name>)
    requires Ready(st, labels) && l in labels
    ensures Grew(st, GetBlock(st, l), labels) && Ready(GetBlock(st, l), labels) && l in GetBlock(st, l).blocks
  {
    hide StateOk, Jumpable, GeneratedBefore;
    CurrentIsOk(st);
    GetBlockKeepsOk(st, l);
    ReadyStays(st, GetBlock(st, l), labels);
  }

  lemma JumpGrows(st: State, l: Name, labels: set<Name>)
    requires StateOk(st) && Jumpable(st, l) && !Current(st).inLoop
    ensures var st' := MoveInto(Append(st, NGoto(l)), l);
      && Grew(st, st', labels) && st'.blocks.Keys == st.blocks.Keys
      && (!Current(st).unreachable ==> st'.blocks[st.current].nodes == Current(st).nodes + [NGoto(l)])
  {
    hide LocalOk, LinksOk, RefsOk, Jumpable, BlocksOk;
    if Current(st).unreachable {
      AppendGrows(st, NGoto(l), labels);
    } else {
      ReachableJump(st, l);
      JumpedGrows(st, l, Root(st, l), labels);
    }
  }

  lemma JumpedGrows(st: State, l: Name, r: Name, labels: set<Name>)
    requires st.current in st.blocks && r in st.blocks && !st.blocks[st.current].unreachable
    ensures Grew(st, st.(blocks := Jumped(st.blocks, st.current, l, r)), labels)
  {
    var b, b' := st.blocks[st.current], Jumped(st.blocks, st.current, l, r)[st.current];
    assert b'.nodes == b.nodes + [NGoto(l)];
    forall x | HasLabel(b', x) ensures HasLabel(b, x) {}
  }

  lemma UnreachableKeepsOk(st: State)
    requires BlocksOk(st.blocks, st.clock) && !st.failed && st.current in st.blocks
    requires st.blocks[st.current].defined && st.blocks[st.current].aliasOf.None?
    ensures StateOk(SetUnreachable(st))
  {
    hide LocalOk, LinksOk, RefsOk;
    var st' := SetUnreachable(st);
    assert FacesKept(st.blocks, st'.blocks) && LinksKept(st.blocks, st'.blocks);
    forall n | n in st'.blocks
      ensures LocalOk(st'.blocks[n], st.clock) && LinksOk(st'.blocks, n) && RefsOk(st'.blocks, n) {
      hide FacesKept, LinksKept;
      assert LocalOk(st.blocks[n], st.clock) && LinksOk(st.blocks, n) && RefsOk(st.blocks, n);
      LinksStay(st.blocks, st'.blocks, n);
      RefsStay(st.blocks, st'.blocks, n);
      if n == st.current {
        UnreachableLocal(st.blocks[n], st.clock);
      }
    }
  }

  lemma UnreachableLocal(b: Block, clock: nat)
    requires LocalOk(b, clock) && b.defined
    ensures LocalOk(b.(unreachable := true), clock)
  {}

  lemma VisitGoto(st: State, l: Name, labels: set<Name>)
    requires Ready(st, labels) && l in labels && !Current(st).inLoop
    ensures Visited(st, Visit(st, Goto(l)), [Goto(l)], labels)
  {
    hide StateOk, Jumpable, GeneratedBefore, BlocksOk;
    GetBlockCommutes(st, l);
    GetBlockGrows(st, l, labels);
    var st1 := GetBlock(st, l);
    JumpKeepsOk(st1, l);
    JumpGrows(st1, l, labels);
    var st2 := MoveInto(Append(st1, NGoto(l)), l);
    var st' := SetUnreachable(st2);
    UnreachableKeepsOk(st2);
    UnreachableGrows(st1, st2, labels);
    ReadyStays(st1, st', labels);
    GrewTrans(st, st1, st', labels);
    assert st' == Visit(st, Goto(l));
    CurrentIsOk(st);
    var b, b' := st.blocks[st.current], st'.blocks[st.current];
    assert st1.blocks[st.current] == b;
    if !b.unreachable {
      assert b'.nodes[|b.nodes|..] == [NGoto(l)];
      assert Goto(l) in [Goto(l)] && HasTerm([Goto(l)]);
    }
  }

  /** Opening a nested block keeps the state ready. */
  lemma EnterNestedReady(st: State, node: Node, key: string, labels: set<Name>)
    requires Ready(st, labels) && LabelNames(labels) && IsNested(node) && IsKey(key)
      && node.sub == MkName(st.current, key, st.counter)
    ensures var st' := EnterNested(st, node, key);
      && node.sub !in st.blocks && node.sub !in labels
      && Ready(st', labels) && st' ==
        Opened(Append(st, node), node.sub, NextHome(st), Current(st).inLoop || node.NLoop?)
  {
    hide StateOk, Jumpable, GeneratedBefore, BlocksOk;
    NewName(st, labels, key);
    EnterNestedKeepsOk(st, node, key);
    CurrentIsOk(st);
    AppendGrows(st, node, labels);
    var st1 := Append(st, node);
    var st' := EnterNested(st, node, key);
    OpenedReady(st, st1, node.sub, NextHome(st), Current(st).inLoop || node.NLoop?, labels);
  }

  lemma OpenedReady(st: State, st1: State, n: Name, home: Option<Home>, inLoop: bool, labels: set<Name>)
    requires Ready(st, labels) && Grew(st, st1, labels) && st1.blocks.Keys == st.blocks.Keys
      && st1.counter == st.counter && st1.clock == st.clock
    requires n !in st.blocks && n !in labels && GeneratedBefore(n, st.counter + 1)
    requires StateOk(Opened(st1, n, home, inLoop))
    ensures Ready(Opened(st1, n, home, inLoop), labels)
  {
    hide StateOk, Jumpable, GeneratedBefore;
    var st' := Opened(st1, n, home, inLoop);
    NamesStay(st, st', labels);
    assert JumpsKept(st, st', labels);
    AllJumpable(st, st', labels);
  }

  /** Opening an `else` block keeps the state ready. */
  lemma EnterElseReady(st: State, sub: Name, labels: set<Name>)
    requires Ready(st, labels) && LabelNames(labels) && st.current == sub && st.blocks[sub].elseBlock.None?
      && st.blocks[sub].home.Some?
    ensures var eb := MkName(sub, ELSE_KEY, st.counter);
      var open := Opened(st, eb, st.blocks[sub].home, st.blocks[sub].inLoop);
      && eb !in st.blocks && eb !in labels && Ready(EnterElse(st, sub), labels)
      && EnterElse(st, sub) == Put(open, sub, open.blocks[sub].(elseBlock := Some(eb)))
  {
    hide StateOk, Jumpable, GeneratedBefore, BlocksOk, EnterElse, MkName;
    NewName(st, labels, ELSE_KEY);
    CurrentIsOk(st);
    EnterElseKeepsOk(st, sub);
    var st' := EnterElse(st, sub);
    NamesStay(st, st', labels);
    assert JumpsKept(st, st', labels);
    AllJumpable(st, st', labels);
  }

  /** Going back to the block that holds the nested one. */
  lemma PopReady(st: State, outer: Name, labels: set<Name>)
    requires Ready(st, labels) && st.stack != [] && st.stack[|st.stack| - 1] == outer
    requires outer in st.blocks && st.blocks[outer].defined && st.blocks[outer].aliasOf.None?
    requires st.blocks[outer].exit.Some? ==> st.blocks[outer].unreachable
    ensures Ready(PopStack(st), labels) && PopStack(st) == st.(current := outer, stack := st.stack[..|st.stack| - 1])
  {
    hide Jumpable, GeneratedBefore, BlocksOk;
    var st' := PopStack(st);
    assert JumpsKept(st, st', labels);
    AllJumpable(st, st', labels);
  }

  /** What the nested block and everything opened inside of it leave alone. */
  ghost predicate Enclosed(st1: State, st2: State, clock: nat, labels: set<Name>) {
    && st2.current == st1.current && st2.stack == st1.stack && st1.clock <= st2.clock && st1.counter <= st2.counter
    && st1.current in st2.blocks
    && (forall n :: n in st1.blocks && n != st1.current ==> n in st2.blocks && SameCode(st1.blocks[n], st2.blocks[n]))
    && (forall n :: n in st2.blocks && (n !in st1.blocks || n == st1.current) ==>
      NewBlockFits(n, st2.blocks[n], clock, labels))
  }

  lemma CloseNested(st: State, node: Node, key: string, st2: State, labels: set<Name>)
    requires Ready(st, labels) && LabelNames(labels) && IsNested(node) && IsKey(key)
      && node.sub == MkName(st.current, key, st.counter)
    requires Ready(st2, labels) && Enclosed(EnterNested(st, node, key), st2, st.clock, labels)
    ensures var st', b := PopStack(st2), st.blocks[st.current];
      && Ready(st', labels) && Grew(st, st', labels) && st'.blocks == st2.blocks
      && (!b.unreachable ==> st'.blocks[st.current].nodes == b.nodes + [node] && !st'.blocks[st.current].unreachable)
  {
    hide StateOk, Jumpable, GeneratedBefore, BlocksOk, LabelNames, CurrentGrew, NewBlockFits, Append, AppendedTo;
    EnterNestedReady(st, node, key, labels);
    CurrentIsOk(st);
    AppendAppends(st, node);
    ExitedIsUnreachable(st);
    var st1 := EnterNested(st, node, key);
    var b, b1, b' := st.blocks[st.current], st1.blocks[st.current], st2.blocks[st.current];
    ClosedCurrent(b, Append(st, node).blocks[st.current], b1, b', node);
    PopReady(st2, st.current, labels);
    assert PopStack(st2).stack == st.stack;
  }

  lemma ClosedCurrent(b: Block, b0: Block, b1: Block, b': Block, node: Node)
    requires AppendedTo(b, b0, node) && b1 == b0.(nested := b1.nested) && SameCode(b1, b') && IsNested(node)
    ensures CurrentGrew(b, b') && b'.exit == b.exit && b'.unreachable == b.unreachable && b'.aliasOf == b.aliasOf
    ensures b'.defined == b.defined && (!b.unreachable ==> b'.nodes == b.nodes + [node])
  {
    forall l | HasLabel(b', l) ensures HasLabel(b, l) {}
  }

  lemma ExitedIsUnreachable(st: State)
    requires StateOk(st)
    ensures st.blocks[st.current].exit.Some? ==> st.blocks[st.current].unreachable
  {}

  /** A visited body leaves alone what the block it belongs to was opened in. */
  lemma BodyEnclosed(st1: State, st2: State, clock: nat, labels: set<Name>)
    requires Grew(st1, st2, labels) && clock < st1.blocks[st1.current].defAt <= st1.clock
    requires st1.current !in labels && st1.blocks[st1.current].defined && st1.blocks[st1.current].aliasOf.None?
    requires forall l :: !HasLabel(st1.blocks[st1.current], l)
    ensures Enclosed(st1, st2, clock, labels)
  {
    hide HasLabel;
    forall n | n in st2.blocks && n !in st1.blocks ensures NewBlockFits(n, st2.blocks[n], clock, labels) {
      assert NewBlockFits(n, st2.blocks[n], st1.clock, labels);
    }
  }

  lemma FreshBlock(n: Name, clock: nat, home: Option<Home>, inLoop: bool)
    ensures var b := OpenedBlock(n, clock, home, inLoop);
      && b.nodes == [] && !b.unreachable && b.inLoop == inLoop && b.aliasOf.None? && b.elseBlock.None?
      && b.defAt == clock + 1
      && b.defined && b.home == home && forall l :: !HasLabel(b, l)
  {}

  /** The body of a nested block, as the finished block holds it. */
  lemma BodyHeld(st1: State, st2: State, st': State, body: seq<Stmt>, inLoop: bool, labels: set<Name>, d: nat)
    requires Visited(st1, st2, body, labels) && BodyOk(body, inLoop, labels)
    requires st1.current in st1.blocks && st1.current in st2.blocks
    requires !st1.blocks[st1.current].unreachable && st1.blocks[st1.current].nodes == []
    requires d < st1.blocks[st1.current].defAt
    requires CodeKept(st2.blocks, st'.blocks, st1.blocks[st1.current].defAt)
    requires st1.current in st'.blocks && st'.blocks[st1.current].nodes == st2.blocks[st1.current].nodes
    requires st'.blocks[st1.current].defAt == st1.blocks[st1.current].defAt && st'.blocks[st1.current].home.Some?
    ensures HeldBy(st'.blocks, d, st1.current, body)
  {
    hide Ready, Grew;
    BodyHasNoLabels(body, inLoop, labels);
    var b1, b2 := st1.blocks[st1.current], st2.blocks[st1.current];
    assert st2.current == st1.current by { VisitedStays(st1, st2, body, labels); }
    assert b2.nodes[|b1.nodes|..] == b2.nodes;
    HoldsStays(st2.blocks, st'.blocks, b1.defAt, b1.defAt, b2.nodes, body);
    HoldsStays(st'.blocks, st'.blocks, b1.defAt, d, b2.nodes, body);
  }

  lemma VisitedStays(st: State, st': State, ss: seq<Stmt>, labels: set<Name>)
    requires Visited(st, st', ss, labels)
    ensures st'.current == st.current && st.current in st.blocks && st.current in st'.blocks
    ensures Current(st').elseBlock == Current(st).elseBlock && Current(st').defAt == Current(st).defAt
      && Current(st').inLoop == Current(st).inLoop
    ensures Current(st').home == Current(st).home && Current(st').defined == Current(st).defined
  {}

  lemma {:induction false} VisitLoop(st: State, kind: LoopKind, c: Expr, body: seq<Stmt>, labels: set<Name>)
    requires Ready(st, labels) && LabelNames(labels) && BodyOk(body, true, labels)
    ensures Visited(st, Visit(st, Loop(kind, c, body)), [Loop(kind, c, body)], labels)
    decreases body, 1
  {
    hide StateOk, Jumpable, GeneratedBefore, BlocksOk, LabelNames, LocalOk, Visited, Grew, Holds, CodeKept;
    hide EnterNested, PopStack, Append, SameFace;
    var key := LoopKey(kind);
    var sub := MkName(st.current, key, st.counter);
    var node := NLoop(kind, c, sub);
    var st1 := EnterNested(st, node, key);
    EnterNestedReady(st, node, key, labels);
    FreshBlock(sub, st.clock, NextHome(st), true);
    CurrentNumber(st);
    AppendKeepsClock(st, node);
    var st2 := VisitAll(st1, body);
    VisitBody(st1, body, true, labels);
    VisitedGrew(st1, st2, body, labels);
    VisitedStays(st1, st2, body, labels);
    BodyEnclosed(st1, st2, st.clock, labels);
    CloseNested(st, node, key, st2, labels);
    var st' := PopStack(st2);
    assert st' == Visit(st, Loop(kind, c, body));
    var b := st.blocks[st.current];
    if !b.unreachable {
      SameCodeKept(st2.blocks, st1.blocks[sub].defAt);
      BodyHeld(st1, st2, st', body, true, labels, b.defAt);
      OneLoop(st'.blocks, b.defAt, node, body);
    }
    NodeVisited(st, st', node, Loop(kind, c, body), labels);
  }

  lemma SameCodeKept(blocks: Blocks, d: nat)
    ensures CodeKept(blocks, blocks, d)
  {}

  lemma OneLoop(blocks: Blocks, d: nat, node: Node, body: seq<Stmt>)
    requires node.NLoop? && HeldBy(blocks, d, node.sub, body)
    ensures var s := Loop(node.kind, node.cond, body); Holds(blocks, d, [node], [s]) && !HasTerm([s])
  {
    var s := Loop(node.kind, node.cond, body);
    assert [node][1..] == [] && [s][1..] == [];
  }

  lemma OneIf(blocks: Blocks, d: nat, node: Node, thn: seq<Stmt>, els: Else)
    requires node.NIf? && HeldBy(blocks, d, node.sub, thn) && els.Else? == blocks[node.sub].elseBlock.Some?
    requires els.Else? ==> HeldBy(blocks, d, blocks[node.sub].elseBlock.value, els.stmts)
    ensures var s := If(node.cond, thn, els); Holds(blocks, d, [node], [s]) && !HasTerm([s])
  {
    var s := If(node.cond, thn, els);
    assert [node][1..] == [] && [s][1..] == [];
  }

  lemma CurrentNumber(st: State)
    requires StateOk(st)
    ensures st.current in st.blocks && st.blocks[st.current].defAt <= st.clock
  {}

  lemma AppendKeepsClock(st: State, node: Node)
    ensures Append(st, node).clock == st.clock && Append(st, node).stack == st.stack
      && Append(st, node).current == st.current
  {}

  lemma {:induction false} VisitIf(st: State, c: Expr, thn: seq<Stmt>, els: Else, inLoop: bool, labels: set<Name>)
    requires Ready(st, labels) && LabelNames(labels) && Current(st).inLoop == inLoop
    requires BodyOk(thn, inLoop, labels) && (els.Else? ==> BodyOk(els.stmts, inLoop, labels))
    ensures Visited(st, Visit(st, If(c, thn, els)), [If(c, thn, els)], labels)
    decreases If(c, thn, els), 0
  {
    hide StateOk, Jumpable, GeneratedBefore, BlocksOk, LabelNames, LocalOk, Visited, Grew;
    var sub := MkName(st.current, IF_KEY, st.counter);
    var node := NIf(c, sub);
    var st1 := EnterNested(st, node, IF_KEY);
    EnterNestedReady(st, node, IF_KEY, labels);
    FreshBlock(sub, st.clock, NextHome(st), inLoop);
    CurrentNumber(st);
    AppendKeepsClock(st, node);
    var st2 := VisitAll(st1, thn);
    VisitBody(st1, thn, inLoop, labels);
    VisitedStays(st1, st2, thn, labels);
    if els.NoElse? {
      VisitedGrew(st1, st2, thn, labels);
      BodyEnclosed(st1, st2, st.clock, labels);
      FinishIf(st, st1, st2, st2, c, thn, els, inLoop, labels);
    } else {
      VisitedGrew(st1, st2, thn, labels);
      EnterElseReady(st2, sub, labels);
      var st3 := EnterElse(st2, sub);
      FreshBlock(MkName(sub, ELSE_KEY, st2.counter), st2.clock, st2.blocks[sub].home, inLoop);
      VisitBody(st3, els.stmts, inLoop, labels);
      CloseElse(st, st1, st2, VisitAll(st3, els.stmts), c, thn, els, inLoop, labels);
    }
  }

  lemma VisitedGrew(st: State, st': State, ss: seq<Stmt>, labels: set<Name>)
    requires Visited(st, st', ss, labels)
    ensures Grew(st, st', labels) && Ready(st', labels)
  {}

  /** The `else` block has been visited. */
  lemma CloseElse(st: State, st1: State, st2: State, st4: State, c: Expr, thn: seq<Stmt>, els: Else, inLoop: bool,
      labels: set<Name>)
    requires Ready(st, labels) && LabelNames(labels) && els.Else? && BodyOk(thn, inLoop, labels)
      && BodyOk(els.stmts, inLoop, labels)
    requires var sub := MkName(st.current, IF_KEY, st.counter);
      && st1 == EnterNested(st, NIf(c, sub), IF_KEY) && st1.current == sub && sub in st1.blocks && sub !in labels
      && st1.blocks[sub].nodes == [] && !st1.blocks[sub].unreachable
      && st1.blocks[sub].defAt == st.clock + 1 == st1.clock
      && st1.blocks[sub].aliasOf.None? && (forall l :: !HasLabel(st1.blocks[sub], l)) && st1.blocks[sub].elseBlock.None?
      && st1.blocks[sub].defined && st1.blocks[sub].home.Some?
      && Visited(st1, st2, thn, labels) && st2 == VisitAll(st1, thn)
      && st2.current == sub && sub in st2.blocks
      && st4 == VisitAll(EnterElse(st2, sub), els.stmts) && Visited(EnterElse(st2, sub), st4, els.stmts, labels)
    requires st.current in st.blocks && st.blocks[st.current].defAt <= st.clock
    ensures Visited(st, Visit(st, If(c, thn, els)), [If(c, thn, els)], labels)
  {
    hide StateOk, Ready, LabelNames, Visited, Enclosed, Grew, EnterNested, EnterElse, Holds, VisitAll, PopStack,
      HasTerm, BodyOk;
    var sub := MkName(st.current, IF_KEY, st.counter);
    VisitedGrew(st1, st2, thn, labels);
    VisitedStays(st1, st2, thn, labels);
    EnterElseReady(st2, sub, labels);
    var st3 := EnterElse(st2, sub);
    var eb := MkName(sub, ELSE_KEY, st2.counter);
    FreshBlock(eb, st2.clock, st2.blocks[sub].home, st2.blocks[sub].inLoop);
    VisitedGrew(st3, st4, els.stmts, labels);
    VisitedStays(st3, st4, els.stmts, labels);
    StateOfReady(st2, labels);
    ElsePopped(st1, st2, st3, st4, eb, labels);
    var st5 := PopStack(st4);
    ElseEnclosed(st1, st2, st3, st4, eb, st.clock, labels);
    var st' := PopStack(st5);
    CloseNested(st, NIf(c, sub), IF_KEY, st5, labels);
    var b := st.blocks[st.current];
    assert st' == Visit(st, If(c, thn, els));
    BranchesHeld(st1, st2, st3, st4, sub, eb, c, thn, els, inLoop, labels, b.defAt);
    NodeVisited(st, st', NIf(c, sub), If(c, thn, els), labels);
  }

  lemma StateOfReady(st: State, labels: set<Name>)
    requires Ready(st, labels)
    ensures StateOk(st)
  {}

  lemma BranchesHeld(st1: State, st2: State, st3: State, st4: State, sub: Name, eb: Name, c: Expr, thn: seq<Stmt>,
      els: Else,
                     inLoop: bool, labels: set<Name>, d: nat)
    requires els.Else? && BodyOk(thn, inLoop, labels) && BodyOk(els.stmts, inLoop, labels)
    requires Visited(st1, st2, thn, labels) && ElseOpened(st2, st3, eb) && Visited(st3, st4, els.stmts, labels)
    requires st1.current == sub == st2.current && sub in st1.blocks && d < st1.blocks[sub].defAt
    requires st1.blocks[sub].nodes == [] && !st1.blocks[sub].unreachable && st1.blocks[sub].home.Some?
    requires d <= st2.clock
    ensures var s := If(c, thn, els); Holds(st4.blocks, d, [NIf(c, sub)], [s]) && !HasTerm([s])
  {
    hide Ready, Holds, Grew;
    VisitedGrew(st1, st2, thn, labels);
    VisitedGrew(st3, st4, els.stmts, labels);
    VisitedStays(st1, st2, thn, labels);
    VisitedStays(st3, st4, els.stmts, labels);
    ElseKeepsCode(st2, st3, st4, eb, labels);
    FreshBlock(eb, st2.clock, st2.blocks[sub].home, st2.blocks[sub].inLoop);
    BodyHeld(st1, st2, st4, thn, inLoop, labels, d);
    BodyHeld(st3, st4, st4, els.stmts, inLoop, labels, d);
    OneIf(st4.blocks, d, NIf(c, sub), thn, els);
  }

  ghost predicate ElseOpened(st2: State, st3: State, eb: Name) {
    && st2.current in st2.blocks && eb !in st2.blocks
    && var open := Opened(st2, eb, st2.blocks[st2.current].home, st2.blocks[st2.current].inLoop);
       st3 == Put(open, st2.current, open.blocks[st2.current].(elseBlock := Some(eb)))
  }

  lemma ElsePopped(st1: State, st2: State, st3: State, st4: State, eb: Name, labels: set<Name>)
    requires Grew(st1, st2, labels) && ElseOpened(st2, st3, eb) && Grew(st3, st4, labels) && StateOk(st2)
      && Ready(st4, labels)
    ensures Ready(PopStack(st4), labels) && PopStack(st4) == st4.(current := st1.current, stack := st1.stack)
  {
    hide Ready, LocalOk, LinksOk, RefsOk;
    var sub := st2.current;
    assert SameCode(st3.blocks[sub], st4.blocks[sub]);
    PopReady(st4, sub, labels);
    assert (st2.stack + [sub])[..|st2.stack|] == st2.stack;
  }

  /** The blocks of the `then` branch keep their code; the `else` block is the one opened last. */
  lemma ElseKeepsCode(st2: State, st3: State, st4: State, eb: Name, labels: set<Name>)
    requires ElseOpened(st2, st3, eb) && Grew(st3, st4, labels)
    ensures var sub := st2.current;
      && CodeKept(st2.blocks, st4.blocks, st2.blocks[sub].defAt)
      && CodeKept(st4.blocks, st4.blocks, st3.blocks[eb].defAt)
      && sub in st4.blocks && st4.blocks[sub].nodes == st2.blocks[sub].nodes
      && st4.blocks[sub].defAt == st2.blocks[sub].defAt
      && st4.blocks[sub].elseBlock == Some(eb)
      && st4.blocks[sub].home == st2.blocks[sub].home
      && eb in st4.blocks && st4.blocks[eb].defAt == st3.blocks[eb].defAt && st4.blocks[eb].home == st3.blocks[eb].home
  {
    assert SameCode(st3.blocks[st2.current], st4.blocks[st2.current]);
  }

  lemma ElseEnclosed(st1: State, st2: State, st3: State, st4: State, eb: Name, clock: nat, labels: set<Name>)
    requires Grew(st1, st2, labels) && clock < st1.blocks[st1.current].defAt <= st1.clock
    requires st1.current !in labels && st1.blocks[st1.current].defined && st1.blocks[st1.current].aliasOf.None?
    requires forall l :: !HasLabel(st1.blocks[st1.current], l)
    requires eb !in st2.blocks && eb !in labels
    requires ElseOpened(st2, st3, eb) && Grew(st3, st4, labels)
    ensures Enclosed(st1, st4.(current := st1.current, stack := st1.stack), clock, labels)
  {
    var sub := st1.current;
    var st5 := st4.(current := sub, stack := st1.stack);
    assert SameCode(st3.blocks[sub], st5.blocks[sub]);
    assert forall l :: HasLabel(st5.blocks[sub], l) ==> HasLabel(st2.blocks[sub], l);
    forall n | n in st5.blocks && (n !in st1.blocks || n == sub) ensures NewBlockFits(n, st5.blocks[n], clock, labels) {
      if n == sub {
      } else if n in st2.blocks {
        assert NewBlockFits(n, st2.blocks[n], st1.clock, labels);
        assert st5.blocks[n].nodes == st2.blocks[n].nodes;
        forall l ensures !HasLabel(st5.blocks[n], l) {
          assert !HasLabel(st2.blocks[n], l);
        }
      } else if n == eb {
        assert st3.blocks[eb].nodes == [];
        forall l ensures !HasLabel(st5.blocks[n], l) {
          assert HasLabel(st5.blocks[n], l) ==> HasLabel(st3.blocks[n], l);
        }
      } else {
        assert NewBlockFits(n, st4.blocks[n], st3.clock, labels);
      }
    }
  }

  lemma FinishIf(st: State, st1: State, st2: State, st5: State, c: Expr, thn: seq<Stmt>, els: Else, inLoop: bool,
      labels: set<Name>)
    requires Ready(st, labels) && LabelNames(labels) && els.NoElse? && BodyOk(thn, inLoop, labels)
    requires var sub := MkName(st.current, IF_KEY, st.counter);
      && st1 == EnterNested(st, NIf(c, sub), IF_KEY) && st1.current == sub && sub in st1.blocks
      && st1.blocks[sub].nodes == [] && !st1.blocks[sub].unreachable && st1.blocks[sub].defAt == st.clock + 1
      && st1.blocks[sub].elseBlock.None? && st1.blocks[sub].home.Some?
      && Visited(st1, st2, thn, labels) && st2 == VisitAll(st1, thn) && st5 == st2
      && Enclosed(st1, st2, st.clock, labels)
    requires st.current in st.blocks && st.blocks[st.current].defAt <= st.clock
    ensures Visited(st, Visit(st, If(c, thn, els)), [If(c, thn, els)], labels)
  {
    hide StateOk, Jumpable, GeneratedBefore, BlocksOk, LabelNames, LocalOk, HasLabel, Visited, Enclosed, Grew,
      EnterNested, Holds;
    var sub := MkName(st.current, IF_KEY, st.counter);
    VisitedGrew(st1, st2, thn, labels);
    VisitedStays(st1, st2, thn, labels);
    CloseNested(st, NIf(c, sub), IF_KEY, st2, labels);
    var st' := PopStack(st2);
    var b := st.blocks[st.current];
    assert st' == Visit(st, If(c, thn, els));
    if !b.unreachable {
      BodyHeld(st1, st2, st', thn, inLoop, labels, b.defAt);
      OneIf(st'.blocks, b.defAt, NIf(c, sub), thn, els);
    }
    NodeVisited(st, st', NIf(c, sub), If(c, thn, els), labels);
  }

  lemma NodeVisited(st: State, st': State, node: Node, s: Stmt, labels: set<Name>)
    requires Ready(st', labels) && Grew(st, st', labels)
    requires var b := st.blocks[st.current]; !b.unreachable ==>
      && st'.blocks[st.current].nodes == b.nodes + [node] && !st'.blocks[st.current].unreachable
      && Holds(st'.blocks, b.defAt, [node], [s]) && !HasTerm([s])
    ensures Visited(st, st', [s], labels)
  {
    var b := st.blocks[st.current];
    if !b.unreachable {
      assert st'.blocks[st.current].nodes[|b.nodes|..] == [node];
    }
  }

  /** Visiting statements without labels adds their code to the current block and leaves the rest alone. */
  lemma {:induction false} VisitBody(st: State, ss: seq<Stmt>, inLoop: bool, labels: set<Name>)
    requires Ready(st, labels) && LabelNames(labels) && BodyOk(ss, inLoop, labels) && Current(st).inLoop == inLoop
    ensures Visited(st, VisitAll(st, ss), ss, labels)
    decreases ss, 0
  {
    hide Ready, LabelNames, Visited;
    if ss == [] {
      VisitNothing(st, labels);
    } else {
      VisitStmt(st, ss[0], inLoop, labels);
      var st1 := Visit(st, ss[0]);
      VisitedGrew(st, st1, [ss[0]], labels);
      VisitedStays(st, st1, [ss[0]], labels);
      VisitBody(st1, ss[1..], inLoop, labels);
      VisitedTrans(st, st1, VisitAll(st1, ss[1..]), ss[0], ss[1..], labels);
      assert [ss[0]] + ss[1..] == ss;
    }
  }

  lemma {:induction false} VisitStmt(st: State, s: Stmt, inLoop: bool, labels: set<Name>)
    requires Ready(st, labels) && LabelNames(labels) && BodyStmtOk(s, inLoop, labels) && Current(st).inLoop == inLoop
    ensures Visited(st, Visit(st, s), [s], labels)
    decreases s, 1
  {
    hide Ready, LabelNames, Visited, Visit;
    match s
    case Plain(x) => VisitPlain(st, x, labels);
    case Return(e, implied) => VisitReturn(st, e, implied, labels);
    case Goto(l) => VisitGoto(st, l, labels);
    case If(c, thn, els) => VisitIf(st, c, thn, els, inLoop, labels);
    case Loop(kind, c, body) => VisitLoop(st, kind, c, body, labels);
  }
}
