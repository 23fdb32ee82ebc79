/**
 Which labels are left: a label stays exactly where a goto to it stays, or where code that is never reached would
 still jump to it.
 */
module LabelsLeft {
  import opened Wrappers
  import opened PhpCode
  import opened Annotated
  import opened CodeBlocks
  import opened Rebuild
  import opened BlockCode
  import opened Accounting
  import opened TopVisits
  import opened GotoElimination
  import opened Conservation

  /** The labels that are kept somewhere. */
  function KeptLabels(ka: seq<AStmt>): set<Name>
    decreases ka
  {
    if ka == [] then {} else KeptLabelsIn(ka[0]) + KeptLabels(ka[1..])
  }

  function KeptLabelsIn(a: AStmt): set<Name>
    decreases a
  {
    match a
    case ALabel(l, kept) => if kept then {l} else {}
    case AIf(_, thn, els) => KeptLabels(thn) + if els.AElse? then KeptLabels(els.stmts) else {}
    case ALoop(_, _, body) => KeptLabels(body)
    case _ => {}
  }

  lemma {:induction false} KeptLabelsAppend(a: seq<AStmt>, b: seq<AStmt>)
    ensures KeptLabels(a + b) == KeptLabels(a) + KeptLabels(b)
    decreases |a|
  {
    if a == [] {
      assert a + b == b;
    } else {
      assert (a + b)[0] == a[0] && (a + b)[1..] == a[1..] + b;
      KeptLabelsAppend(a[1..], b);
    }
  }

  /** Kept labels are the labels of the emitted code. */
  lemma {:induction false} ErasedLabels(ka: seq<AStmt>, l: Name)
    ensures CodeItems(Erase(ka))[ILabel(l)] > 0 <==> l in KeptLabels(ka)
    decreases ka
  {
    hide EraseStmt, OneItems, KeptLabelsIn;
    if ka != [] {
      ErasedStmtLabels(ka[0], l);
      ErasedLabels(ka[1..], l);
      CodeItemsConcat(EraseStmt(ka[0]), Erase(ka[1..]));
    }
  }

  lemma {:induction false} ErasedStmtLabels(a: AStmt, l: Name)
    ensures CodeItems(EraseStmt(a))[ILabel(l)] > 0 <==> l in KeptLabelsIn(a)
    decreases a
  {
    hide Erase, CodeItems, KeptLabels;
    NothingFits();
    match a
    case AIf(c, thn, els) =>
      ErasedLabels(thn, l);
      var other := if els.AElse? then Else(Erase(els.stmts)) else NoElse;
      CodeItemsOfOne(If(c, Erase(thn), other));
      if els.AElse? {
        ErasedLabels(els.stmts, l);
      }
    case ALoop(kind, c, body) =>
      ErasedLabels(body, l);
      CodeItemsOfOne(Loop(kind, c, Erase(body)));
    case APlain(s) => CodeItemsOfOne(Plain(s));
    case AReturn(e, implied) => CodeItemsOfOne(Return(e, implied));
    case AGoto(x, _) => CodeItemsOfOne(Goto(x));
    case ALabel(x, _) => CodeItemsOfOne(Label(x));
  }

  /** A label that is emitted is kept, if it is not dropped. */
  lemma {:induction false} KeptOrDropped(ka: seq<AStmt>)
    ensures Labels(ka) <= KeptLabels(ka) + Dropped(ka)
    decreases ka
  {
    if ka != [] {
      KeptOrDropped(ka[1..]);
      if ka[0].AIf? {
        KeptOrDropped(ka[0].thn);
        if ka[0].els.AElse? {
          KeptOrDropped(ka[0].els.stmts);
        }
      }
    }
  }

  // ---- What a rebuild leaves -----------------------------------------------------------------------------

  /** Block `n` is entered by its label `l`. */
  ghost predicate IsEntered(blocks: Blocks, n: Name, l: Name) {
    n in blocks && HasLabel(blocks[n], l) && (l in blocks[n].entersPerName ==> blocks[n].entersPerName[l] != 0)
  }

  /** A newly built block is entered by `l`, and not just by a block that was joined to it. */
  ghost predicate LeftFrom(blocks: Blocks, built: set<Name>, built': set<Name>, joined: set<Name>, l: Name) {
    exists n :: n in built' && n !in built && IsEntered(blocks, n, l)
      && forall m :: m in joined && m in blocks && blocks[m].exit == Some(Exit(n, l)) ==> EnterCount(blocks[n], l) != 1
  }

  /** Blocks are joined to newly built ones, one to each at most. */
  ghost predicate JoinsApart(blocks: Blocks, built: set<Name>, built': set<Name>, joined: set<Name>) {
    && (forall m :: m in joined ==>
          m in blocks && blocks[m].exit.Some? && blocks[m].exit.value.to in built' && blocks[m].exit.value.to !in built)
    && (forall m, n :: m in joined && n in joined && blocks[m].exit.value.to == blocks[n].exit.value.to ==> m == n)
  }

  /** A newly built block that was not joined to its exit leaves its goto. */
  ghost predicate GotosLeft(blocks: Blocks, built: set<Name>, built': set<Name>, joined: set<Name>, kept: set<Name>) {
    forall n, l :: n in built' && n !in built && n !in joined && ExitsBy(blocks, n, l) ==> l in kept
  }

  /** What is left of a stretch that newly built `built' - built`; `own` are the labels of the block it belongs to. */
  ghost predicate Leaves(blocks: Blocks, built: set<Name>, built': set<Name>, joined: set<Name>, own: set<Name>,
      labels: set<Name>, gotos: set<Name>) {
    && built <= built' && joined <= built' - built
    && JoinsApart(blocks, built, built', joined) && GotosLeft(blocks, built, built', joined, gotos)
    && forall l :: l in labels ==> l in own || LeftFrom(blocks, built, built', joined, l)
  }

  lemma LeavesAdd(blocks: Blocks, b0: set<Name>, b1: set<Name>, b2: set<Name>, j1: set<Name>, j2: set<Name>,
      own1: set<Name>, own2: set<Name>, l1: set<Name>, l2: set<Name>, g1: set<Name>, g2: set<Name>)
    requires Leaves(blocks, b0, b1, j1, own1, l1, g1) && Leaves(blocks, b1, b2, j2, own2, l2, g2)
    ensures Leaves(blocks, b0, b2, j1 + j2, own1 + own2, l1 + l2, g1 + g2)
  {
    forall l | l in l1 + l2 && l !in own1 + own2 ensures LeftFrom(blocks, b0, b2, j1 + j2, l) {
      if l in l1 {
        var n :| n in b1 && n !in b0 && IsEntered(blocks, n, l)
          && forall m :: m in j1 && m in blocks && blocks[m].exit == Some(Exit(n, l)) ==> EnterCount(blocks[n], l) != 1;
        assert forall m :: m in j2 ==> blocks[m].exit.value.to != n;
      } else {
        var n :| n in b2 && n !in b1 && IsEntered(blocks, n, l)
          && forall m :: m in j2 && m in blocks && blocks[m].exit == Some(Exit(n, l)) ==> EnterCount(blocks[n], l) != 1;
        assert forall m :: m in j1 ==> blocks[m].exit.value.to != n;
      }
    }
  }

  /** The labels by which `b` is entered, without the one it is asked to drop. */
  ghost function OwnLabels(blocks: Blocks, b: Name, removeLabel: Option<Name>): set<Name>
    requires b in blocks
  {
    set n | n in blocks[b].nodes && n.NLabel? && IsEntered(blocks, b, n.name) && removeLabel != Some(n.name) :: n.name
  }

  /** What is left of a stretch that starts with building `b`, whose labels are told apart from the others'. */
  ghost predicate Starts(blocks: Blocks, b: Name, removeLabel: Option<Name>, built: set<Name>, r: Emission)
    requires b in blocks
  {
    if b in built || !blocks[b].defined then r == Emission([], built, {})
    else
      && built + {b} <= r.built && r.joined <= r.built - built
      && JoinsApart(blocks, built + {b}, r.built, r.joined)
      && GotosLeft(blocks, built, r.built, r.joined, KeptGotos(r.code))
      && forall l :: l in KeptLabels(r.code) ==>
           l in OwnLabels(blocks, b, removeLabel) || LeftFrom(blocks, built + {b}, r.built, r.joined, l)
  }

  /** Nested blocks are not asked to drop a label. */
  lemma StartLeaves(blocks: Blocks, b: Name, built: set<Name>, r: Emission)
    requires b in blocks && Starts(blocks, b, None, built, r)
    ensures Leaves(blocks, built, r.built, r.joined, {}, KeptLabels(r.code), KeptGotos(r.code))
  {
    forall l | l in KeptLabels(r.code) ensures LeftFrom(blocks, built, r.built, r.joined, l) {
      if l in OwnLabels(blocks, b, None) {
        assert IsEntered(blocks, b, l);
      } else {
        var n :| n in r.built && n !in built + {b} && IsEntered(blocks, n, l)
          && forall m :: m in r.joined && m in blocks && blocks[m].exit == Some(Exit(n, l)) ==>
            EnterCount(blocks[n], l) != 1;
      }
    }
  }

  lemma {:induction false} RebuildLeaves(blocks: Blocks, b: Name, removeLabel: Option<Name>, built: set<Name>)
    requires WellBuilt(blocks) && Wired(blocks) && b in blocks && blocks[b].aliasOf.None? && built <= blocks.Keys
    ensures Starts(blocks, b, removeLabel, built, RebuildA(blocks, b, removeLabel, built))
    decreases blocks.Keys - built, 0
  {
    hide Wired, NodesA, WellBuilt, Leaves, Starts, LeftFrom, RefsExist;
    var blk := blocks[b];
    if b in built || !blk.defined {
      NothingBuilt(blocks, b, removeLabel, built);
    } else {
      var built1 := built + {b};
      assert blk.nodes[0..] == blk.nodes;
      ExitsAreLast(blocks, b);
      if blk.exit.None? {
        NodesAFrom(blocks, b, 0, removeLabel, None, built1, []);
        NodesLeave(blocks, b, 0, removeLabel, None, built1);
        var own := NodesA(blocks, blk.nodes, blk, removeLabel, None, built1);
        BlockWithoutExit(blocks, b, removeLabel, built, own);
      } else {
        ExitExists(blocks, b);
        var exit := blk.exit.value;
        var removeGoto := exit.to !in built1;
        var removeExitLabel := removeGoto && EnterCount(blocks[exit.to], exit.origName) == 1;
        var rl := if removeExitLabel then Some(exit.origName) else None;
        var rg := if removeGoto then Some(exit.origName) else None;
        RebuildLeaves(blocks, exit.to, rl, built1);
        var tail := RebuildA(blocks, exit.to, rl, built1);
        NodesAFrom(blocks, b, 0, removeLabel, rg, tail.built, []);
        NodesLeave(blocks, b, 0, removeLabel, rg, tail.built);
        var own := NodesA(blocks, blk.nodes, blk, removeLabel, rg, tail.built);
        if removeGoto {
          JoinedBlock(blocks, b, removeLabel, built, tail, own);
        } else {
          JumpingBlock(blocks, b, removeLabel, built, tail, own);
        }
      }
    }
  }

  lemma NothingBuilt(blocks: Blocks, b: Name, removeLabel: Option<Name>, built: set<Name>)
    requires b in blocks && (b in built || !blocks[b].defined)
    ensures Starts(blocks, b, removeLabel, built, Emission([], built, {}))
  {}

  lemma ExitsAreLast(blocks: Blocks, b: Name)
    requires WellBuilt(blocks) && b in blocks && blocks[b].aliasOf.None?
    ensures ExitIsLast(blocks[b])
  {}

  /** What the nodes of a block leave, with the goto at its end. */
  ghost predicate OwnLeaves(blocks: Blocks, b: Name, removeLabel: Option<Name>, removeGoto: Option<Name>,
      built: set<Name>, own: Emission)
    requires b in blocks
  {
    && Leaves(blocks, built, own.built, own.joined, OwnLabels(blocks, b, removeLabel), KeptLabels(own.code),
         KeptGotos(own.code))
    && forall n :: n in blocks[b].nodes && n.NGoto? && removeGoto != Some(n.target) ==> n.target in KeptGotos(own.code)
  }

  lemma BlockWithoutExit(blocks: Blocks, b: Name, removeLabel: Option<Name>, built: set<Name>, own: Emission)
    requires b in blocks && b !in built && blocks[b].defined && blocks[b].exit.None?
    requires OwnLeaves(blocks, b, removeLabel, None, built + {b}, own)
    ensures Starts(blocks, b, removeLabel, built, own)
  {}

  /** The exit was built before: the goto stays. */
  lemma JumpingBlock(blocks: Blocks, b: Name, removeLabel: Option<Name>, built: set<Name>, tail: Emission,
      own: Emission)
    requires b in blocks && b !in built && blocks[b].defined && blocks[b].exit.Some? && ExitIsLast(blocks[b])
    requires tail == Emission([], built + {b}, {}) && OwnLeaves(blocks, b, removeLabel, None, built + {b}, own)
    ensures Starts(blocks, b, removeLabel, built,
      Emission(own.code + tail.code, own.built, own.joined + tail.joined + {}))
  {
    assert own.code + tail.code == own.code && own.joined + tail.joined + {} == own.joined;
    assert blocks[b].nodes[|blocks[b].nodes| - 1] in blocks[b].nodes;
  }

  /** The exit is joined: its labels are left unless `b` is the only block that enters by them. */
  lemma JoinedBlock(blocks: Blocks, b: Name, removeLabel: Option<Name>, built: set<Name>, tail: Emission,
      own: Emission)
    requires b in blocks && b !in built && blocks[b].defined && blocks[b].exit.Some?
    requires var e := blocks[b].exit.value;
      && e.to in blocks && e.to !in built + {b} && blocks[e.to].defined
      && Starts(blocks, e.to, if EnterCount(blocks[e.to], e.origName) == 1 then Some(e.origName) else None,
           built + {b}, tail)
      && OwnLeaves(blocks, b, removeLabel, Some(e.origName), tail.built, own)
    ensures Starts(blocks, b, removeLabel, built,
      Emission(own.code + tail.code, own.built, own.joined + tail.joined + {b}))
  {
    hide KeptLabels, KeptGotos, LeftFrom, OwnLabels;
    var joined := own.joined + tail.joined + {b};
    KeptLabelsAppend(own.code, tail.code);
    KeptGotosAppend(own.code, tail.code);
    forall l | l in KeptLabels(own.code) + KeptLabels(tail.code) && l !in OwnLabels(blocks, b, removeLabel)
      ensures LeftFrom(blocks, built + {b}, own.built, joined, l)
    {
      if l in KeptLabels(tail.code) {
        TailLabelLeft(blocks, b, built, tail, own, l);
      } else {
        OwnLabelLeft(blocks, b, built, tail, own, l);
      }
    }
  }

  lemma OwnLabelLeft(blocks: Blocks, b: Name, built: set<Name>, tail: Emission, own: Emission, l: Name)
    requires b in blocks && blocks[b].exit.Some? && blocks[b].exit.value.to in tail.built && built + {b} <= tail.built
    requires JoinsApart(blocks, built, tail.built, tail.joined)
    requires LeftFrom(blocks, tail.built, own.built, own.joined, l)
    ensures LeftFrom(blocks, built + {b}, own.built, own.joined + tail.joined + {b}, l)
  {
    var n :| n in own.built && n !in tail.built && IsEntered(blocks, n, l)
      && forall m :: m in own.joined && m in blocks && blocks[m].exit == Some(Exit(n, l)) ==>
        EnterCount(blocks[n], l) != 1;
    assert forall m :: m in tail.joined + {b} ==> blocks[m].exit.value.to in tail.built;
  }

  lemma TailLabelLeft(blocks: Blocks, b: Name, built: set<Name>, tail: Emission, own: Emission, l: Name)
    requires b in blocks && b !in built && blocks[b].exit.Some? && tail.built <= own.built
    requires JoinsApart(blocks, tail.built, own.built, own.joined)
    requires var e := blocks[b].exit.value;
      && e.to in blocks && e.to !in built + {b} && e.to in tail.built
      && JoinsApart(blocks, built + {b} + {e.to}, tail.built, tail.joined)
      && (l in OwnLabels(blocks, e.to, if EnterCount(blocks[e.to], e.origName) == 1 then Some(e.origName) else None)
          || LeftFrom(blocks, built + {b} + {e.to}, tail.built, tail.joined, l))
    ensures LeftFrom(blocks, built + {b}, own.built, own.joined + tail.joined + {b}, l)
  {
    var to, joined := blocks[b].exit.value.to, own.joined + tail.joined + {b};
    if LeftFrom(blocks, built + {b} + {to}, tail.built, tail.joined, l) {
      var n :| n in tail.built && n !in built + {b} + {to} && IsEntered(blocks, n, l)
        && forall m :: m in tail.joined && m in blocks && blocks[m].exit == Some(Exit(n, l)) ==>
          EnterCount(blocks[n], l) != 1;
      assert forall m :: m in own.joined + {b} ==> blocks[m].exit.value.to != n;
    } else {
      assert IsEntered(blocks, to, l);
      assert forall m :: m in own.joined + tail.joined ==> blocks[m].exit.value.to != to;
    }
  }

  lemma {:induction false} NodesLeave(blocks: Blocks, b: Name, i: nat, removeLabel: Option<Name>,
      removeGoto: Option<Name>, built: set<Name>)
    requires WellBuilt(blocks) && Wired(blocks) && b in blocks && blocks[b].aliasOf.None? && built <= blocks.Keys
      && i <= |blocks[b].nodes|
    ensures RefsExist(blocks, blocks[b].nodes[i..])
    ensures var r := NodesA(blocks, blocks[b].nodes[i..], blocks[b], removeLabel, removeGoto, built);
      && Leaves(blocks, built, r.built, r.joined, OwnLabels(blocks, b, removeLabel), KeptLabels(r.code),
           KeptGotos(r.code))
      && forall n :: n in blocks[b].nodes[i..] && n.NGoto? && removeGoto != Some(n.target) ==>
           n.target in KeptGotos(r.code)
    decreases blocks.Keys - built, 2, |blocks[b].nodes| - i
  {
    hide Wired, NodeA, RefsExist, WellBuilt, Leaves, OwnLabels, KeptLabelsIn, KeptGotosIn;
    NodesAFrom(blocks, b, i, removeLabel, removeGoto, built, []);
    var ns, own := blocks[b].nodes[i..], OwnLabels(blocks, b, removeLabel);
    if i < |blocks[b].nodes| {
      assert ns[0] == blocks[b].nodes[i] && ns[1..] == blocks[b].nodes[i + 1..];
      var first := NodeA(blocks, ns[0], blocks[b], removeLabel, removeGoto, built);
      NodeLeaves(blocks, b, i, removeLabel, removeGoto, built);
      NodesLeave(blocks, b, i + 1, removeLabel, removeGoto, first.built);
      var rest := NodesA(blocks, ns[1..], blocks[b], removeLabel, removeGoto, first.built);
      LeavesAdd(blocks, built, first.built, rest.built, first.joined, rest.joined, own, own,
        KeptLabelsIn(first.stmt), KeptLabels(rest.code), KeptGotosIn(first.stmt), KeptGotos(rest.code));
      assert own + own == own;
      assert ([first.stmt] + rest.code)[1..] == rest.code;
    } else {
      NothingLeft(blocks, built, own);
    }
  }

  lemma NothingLeft(blocks: Blocks, built: set<Name>, own: set<Name>)
    ensures Leaves(blocks, built, built, {}, own, {}, {})
  {}

  lemma LeavesMore(blocks: Blocks, built: set<Name>, built': set<Name>, joined: set<Name>, own: set<Name>,
      own': set<Name>, labels: set<Name>, gotos: set<Name>)
    requires Leaves(blocks, built, built', joined, own, labels, gotos) && own <= own'
    ensures Leaves(blocks, built, built', joined, own', labels, gotos)
  {}

  lemma {:induction false} NodeLeaves(blocks: Blocks, b: Name, i: nat, removeLabel: Option<Name>,
      removeGoto: Option<Name>, built: set<Name>)
    requires WellBuilt(blocks) && Wired(blocks) && b in blocks && blocks[b].aliasOf.None? && built <= blocks.Keys
      && i < |blocks[b].nodes| && RefsExist(blocks, [blocks[b].nodes[i]])
    ensures var n := blocks[b].nodes[i];
      var r := NodeA(blocks, n, blocks[b], removeLabel, removeGoto, built);
      && Leaves(blocks, built, r.built, r.joined, OwnLabels(blocks, b, removeLabel), KeptLabelsIn(r.stmt),
           KeptGotosIn(r.stmt))
      && (n.NGoto? && removeGoto != Some(n.target) ==> n.target in KeptGotosIn(r.stmt))
    decreases blocks.Keys - built, 1
  {
    hide Wired, RebuildA, WellBuilt, Leaves, KeptLabels, KeptGotos, OwnLabels;
    var n, own := blocks[b].nodes[i], OwnLabels(blocks, b, removeLabel);
    assert n in [n];
    if n.NIf? || n.NLoop? {
      RebuildLeaves(blocks, n.sub, None, built);
      var thn := RebuildA(blocks, n.sub, None, built);
      StartLeaves(blocks, n.sub, built, thn);
      LeavesMore(blocks, built, thn.built, thn.joined, {}, own, KeptLabels(thn.code), KeptGotos(thn.code));
      if n.NIf? && blocks[n.sub].elseBlock.Some? {
        var eb := blocks[n.sub].elseBlock.value;
        RebuildLeaves(blocks, eb, None, thn.built);
        var els := RebuildA(blocks, eb, None, thn.built);
        StartLeaves(blocks, eb, thn.built, els);
        LeavesAdd(blocks, built, thn.built, els.built, thn.joined, els.joined, own, {}, KeptLabels(thn.code),
          KeptLabels(els.code), KeptGotos(thn.code), KeptGotos(els.code));
        assert own + {} == own;
      } else {
        assert KeptLabels(thn.code) + {} == KeptLabels(thn.code) && KeptGotos(thn.code) + {} == KeptGotos(thn.code);
      }
    } else {
      LeafLeaves(blocks, b, n, removeLabel, removeGoto, built);
    }
  }

  lemma LeafLeaves(blocks: Blocks, b: Name, n: Node, removeLabel: Option<Name>, removeGoto: Option<Name>,
      built: set<Name>)
    requires Wired(blocks) && RefsExist(blocks, [n]) && built <= blocks.Keys && b in blocks && n in blocks[b].nodes
      && !n.NIf? && !n.NLoop?
    ensures var r := NodeA(blocks, n, blocks[b], removeLabel, removeGoto, built);
      && Leaves(blocks, built, r.built, r.joined, OwnLabels(blocks, b, removeLabel), KeptLabelsIn(r.stmt),
           KeptGotosIn(r.stmt))
      && (n.NGoto? && removeGoto != Some(n.target) ==> n.target in KeptGotosIn(r.stmt))
  {
    hide Wired;
    if n.NLabel? {
      assert NLabel(n.name) == n && HasLabel(blocks[b], n.name);
    }
  }

  // ---- The labels of the rebuilt program ------------------------------------------------------------------

  /** Code that is not reached would jump to a reached block by `l`. */
  ghost predicate EnteredFromOutside(blocks: Blocks, reached: set<Name>, l: Name) {
    exists m, n :: n in reached && m in blocks && m !in reached && blocks[m].exit == Some(Exit(n, l))
  }

  /** If a block is entered by a label, all from blocks that were joined, it is one block. */
  lemma OneJoined(blocks: Blocks, built: set<Name>, built': set<Name>, joined: set<Name>, n: Name, l: Name)
      returns (m: Name)
    requires JoinsApart(blocks, built, built', joined) && Exiters(blocks, n, l) <= joined
    requires |Exiters(blocks, n, l)| != 0
    ensures m in joined && m in blocks && blocks[m].exit == Some(Exit(n, l)) && |Exiters(blocks, n, l)| == 1
  {
    m :| m in Exiters(blocks, n, l);
    assert Exiters(blocks, n, l) == {m};
  }

  lemma LeftIsJumpedTo(blocks: Blocks, p: seq<Stmt>, starts: map<Name, nat>, root: Name, r: Emission, n: Name, l: Name)
    requires Represents(blocks, p, starts, root) && Starts(blocks, root, None, {}, r) && blocks[root].defined
    requires n in r.built && IsEntered(blocks, n, l) && blocks[n].aliasOf.None?
    requires forall m :: m in r.joined && m in blocks && blocks[m].exit == Some(Exit(n, l)) ==>
      EnterCount(blocks[n], l) != 1
    ensures l in KeptGotos(r.code) || EnteredFromOutside(blocks, r.built, l)
  {
    hide HoldsFromLabels, WellBuilt, InRun, HasLabel, TopLabels;
    assert LiveLabel(blocks, n, l);
    if l !in KeptGotos(r.code) && !EnteredFromOutside(blocks, r.built, l) {
      forall m | m in Exiters(blocks, n, l) ensures m in r.joined {
        assert m in r.built;
        assert ExitsBy(blocks, m, l);
      }
      var _ := OneJoined(blocks, {} + {root}, r.built, r.joined, n, l);
    }
  }

  /** A label is kept iff a goto to it is, or code that is not reached would jump there. */
  lemma LabelIsKeptIff(blocks: Blocks, p: seq<Stmt>, starts: map<Name, nat>, root: Name, l: Name)
    requires Represents(blocks, p, starts, root) && Wired(blocks)
    requires root in blocks && blocks[root].aliasOf.None? && blocks[root].defined
    ensures var r := RebuildA(blocks, root, None, {});
      l in KeptLabels(r.code) <==> l in KeptGotos(r.code) || EnteredFromOutside(blocks, r.built, l)
  {
    hide Wired, RebuildA, WellBuilt, KeptLabels, KeptGotos, Represents, Labels, Dropped;
    var r := RebuildA(blocks, root, None, {});
    RepresentsWired(blocks, p, starts, root);
    RebuildLeaves(blocks, root, None, {});
    RebuildAccounts(blocks, root, None, {});
    KeptOrDropped(r.code);
    if l in KeptLabels(r.code) {
      var n := LeftBlock(blocks, root, r, l);
      LeftIsJumpedTo(blocks, p, starts, root, r, n, l);
    } else if l in KeptGotos(r.code) {
      KeptLabelIsKept(blocks, p, starts, root, l);
    } else if EnteredFromOutside(blocks, r.built, l) {
      OutsideKeeps(blocks, p, starts, root, r, l);
    }
  }

  /** The block whose label is left. */
  lemma LeftBlock(blocks: Blocks, root: Name, r: Emission, l: Name) returns (n: Name)
    requires root in blocks && blocks[root].defined && Starts(blocks, root, None, {}, r) && l in KeptLabels(r.code)
    requires LiveBuilt(blocks, {}, r.built)
    ensures n in r.built && IsEntered(blocks, n, l) && blocks[n].aliasOf.None?
    ensures forall m :: m in r.joined && m in blocks && blocks[m].exit == Some(Exit(n, l)) ==>
      EnterCount(blocks[n], l) != 1
  {
    if l in OwnLabels(blocks, root, None) {
      n := root;
    } else {
      n :| n in r.built && n !in {} + {root} && IsEntered(blocks, n, l)
        && forall m :: m in r.joined && m in blocks && blocks[m].exit == Some(Exit(n, l)) ==>
          EnterCount(blocks[n], l) != 1;
    }
  }

  lemma OutsideKeeps(blocks: Blocks, p: seq<Stmt>, starts: map<Name, nat>, root: Name, r: Emission, l: Name)
    requires Represents(blocks, p, starts, root) && EnteredFromOutside(blocks, r.built, l) && r.joined <= r.built
    requires Account(blocks, {}, r.built, r.joined, KeptGotos(r.code), Labels(r.code))
    requires forall x :: x in Dropped(r.code) ==> Explained(blocks, {}, r.built, r.joined, x, root, None)
    ensures l in Labels(r.code) && l !in Dropped(r.code)
  {
    hide HoldsFromLabels, WellBuilt, InRun, HasLabel, TopLabels, Labels, Dropped, KeptGotos;
    var m, n :| n in r.built && m in blocks && m !in r.built && blocks[m].exit == Some(Exit(n, l));
    assert LiveLabel(blocks, n, l);
    assert m in Exiters(blocks, n, l);
    if l in Dropped(r.code) {
      var n' :| n' in r.built && n' !in {} && MayDrop(blocks, n', l, r.joined);
      assert LiveLabel(blocks, n', l);
      if EnterCount(blocks[n], l) == 1 {
        SameElement(Exiters(blocks, n, l), m, r.joined);
      }
      assert false;
    }
  }

  lemma RootIsDefined(blocks: Blocks, p: seq<Stmt>, starts: map<Name, nat>, root: Name)
    requires Represents(blocks, p, starts, root)
    ensures root in blocks && blocks[root].defined && blocks[root].aliasOf.None?
  {}

  /**
   In what the visitor returns, a label is left iff a goto to it is left, or code that cannot be reached would jump to
   it.
   */
  lemma LabelsLeftIff(src: seq<Stmt>, l: Name) returns (reached: set<Name>)
    requires InFragment(src)
    ensures var st := Build(src);
      && reached <= st.blocks.Keys && IsReachable(st.blocks, Root(st, MAIN), reached)
      && (CodeItems(Eliminated(src))[ILabel(l)] > 0 <==>
            CodeItems(Eliminated(src))[IGoto(l)] > 0 || EnteredFromOutside(st.blocks, reached, l))
  {
    hide InFragment, Represents, Build, WellBuilt, IsReachable, CodeItems, Rebuilt, Trim, RebuildA, EnteredFromOutside,
      KeptLabels, KeptGotos, Items, ItemsOf;
    var st := Build(src);
    var starts := BuildRepresents(src);
    var root := Root(st, MAIN);
    RepresentsWired(st.blocks, Whole(src), starts, root);
    RebuiltIsWhole(src);
    RootIsDefined(st.blocks, Whole(src), starts, root);
    RebuildConservesReachable(st.blocks, root);
    var r := RebuildA(st.blocks, root, None, {});
    reached := r.built;
    LabelIsKeptIff(st.blocks, Whole(src), starts, root, l);
    ErasedLabels(r.code, l);
    ErasedFits(r.code);
    assert IGoto(l).target == l;
    var trimmed := TrimmedIsImplied(Erase(r.code));
    CodeItemsConcat(Trim(Erase(r.code)), trimmed);
    ImpliedItems(trimmed, l);
  }

  /** Where every block that jumps can be reached, the labels left are the targets of the gotos left. */
  lemma LabelsAreTargets(src: seq<Stmt>, l: Name)
    requires InFragment(src)
    requires forall reached: set<Name> :: IsReachable(Build(src).blocks, Root(Build(src), MAIN), reached) ==>
      forall n :: n in Build(src).blocks && Build(src).blocks[n].exit.Some? ==> n in reached
    ensures CodeItems(Eliminated(src))[ILabel(l)] > 0 <==> CodeItems(Eliminated(src))[IGoto(l)] > 0
  {
    hide InFragment, Build, IsReachable, CodeItems, Eliminated;
    var reached := LabelsLeftIff(src, l);
  }
}
