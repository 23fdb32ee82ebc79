/**
 Which labels and gotos a rebuild drops: a goto is kept only if its target has been built, and a label is
 dropped only if nothing enters by it, or the one block that does was joined to it.
 */
module Accounting {
  import opened Wrappers
  import opened PhpCode
  import opened Annotated
  import opened CodeBlocks
  import opened Rebuild
  import opened BlockCode

  /** A newly built block that was not joined to its exit exits by the name `l`, and its exit is built. */
  ghost predicate KeptFrom(blocks: Blocks, built: set<Name>, built': set<Name>, joined: set<Name>, l: Name) {
    exists n :: n in built' && n !in built && n !in joined && ExitsBy(blocks, n, l) && blocks[n].exit.value.to in built'
  }

  predicate ExitsBy(blocks: Blocks, n: Name, l: Name) {
    n in blocks && blocks[n].exit.Some? && blocks[n].exit.value.origName == l
  }

  /** Label `l` of block `n` may be dropped. */
  ghost predicate MayDrop(blocks: Blocks, n: Name, l: Name, joined: set<Name>) {
    n in blocks && HasLabel(blocks[n], l)
    && (EnterCount(blocks[n], l) == 0
        || (EnterCount(blocks[n], l) == 1 && exists m ::
            m in joined && m in blocks && blocks[m].exit == Some(Exit(n, l))))
  }

  ghost predicate DropExplained(blocks: Blocks, built: set<Name>, built': set<Name>, joined: set<Name>, l: Name) {
    exists n :: n in built' && n !in built && MayDrop(blocks, n, l, joined)
  }

  /** Either explained, or the label the caller asked block `b` to drop. */
  ghost predicate Explained(blocks: Blocks, built: set<Name>, built': set<Name>, joined: set<Name>, l: Name, b: Name,
      removeLabel: Option<Name>) {
    || DropExplained(blocks, built, built', joined, l)
    || (removeLabel == Some(l) && b in blocks && HasLabel(blocks[b], l) && b in built' && b !in built)
  }

  ghost predicate LabelsEmitted(blocks: Blocks, built: set<Name>, built': set<Name>, labels: set<Name>) {
    forall n, l :: n in built' && n !in built && n in blocks && HasLabel(blocks[n], l) ==> l in labels
  }

  /** No alias is built. */
  ghost predicate LiveBuilt(blocks: Blocks, built: set<Name>, built': set<Name>) {
    forall n :: n in built' && n !in built ==> n in blocks && blocks[n].aliasOf.None?
  }

  /** The account of a rebuild that started with `built`. */
  ghost predicate Account(blocks: Blocks, built: set<Name>, built': set<Name>, joined: set<Name>, kept: set<Name>,
      labels: set<Name>) {
    && joined <= built' - built && LiveBuilt(blocks, built, built')
    && (forall l :: l in kept ==> KeptFrom(blocks, built, built', joined, l))
    && LabelsEmitted(blocks, built, built', labels)
  }

  lemma AccountsAdd(blocks: Blocks, b0: set<Name>, b1: set<Name>, b2: set<Name>, j1: set<Name>, j2: set<Name>,
                    k1: set<Name>, k2: set<Name>, l1: set<Name>, l2: set<Name>)
    requires b0 <= b1 <= b2
    requires Account(blocks, b0, b1, j1, k1, l1) && Account(blocks, b1, b2, j2, k2, l2)
    ensures Account(blocks, b0, b2, j1 + j2, k1 + k2, l1 + l2)
  {
    forall l | l in k1 + k2 ensures KeptFrom(blocks, b0, b2, j1 + j2, l) {
      if l in k1 {
        var n :| n in b1 && n !in b0 && n !in j1 && ExitsBy(blocks, n, l) && blocks[n].exit.value.to in b1;
        assert n !in j2;
      } else {
        var n :| n in b2 && n !in b1 && n !in j2 && ExitsBy(blocks, n, l) && blocks[n].exit.value.to in b2;
        assert n !in j1;
      }
    }
  }

  lemma DropsAdd(blocks: Blocks, b0: set<Name>, b1: set<Name>, b2: set<Name>, b3: set<Name>, j: set<Name>,
      j': set<Name>, l: Name)
    requires b0 <= b1 <= b2 <= b3 && j <= j' && DropExplained(blocks, b1, b2, j, l)
    ensures DropExplained(blocks, b0, b3, j', l)
  {
    var n :| n in b2 && n !in b1 && MayDrop(blocks, n, l, j);
    assert MayDrop(blocks, n, l, j');
  }

  ghost predicate IsQuiet(blocks: Blocks, n: Name) {
    n in blocks && blocks[n].aliasOf.None? && blocks[n].inLoop
  }

  /** What is built inside of a loop has no labels. */
  lemma {:induction false} LoopBuildsQuiet(blocks: Blocks, b: Name, built: set<Name>)
    requires WellBuilt(blocks) && Wired(blocks) && b in blocks && blocks[b].aliasOf.None? && blocks[b].inLoop
      && built <= blocks.Keys
    ensures forall n :: n in RebuildA(blocks, b, None, built).built && n !in built ==> IsQuiet(blocks, n)
    decreases blocks.Keys - built, 0
  {
    hide Wired, NodesA;
    if b !in built && blocks[b].defined {
      NodesAFrom(blocks, b, 0, None, None, built + {b}, []);
      assert blocks[b].nodes[0..] == blocks[b].nodes;
      NodesBuildQuiet(blocks, b, 0, built + {b});
    }
  }

  lemma {:induction false} NodesBuildQuiet(blocks: Blocks, b: Name, i: nat, built: set<Name>)
    requires WellBuilt(blocks) && Wired(blocks) && b in blocks && blocks[b].aliasOf.None? && blocks[b].inLoop
      && built <= blocks.Keys
    requires i <= |blocks[b].nodes|
    ensures RefsExist(blocks, blocks[b].nodes[i..])
    ensures forall n :: n in NodesA(blocks, blocks[b].nodes[i..], blocks[b], None, None, built).built && n !in built ==>
      IsQuiet(blocks, n)
    decreases blocks.Keys - built, 2, |blocks[b].nodes| - i
  {
    hide Wired;
    NodesAFrom(blocks, b, i, None, None, built, []);
    if i < |blocks[b].nodes| {
      var n := blocks[b].nodes[i];
      assert blocks[b].nodes[i..][0] == n && blocks[b].nodes[i..][1..] == blocks[b].nodes[i + 1..];
      OwnNode(blocks, b, i);
      NodeBuildsQuiet(blocks, n, blocks[b], None, None, built);
      NodesBuildQuiet(blocks, b, i + 1, NodeA(blocks, n, blocks[b], None, None, built).built);
    }
  }

  lemma {:induction false} NodeBuildsQuiet(blocks: Blocks, n: Node, blk: Block, removeLabel: Option<Name>,
      removeGoto: Option<Name>, built: set<Name>)
    requires WellBuilt(blocks) && Wired(blocks) && RefsExist(blocks, [n]) && built <= blocks.Keys
    requires forall x :: x in RefsOf(blocks, n) && x in blocks ==> blocks[x].inLoop
    ensures forall x :: x in NodeA(blocks, n, blk, removeLabel, removeGoto, built).built && x !in built ==>
      IsQuiet(blocks, x)
    decreases blocks.Keys - built, 1
  {
    hide Wired, RebuildA;
    assert n in [n];
    if n.NIf? || n.NLoop? {
      LoopBuildsQuiet(blocks, n.sub, built);
      if n.NIf? && blocks[n.sub].elseBlock.Some? {
        LoopBuildsQuiet(blocks, blocks[n.sub].elseBlock.value, RebuildA(blocks, n.sub, None, built).built);
      }
    }
  }

  /** The goto of `blk` itself is kept. */
  predicate OwnGotoKept(blk: Block, removeGoto: Option<Name>, l: Name) {
    blk.exit.Some? && blk.exit.value.origName == l && removeGoto != Some(l)
  }

  /** A label of `b` itself is dropped. */
  ghost predicate OwnLabelDropped(b: Block, removeLabel: Option<Name>, l: Name) {
    HasLabel(b, l) && (EnterCount(b, l) == 0 || removeLabel == Some(l))
  }

  /** The account of processing nodes of block `b`. */
  ghost predicate NodesAccount(blocks: Blocks, b: Block, removeLabel: Option<Name>, removeGoto: Option<Name>,
                               built: set<Name>, built': set<Name>, joined: set<Name>, code: seq<AStmt>)
  {
    && joined <= built' - built && LiveBuilt(blocks, built, built')
    && (forall l :: l in KeptGotos(code) ==>
      KeptFrom(blocks, built, built', joined, l) || OwnGotoKept(b, removeGoto, l))
    && (forall l :: l in Dropped(code) ==>
      DropExplained(blocks, built, built', joined, l) || OwnLabelDropped(b, removeLabel, l))
    && LabelsEmitted(blocks, built, built', Labels(code))
  }

  lemma NodesAccountsAdd(blocks: Blocks, b: Block, removeLabel: Option<Name>, removeGoto: Option<Name>, b0: set<Name>,
      b1: set<Name>,
                         b2: set<Name>, j1: set<Name>, j2: set<Name>, a: AStmt, code: seq<AStmt>)
    requires b0 <= b1 <= b2
    requires NodesAccount(blocks, b, removeLabel, removeGoto, b0, b1, j1, [a])
    requires NodesAccount(blocks, b, removeLabel, removeGoto, b1, b2, j2, code)
    ensures NodesAccount(blocks, b, removeLabel, removeGoto, b0, b2, j1 + j2, [a] + code)
  {
    var all := [a] + code;
    assert all[0] == a && all[1..] == code && [a][1..] == [];
    LabelsAppend([a], code);
    forall l | l in KeptGotos(all) && !OwnGotoKept(b, removeGoto, l) ensures KeptFrom(blocks, b0, b2, j1 + j2, l) {
      if l in KeptGotos([a]) {
        var n :| n in b1 && n !in b0 && n !in j1 && ExitsBy(blocks, n, l) && blocks[n].exit.value.to in b1;
        assert n !in j2;
      } else {
        var n :| n in b2 && n !in b1 && n !in j2 && ExitsBy(blocks, n, l) && blocks[n].exit.value.to in b2;
        assert n !in j1;
      }
    }
    forall l | l in Dropped(all) && !OwnLabelDropped(b, removeLabel, l)
      ensures DropExplained(blocks, b0, b2, j1 + j2, l) {
      if l in Dropped([a]) {
        DropsAdd(blocks, b0, b0, b1, b2, j1, j1 + j2, l);
      } else {
        DropsAdd(blocks, b0, b1, b2, b2, j2, j1 + j2, l);
      }
    }
  }

  lemma {:induction false} RebuildAccounts(blocks: Blocks, b: Name, removeLabel: Option<Name>, built: set<Name>)
    requires WellBuilt(blocks) && Wired(blocks) && b in blocks && blocks[b].aliasOf.None? && built <= blocks.Keys
    ensures var r := RebuildA(blocks, b, removeLabel, built);
      && Account(blocks, built, r.built, r.joined, KeptGotos(r.code), Labels(r.code))
      && (forall l :: l in Dropped(r.code) ==> Explained(blocks, built, r.built, r.joined, l, b, removeLabel))
    decreases blocks.Keys - built, 0
  {
    hide Wired, NodesA, WellBuilt;
    var blk := blocks[b];
    if b !in built && blk.defined {
      assert blk.nodes[0..] == blk.nodes;
      if blk.exit.None? {
        NodesAFrom(blocks, b, 0, removeLabel, None, built + {b}, []);
        NodesAreAccounted(blocks, b, 0, removeLabel, None, built + {b});
        BlockAccount(blocks, b, removeLabel, None, built, Emission([], built + {b}, {}), {});
        var own := NodesA(blocks, blk.nodes, blk, removeLabel, None, built + {b});
        assert own.code + [] == own.code;
      } else {
        ExitAccount(blocks, b, removeLabel, built);
      }
    }
  }

  lemma {:induction false} ExitAccount(blocks: Blocks, b: Name, removeLabel: Option<Name>, built: set<Name>)
    requires WellBuilt(blocks) && Wired(blocks) && b in blocks && blocks[b].aliasOf.None? && built <= blocks.Keys
    requires b !in built && blocks[b].defined && blocks[b].exit.Some?
    ensures var r := RebuildA(blocks, b, removeLabel, built);
      && Account(blocks, built, r.built, r.joined, KeptGotos(r.code), Labels(r.code))
      && (forall l :: l in Dropped(r.code) ==> Explained(blocks, built, r.built, r.joined, l, b, removeLabel))
    decreases blocks.Keys - built - {b}, 3
  {
    hide Wired, NodesA, NodesAccount, Account;
    var blk := blocks[b];
    var exit := blk.exit.value;
    ExitExists(blocks, b);
    var built1 := built + {b};
    var removeGoto := exit.to !in built1;
    var removeExitLabel := removeGoto && EnterCount(blocks[exit.to], exit.origName) == 1;
    var rl := if removeExitLabel then Some(exit.origName) else None;
    var rg := if removeGoto then Some(exit.origName) else None;
    var tail := RebuildA(blocks, exit.to, rl, built1);
    RebuildAccounts(blocks, exit.to, rl, built1);
    assert blk.nodes[0..] == blk.nodes;
    NodesAFrom(blocks, b, 0, removeLabel, rg, tail.built, tail.code);
    NodesAreAccounted(blocks, b, 0, removeLabel, rg, tail.built);
    BlockAccount(blocks, b, removeLabel, rg, built, tail, if removeGoto then {b} else {});
  }

  lemma ExitExists(blocks: Blocks, b: Name)
    requires WellBuilt(blocks) && b in blocks && blocks[b].aliasOf.None? && blocks[b].exit.Some?
    ensures blocks[b].exit.value.to in blocks && blocks[blocks[b].exit.value.to].aliasOf.None?
      && blocks[blocks[b].exit.value.to].defined
  {}

  /** Putting the accounts of the exit and of the own nodes together. */
  lemma BlockAccount(blocks: Blocks, b: Name, removeLabel: Option<Name>, removeGoto: Option<Name>, built: set<Name>,
      tail: Emission, self: set<Name>)
    requires Wired(blocks) && b in blocks && blocks[b].aliasOf.None? && b !in built
    requires built + {b} <= tail.built <= blocks.Keys && RefsExist(blocks, blocks[b].nodes)
    requires Account(blocks, built + {b}, tail.built, tail.joined, KeptGotos(tail.code), Labels(tail.code))
    requires self == if removeGoto.Some? then {b} else {}
    requires removeGoto.Some? ==> blocks[b].exit.Some? && removeGoto.value == blocks[b].exit.value.origName
    requires removeGoto.None? && blocks[b].exit.Some? ==> blocks[b].exit.value.to in built + {b}
    requires blocks[b].exit.None? ==> tail.code == []
    requires blocks[b].exit.Some? ==> blocks[b].exit.value.to in blocks
    requires forall l :: l in Dropped(tail.code) ==> (
        && blocks[b].exit.Some?
        && var to := blocks[b].exit.value.to;
           Explained(blocks, built + {b}, tail.built, tail.joined, l, to,
                     if removeGoto.Some? && EnterCount(blocks[to], removeGoto.value) == 1 then removeGoto else None))
    requires var own := NodesA(blocks, blocks[b].nodes, blocks[b], removeLabel, removeGoto, tail.built);
      && NodesAccount(blocks, blocks[b], removeLabel, removeGoto, tail.built, own.built, own.joined, own.code)
      && forall l :: HasLabel(blocks[b], l) ==> l in Labels(own.code)
    ensures var own := NodesA(blocks, blocks[b].nodes, blocks[b], removeLabel, removeGoto, tail.built);
      var code, joined := own.code + tail.code, own.joined + tail.joined + self;
      && Account(blocks, built, own.built, joined, KeptGotos(code), Labels(code))
      && (forall l :: l in Dropped(code) ==> Explained(blocks, built, own.built, joined, l, b, removeLabel))
  {
    hide Wired, NodesA, Account, NodesAccount, Explained, KeptFrom;
    var own := NodesA(blocks, blocks[b].nodes, blocks[b], removeLabel, removeGoto, tail.built);
    KeptGotosAppend(own.code, tail.code);
    LabelsAppend(own.code, tail.code);
    BlockKeeps(blocks, b, removeLabel, removeGoto, built, tail, own, self);
    BlockDrops(blocks, b, removeLabel, removeGoto, built, tail, own, self);
  }

  lemma BlockKeeps(blocks: Blocks, b: Name, removeLabel: Option<Name>, removeGoto: Option<Name>, built: set<Name>,
                   tail: Emission, own: Emission, self: set<Name>)
    requires b in blocks && blocks[b].aliasOf.None? && b !in built && built + {b} <= tail.built <= own.built
    requires Account(blocks, built + {b}, tail.built, tail.joined, KeptGotos(tail.code), Labels(tail.code))
    requires self == if removeGoto.Some? then {b} else {}
    requires removeGoto.Some? ==> blocks[b].exit.Some? && removeGoto.value == blocks[b].exit.value.origName
    requires removeGoto.None? && blocks[b].exit.Some? ==> blocks[b].exit.value.to in built + {b}
    requires NodesAccount(blocks, blocks[b], removeLabel, removeGoto, tail.built, own.built, own.joined, own.code)
    requires forall l :: HasLabel(blocks[b], l) ==> l in Labels(own.code)
    ensures Account(blocks, built, own.built, own.joined + tail.joined + self,
                    KeptGotos(own.code) + KeptGotos(tail.code), Labels(own.code) + Labels(tail.code))
  {
    var joined := own.joined + tail.joined + self;
    forall l | l in KeptGotos(own.code) + KeptGotos(tail.code) ensures KeptFrom(blocks, built, own.built, joined, l) {
      if l in KeptGotos(tail.code) {
        var n :| n in tail.built && n !in built + {b} && n !in tail.joined && ExitsBy(blocks, n, l)
          && blocks[n].exit.value.to in tail.built;
        assert n !in own.joined;
      } else if OwnGotoKept(blocks[b], removeGoto, l) {
        assert ExitsBy(blocks, b, l);
      } else {
        var n :| n in own.built && n !in tail.built && n !in own.joined && ExitsBy(blocks, n, l)
          && blocks[n].exit.value.to in own.built;
        assert n !in tail.joined;
      }
    }
  }

  lemma BlockDrops(blocks: Blocks, b: Name, removeLabel: Option<Name>, removeGoto: Option<Name>, built: set<Name>,
                   tail: Emission, own: Emission, self: set<Name>)
    requires b in blocks && b !in built && built + {b} <= tail.built <= own.built
    requires self == if removeGoto.Some? then {b} else {}
    requires removeGoto.Some? ==> blocks[b].exit.Some? && removeGoto.value == blocks[b].exit.value.origName
    requires blocks[b].exit.Some? ==> blocks[b].exit.value.to in blocks
    requires forall l :: l in Dropped(tail.code) ==> (
        && blocks[b].exit.Some?
        && var to := blocks[b].exit.value.to;
           Explained(blocks, built + {b}, tail.built, tail.joined, l, to,
                     if removeGoto.Some? && EnterCount(blocks[to], removeGoto.value) == 1 then removeGoto else None))
    requires NodesAccount(blocks, blocks[b], removeLabel, removeGoto, tail.built, own.built, own.joined, own.code)
    ensures forall l :: l in Dropped(own.code) + Dropped(tail.code) ==>
        Explained(blocks, built, own.built, own.joined + tail.joined + self, l, b, removeLabel)
  {
    var joined := own.joined + tail.joined + self;
    forall l | l in Dropped(own.code) + Dropped(tail.code)
      ensures Explained(blocks, built, own.built, joined, l, b, removeLabel) {
      if l in Dropped(tail.code) {
        var to := blocks[b].exit.value.to;
        if DropExplained(blocks, built + {b}, tail.built, tail.joined, l) {
          DropsAdd(blocks, built, built + {b}, tail.built, own.built, tail.joined, joined, l);
        } else {
          assert blocks[b].exit == Some(Exit(to, l)) && b in joined;
          assert MayDrop(blocks, to, l, joined);
        }
      } else if OwnLabelDropped(blocks[b], removeLabel, l) {
        if removeLabel != Some(l) {
          assert MayDrop(blocks, b, l, joined);
        }
      } else {
        DropsAdd(blocks, built, tail.built, own.built, own.built, own.joined, joined, l);
      }
    }
  }

  lemma {:induction false} LabelsAppend(a: seq<AStmt>, b: seq<AStmt>)
    ensures Labels(a + b) == Labels(a) + Labels(b) && Dropped(a + b) == Dropped(a) + Dropped(b)
    decreases |a|
  {
    if a == [] {
      assert a + b == b;
    } else {
      assert (a + b)[0] == a[0] && (a + b)[1..] == a[1..] + b;
      LabelsAppend(a[1..], b);
    }
  }

  lemma {:induction false} NodesAreAccounted(blocks: Blocks, b: Name, i: nat, removeLabel: Option<Name>,
      removeGoto: Option<Name>, built: set<Name>)
    requires WellBuilt(blocks) && Wired(blocks) && b in blocks && blocks[b].aliasOf.None? && built <= blocks.Keys
    requires i <= |blocks[b].nodes|
    ensures RefsExist(blocks, blocks[b].nodes[i..])
    ensures var r := NodesA(blocks, blocks[b].nodes[i..], blocks[b], removeLabel, removeGoto, built);
      && NodesAccount(blocks, blocks[b], removeLabel, removeGoto, built, r.built, r.joined, r.code)
      && forall j :: i <= j < |blocks[b].nodes| && blocks[b].nodes[j].NLabel? ==>
        blocks[b].nodes[j].name in Labels(r.code)
    decreases blocks.Keys - built, 2, |blocks[b].nodes| - i
  {
    hide Wired, NodeA;
    NodesAFrom(blocks, b, i, removeLabel, removeGoto, built, []);
    var ns := blocks[b].nodes[i..];
    if i < |blocks[b].nodes| {
      var n := blocks[b].nodes[i];
      assert ns[0] == n && ns[1..] == blocks[b].nodes[i + 1..];
      OwnNode(blocks, b, i);
      var first := NodeA(blocks, n, blocks[b], removeLabel, removeGoto, built);
      NodeIsAccounted(blocks, b, i, removeLabel, removeGoto, built);
      NodesAreAccounted(blocks, b, i + 1, removeLabel, removeGoto, first.built);
      var rest := NodesA(blocks, ns[1..], blocks[b], removeLabel, removeGoto, first.built);
      NodesAccountsAdd(blocks, blocks[b], removeLabel, removeGoto, built, first.built, rest.built, first.joined,
        rest.joined, first.stmt, rest.code);
      LabelsAppend([first.stmt], rest.code);
    }
  }

  lemma {:induction false} NodeIsAccounted(blocks: Blocks, b: Name, i: nat, removeLabel: Option<Name>,
      removeGoto: Option<Name>, built: set<Name>)
    requires WellBuilt(blocks) && Wired(blocks) && b in blocks && blocks[b].aliasOf.None? && built <= blocks.Keys
    requires i < |blocks[b].nodes| && RefsExist(blocks, [blocks[b].nodes[i]])
    ensures var n := blocks[b].nodes[i];
      var r := NodeA(blocks, n, blocks[b], removeLabel, removeGoto, built);
      && NodesAccount(blocks, blocks[b], removeLabel, removeGoto, built, r.built, r.joined, [r.stmt])
      && (n.NLabel? ==> n.name in Labels([r.stmt]))
    decreases blocks.Keys - built, 1
  {
    hide Wired, RebuildA;
    var n := blocks[b].nodes[i];
    assert n in [n] && n in blocks[b].nodes;
    var r := NodeA(blocks, n, blocks[b], removeLabel, removeGoto, built);
    OneStatement(r.stmt);
    if n.NIf? || n.NLoop? {
      RebuildAccounts(blocks, n.sub, None, built);
      var thn := RebuildA(blocks, n.sub, None, built);
      if n.NLoop? {
        LoopBuildsQuiet(blocks, n.sub, built);
        QuietHasNoLabels(blocks, built, thn.built);
        assert r == NodeEmission(ALoop(n.kind, n.cond, thn.code), thn.built, thn.joined);
      } else if blocks[n.sub].elseBlock.Some? {
        var eb := blocks[n.sub].elseBlock.value;
        RebuildAccounts(blocks, eb, None, thn.built);
        var els := RebuildA(blocks, eb, None, thn.built);
        assert r == NodeEmission(AIf(n.cond, thn.code, AElse(els.code)), els.built, thn.joined + els.joined);
        BranchesAccount(blocks, blocks[b], removeLabel, removeGoto, n.cond, built, thn, els);
      } else {
        assert r == NodeEmission(AIf(n.cond, thn.code, ANoElse), thn.built, thn.joined);
      }
    } else {
      SimpleNode(blocks, n, blocks[b], removeLabel, removeGoto, built);
      assert r.built == built && r.joined == {};
      if n.NLabel? {
        assert n == NLabel(n.name) && HasLabel(blocks[b], n.name);
      }
      assert forall l :: l in KeptGotos([r.stmt]) ==> OwnGotoKept(blocks[b], removeGoto, l);
      assert forall l :: l in Dropped([r.stmt]) ==> OwnLabelDropped(blocks[b], removeLabel, l);
    }
  }

  lemma OneStatement(a: AStmt)
    ensures KeptGotos([a]) == KeptGotosIn(a) && Labels([a]) == LabelsIn(a) && Dropped([a]) == DroppedIn(a)
  {
    assert [a][1..] == [];
  }

  lemma BranchesAccount(blocks: Blocks, b: Block, removeLabel: Option<Name>, removeGoto: Option<Name>, c: Expr,
      built: set<Name>,
                        thn: Emission, els: Emission)
    requires built <= thn.built <= els.built
    requires Account(blocks, built, thn.built, thn.joined, KeptGotos(thn.code), Labels(thn.code))
    requires Account(blocks, thn.built, els.built, els.joined, KeptGotos(els.code), Labels(els.code))
    requires forall l :: l in Dropped(thn.code) ==> DropExplained(blocks, built, thn.built, thn.joined, l)
    requires forall l :: l in Dropped(els.code) ==> DropExplained(blocks, thn.built, els.built, els.joined, l)
    ensures NodesAccount(blocks, b, removeLabel, removeGoto, built, els.built, thn.joined + els.joined,
      [AIf(c, thn.code, AElse(els.code))])
  {
    var a := AIf(c, thn.code, AElse(els.code));
    OneStatement(a);
    AccountsAdd(blocks, built, thn.built, els.built, thn.joined, els.joined,
                KeptGotos(thn.code), KeptGotos(els.code), Labels(thn.code), Labels(els.code));
    assert KeptGotos([a]) == KeptGotos(thn.code) + KeptGotos(els.code);
    assert Labels([a]) == Labels(thn.code) + Labels(els.code);
    assert Dropped([a]) == Dropped(thn.code) + Dropped(els.code);
    forall l | l in Dropped([a]) ensures DropExplained(blocks, built, els.built, thn.joined + els.joined, l) {
      if l in Dropped(thn.code) {
        DropsAdd(blocks, built, built, thn.built, els.built, thn.joined, thn.joined + els.joined, l);
      } else {
        DropsAdd(blocks, built, thn.built, els.built, els.built, els.joined, thn.joined + els.joined, l);
      }
    }
  }

  lemma QuietHasNoLabels(blocks: Blocks, built: set<Name>, built': set<Name>)
    requires WellBuilt(blocks)
    requires forall n :: n in built' && n !in built ==> IsQuiet(blocks, n)
    ensures LabelsEmitted(blocks, built, built', {})
  {}

  // ---- The rebuilt program ----------------------------------------------------------------------

  /** The annotated code of the whole program. */
  function WholeCode(blocks: Blocks, root: Name): seq<AStmt>
    requires Wired(blocks) && root in blocks && blocks[root].aliasOf.None?
  {
    RebuildA(blocks, root, None, {}).code
  }

  /** A goto that is kept has its label kept. */
  lemma KeptLabelIsKept(blocks: Blocks, p: seq<Stmt>, starts: map<Name, nat>, root: Name, l: Name)
    requires Represents(blocks, p, starts, root) && Wired(blocks)
    requires root in blocks && blocks[root].aliasOf.None? && l in KeptGotos(WholeCode(blocks, root))
    ensures l in Labels(WholeCode(blocks, root)) && l !in Dropped(WholeCode(blocks, root))
  {
    hide Wired, RebuildA;
    RebuildAccounts(blocks, root, None, {});
    var r := RebuildA(blocks, root, None, {});
    var n :| n in r.built && n !in r.joined && ExitsBy(blocks, n, l) && blocks[n].exit.value.to in r.built;
    var e := blocks[n].exit.value.to;
    assert LiveLabel(blocks, e, l);
    assert blocks[n].exit == Some(Exit(e, l));
    if l in Dropped(r.code) {
      var n' :| n' in r.built && MayDrop(blocks, n', l, r.joined);
      assert LiveLabel(blocks, n', l);
      SameElement(Exiters(blocks, e, l), n, r.joined);
      assert false;
    }
  }

  lemma SameElement(s: set<Name>, n: Name, t: set<Name>)
    requires n in s && n !in t && |s| == 1
    ensures forall m :: m in s ==> m !in t
  {
    assert |s - {n}| == 0;
    assert s == {n};
  }

  /** Rebuilding finished blocks gives a faithful program. */
  lemma RebuildIsFaithful(blocks: Blocks, p: seq<Stmt>, starts: map<Name, nat>, root: Name)
    requires Represents(blocks, p, starts, root) && Wired(blocks) && root in blocks && blocks[root].aliasOf.None?
    ensures Faithful(p, WholeCode(blocks, root))
  {
    TopLabelsAreClosed(p);
    SuffixJumpsInto(p, 0);
    assert p[0..] == p;
    RebuildMirrors(blocks, p, starts, root, root, None, {}, blocks[root].defAt, p);
    var code := WholeCode(blocks, root);
    LabelsThenMirrors(p, p, code);
    forall l | l in KeptGotos(code) ensures l in Labels(code) && l !in Dropped(code) {
      KeptLabelIsKept(blocks, p, starts, root, l);
    }
  }
}
