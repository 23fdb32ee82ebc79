/**
 What finished blocks have to do with the program they were built from, and why rebuilding such
 blocks gives a faithful program.
 */
module BlockCode {
  import opened Wrappers
  import opened PhpCode
  import opened Annotated
  import opened CodeBlocks
  import opened Rebuild

  type Blocks = map<Name, Block>

  /**
   The nodes `ns` hold the statements `ks`, cut off behind the first jump; where `ks` runs on into a label
   there is a goto. The nested blocks are all defined after number `d`.
   */
  ghost predicate Holds(blocks: Blocks, d: nat, ns: seq<Node>, ks: seq<Stmt>)
    decreases ks, 0
  {
    if ks == [] then ns == []
    else
      && ns != []
      && match ks[0]
         case Plain(s) => ns[0] == NPlain(s) && Holds(blocks, d, ns[1..], ks[1..])
         case Return(e, implied) => ns == [NReturn(e, implied)]
         case Goto(l) => ns == [NGoto(l)]
         case Label(l) => ns == [NGoto(l)]
         case If(c, thn, els) =>
           && ns[0].NIf? && ns[0].cond == c && HeldBy(blocks, d, ns[0].sub, thn)
           && els.Else? == blocks[ns[0].sub].elseBlock.Some?
           && (els.Else? ==> HeldBy(blocks, d, blocks[ns[0].sub].elseBlock.value, els.stmts))
           && Holds(blocks, d, ns[1..], ks[1..])
         case Loop(kind, c, body) =>
           && ns[0].NLoop? && ns[0].kind == kind && ns[0].cond == c && HeldBy(blocks, d, ns[0].sub, body)
           && Holds(blocks, d, ns[1..], ks[1..])
  }

  /** Nested block `b` holds a body. */
  ghost predicate HeldBy(blocks: Blocks, d: nat, b: Name, body: seq<Stmt>)
    decreases body, 1
  {
    b in blocks && blocks[b].defAt > d && blocks[b].home.Some? && NoLabels(body)
      && Holds(blocks, d, blocks[b].nodes, body)
  }

  /** The nodes start with the labels that `ks` starts with. */
  ghost predicate HoldsFromLabels(blocks: Blocks, d: nat, ns: seq<Node>, ks: seq<Stmt>)
    decreases ks
  {
    if ks != [] && ks[0].Label? then
      ns != [] && ns[0] == NLabel(ks[0].name) && HoldsFromLabels(blocks, d, ns[1..], ks[1..])
    else Holds(blocks, d, ns, ks)
  }

  /** Label `l` is one of the labels the code at index `s` starts with. */
  ghost predicate InRun(p: seq<Stmt>, s: nat, l: Name) {
    exists i :: s <= i < |p| && p[i] == Label(l) && forall j :: s <= j < i ==> p[j].Label?
  }

  /** Distinct labels, all of them outside of bodies, and an end that control does not run off. */
  ghost predicate TopLabels(p: seq<Stmt>) {
    && Closed(p)
    && (forall i, j :: 0 <= i < j < |p| && p[i].Label? ==> p[i] != p[j])
    && forall i :: 0 <= i < |p| ==> BodyLabels(p[i]) == {}
  }

  /** The labels in the bodies of a statement. */
  function BodyLabels(s: Stmt): set<Name>
    decreases s
  {
    match s
    case If(_, thn, els) => AllLabels(thn) + if els.Else? then AllLabels(els.stmts) else {}
    case Loop(_, _, body) => AllLabels(body)
    case _ => {}
  }

  function AllLabels(ss: seq<Stmt>): set<Name>
    decreases ss
  {
    if ss == [] then {}
    else (if ss[0].Label? then {ss[0].name} else {}) + BodyLabels(ss[0]) + AllLabels(ss[1..])
  }

  /** Label `l` is a node of block `b`. */
  ghost predicate HasLabel(b: Block, l: Name) {
    NLabel(l) in b.nodes
  }

  ghost predicate LiveLabel(blocks: Blocks, n: Name, l: Name) {
    n in blocks && blocks[n].aliasOf.None? && HasLabel(blocks[n], l)
  }

  /** The blocks that exit to `e` by the name `l`. */
  function Exiters(blocks: Blocks, e: Name, l: Name): set<Name> {
    set n | n in blocks && blocks[n].exit == Some(Exit(e, l))
  }

  /** The finished blocks hold program `p`: top-level block `n` holds the code from index `starts[n]` on. */
  ghost predicate Represents(blocks: Blocks, p: seq<Stmt>, starts: map<Name, nat>, root: Name) {
    && TopLabels(p) && WellBuilt(blocks)
    && root in starts && starts[root] == 0
    && (forall n :: n in starts ==>
        && n in blocks && blocks[n].aliasOf.None? && blocks[n].defined && blocks[n].home.None?
        && starts[n] <= |p| && HoldsFromLabels(blocks, blocks[n].defAt, blocks[n].nodes, p[starts[n]..]))
    && (forall n :: n in blocks && blocks[n].exit.Some? ==> var e := blocks[n].exit.value;
        && e.to in starts && InRun(p, starts[e.to], e.origName) && HasLabel(blocks[e.to], e.origName))
    && (forall m, n, l :: LiveLabel(blocks, m, l) && LiveLabel(blocks, n, l) ==> m == n)
    && (forall n, l :: LiveLabel(blocks, n, l) ==>
        l in blocks[n].entersPerName && EnterCount(blocks[n], l) == |Exiters(blocks, n, l)|)
  }

  // ---- Jumps of the source --------------------------------------------------------------------

  lemma {:induction false} NoLabelNoFind(ss: seq<Stmt>, l: Name, k: seq<Stmt>)
    requires l !in AllLabels(ss)
    ensures Find(ss, l, k).None?
    decreases ss
  {
    if ss != [] {
      if ss[0].If? {
        NoLabelNoFindIf(ss[0], l, ss[1..] + k);
      }
      NoLabelNoFind(ss[1..], l, k);
    }
  }

  lemma {:induction false} NoLabelNoFindIf(s: Stmt, l: Name, k: seq<Stmt>)
    requires s.If? && l !in BodyLabels(s)
    ensures FindInIf(s, l, k).None?
    decreases s
  {
    NoLabelNoFind(s.thn, l, k);
    if s.els.Else? {
      NoLabelNoFind(s.els.stmts, l, k);
    }
  }

  /** A jump to a top-level label goes to what follows it. */
  lemma {:induction false} JumpToTop(p: seq<Stmt>, i: nat)
    requires forall j, k :: 0 <= j < k < |p| && p[j].Label? ==> p[j] != p[k]
    requires forall j :: 0 <= j < |p| ==> BodyLabels(p[j]) == {}
    requires i < |p| && p[i].Label?
    ensures After(p, p[i].name) == Some(p[i + 1..])
    decreases |p|
  {
    if i == 0 {
      assert p[1..] + [] == p[1..];
    } else {
      if p[0].If? {
        NoLabelNoFindIf(p[0], p[i].name, p[1..] + []);
      }
      assert p[0] != p[i];
      var q := p[1..];
      assert q[i - 1] == p[i] && q[i..] == p[i + 1..];
      forall j, k | 0 <= j < k < |q| && q[j].Label? ensures q[j] != q[k] {
        assert q[j] == p[j + 1] && q[k] == p[k + 1];
      }
      JumpToTop(q, i - 1);
    }
  }

  /** Every jump goes to a top-level label, so control does not run off what follows. */
  lemma TopLabelsAreClosed(p: seq<Stmt>)
    requires TopLabels(p)
    ensures JumpsAreClosed(p)
  {
    forall l | After(p, l).Some? ensures Closed(After(p, l).value) {
      if l in AllLabels(p) {
        var i := LabelIndex(p, l);
        JumpToTop(p, i);
        if i + 1 < |p| {
          assert p[i + 1..][|p| - i - 2] == p[|p| - 1];
        }
      } else {
        NoLabelNoFind(p, l, []);
      }
    }
  }

  lemma {:induction false} LabelIndex(p: seq<Stmt>, l: Name) returns (i: nat)
    requires l in AllLabels(p) && forall j :: 0 <= j < |p| ==> BodyLabels(p[j]) == {}
    ensures i < |p| && p[i] == Label(l)
    decreases |p|
  {
    if p[0] == Label(l) {
      return 0;
    }
    assert BodyLabels(p[0]) == {};
    forall j | 0 <= j < |p[1..]| ensures BodyLabels(p[1..][j]) == {} {
      assert p[1..][j] == p[j + 1];
    }
    i := LabelIndex(p[1..], l);
    i := i + 1;
  }

  // ---- What is emitted stands for the source ---------------------------------------------------

  /** The emission starts with the labels that `ks` starts with; behind them it mirrors the rest. */
  ghost predicate MirrorsFromLabels(p: seq<Stmt>, ks: seq<Stmt>, ka: seq<AStmt>)
    decreases ks
  {
    if ks != [] && ks[0].Label? then
      && ka != [] && ka[0].ALabel? && ka[0].name == ks[0].name && After(p, ks[0].name) == Some(ks[1..])
      && MirrorsFromLabels(p, ks[1..], ka[1..])
    else Mirrors(p, ks, ka)
  }

  lemma {:induction false} LabelsThenMirrors(p: seq<Stmt>, ks: seq<Stmt>, ka: seq<AStmt>)
    requires MirrorsFromLabels(p, ks, ka)
    ensures Mirrors(p, ks, ka)
    decreases |ks|
  {
    if ks != [] && ks[0].Label? {
      LabelsThenMirrors(p, ks[1..], ka[1..]);
    }
  }

  /** A dropped goto in front of the emission of its target's block is all right. */
  lemma {:induction false} RunIsEntered(p: seq<Stmt>, s: nat, l: Name, ka: seq<AStmt>)
    requires s <= |p| && InRun(p, s, l) && MirrorsFromLabels(p, p[s..], ka)
    ensures Entered(p, l, ka)
    decreases |p| - s
  {
    var i :| s <= i < |p| && p[i] == Label(l) && forall j :: s <= j < i ==> p[j].Label?;
    assert p[s].Label? && p[s..][0] == p[s] && p[s..][1..] == p[s + 1..];
    LabelsThenMirrors(p, p[s + 1..], ka[1..]);
    if p[s].name != l {
      assert s + 1 <= i;
      RunIsEntered(p, s + 1, l, ka[1..]);
    }
  }

  /** Jumps to the labels of `ks` go to what follows them there. */
  ghost predicate JumpsInto(p: seq<Stmt>, ks: seq<Stmt>) {
    forall i :: 0 <= i < |ks| && ks[i].Label? ==> After(p, ks[i].name) == Some(ks[i + 1..])
  }

  lemma SuffixJumpsInto(p: seq<Stmt>, s: nat)
    requires TopLabels(p) && s <= |p|
    ensures JumpsInto(p, p[s..])
  {
    var ks := p[s..];
    forall i | 0 <= i < |ks| && ks[i].Label? ensures After(p, ks[i].name) == Some(ks[i + 1..]) {
      assert ks[i] == p[s + i] && ks[i + 1..] == p[s + i + 1..];
      JumpToTop(p, s + i);
    }
  }

  lemma JumpsIntoTail(p: seq<Stmt>, ks: seq<Stmt>)
    requires JumpsInto(p, ks) && ks != []
    ensures JumpsInto(p, ks[1..])
  {
    forall i | 0 <= i < |ks[1..]| && ks[1..][i].Label? ensures After(p, ks[1..][i].name) == Some(ks[1..][i + 1..]) {
      assert ks[1..][i] == ks[i + 1] && ks[1..][i + 1..] == ks[i + 2..];
    }
  }

  lemma BodyIsCode(p: seq<Stmt>, blocks: Blocks, d: nat, b: Name, body: seq<Stmt>)
    requires HeldBy(blocks, d, b, body)
    ensures JumpsInto(p, body) && HoldsFromLabels(blocks, d, blocks[b].nodes, body)
  {}

  lemma BodyMirrors(p: seq<Stmt>, body: seq<Stmt>, ka: seq<AStmt>)
    requires NoLabels(body) && MirrorsFromLabels(p, body, ka)
    ensures Mirrors(p, body, ka)
  {}

  /** No nested block that node `i` of `b` or a later one owns is built yet. */
  ghost predicate UnbuiltFrom(blocks: Blocks, b: Name, i: nat, built: set<Name>) {
    forall x :: x in blocks && x in built && blocks[x].home.Some? && blocks[x].home.value.owner == b ==>
      blocks[x].home.value.at < i
  }

  lemma OwnersStayBuilt(blocks: Blocks, built: set<Name>, built': set<Name>, starts: set<Name>)
    requires OwnersBuilt(blocks, built) && built <= built' && NewlyOwned(blocks, built, built', starts)
    requires forall x :: x in starts && x in built' && x in blocks && blocks[x].home.Some? ==>
      blocks[x].home.value.owner in built'
    ensures OwnersBuilt(blocks, built')
  {}

  lemma RepresentsWired(blocks: Blocks, p: seq<Stmt>, starts: map<Name, nat>, root: Name)
    requires Represents(blocks, p, starts, root)
    ensures WellBuilt(blocks) && Wired(blocks) && TopLabels(p)
  {}

  /** Where the exit of a block leads. */
  lemma ExitLands(blocks: Blocks, p: seq<Stmt>, starts: map<Name, nat>, root: Name, b: Name)
    requires Represents(blocks, p, starts, root) && b in blocks && blocks[b].exit.Some?
    ensures var e := blocks[b].exit.value;
      && e.to in starts && e.to in blocks && starts[e.to] <= |p| && InRun(p, starts[e.to], e.origName)
      && blocks[e.to].defined && blocks[e.to].aliasOf.None? && blocks[e.to].home.None?
      && HoldsFromLabels(blocks, blocks[e.to].defAt, blocks[e.to].nodes, p[starts[e.to]..])
  {}

  lemma LastNode(blocks: Blocks, p: seq<Stmt>, starts: map<Name, nat>, root: Name, b: Name)
    requires Represents(blocks, p, starts, root) && b in blocks && blocks[b].aliasOf.None?
    ensures ExitIsLast(blocks[b]) && ReturnIsLast(blocks[b])
  {}

  /** What is emitted for block `b`, its exit included, stands for the code the block holds. */
  lemma {:induction false} RebuildMirrors(blocks: Blocks, p: seq<Stmt>, starts: map<Name, nat>, root: Name, b: Name,
                                          removeLabel: Option<Name>, built: set<Name>, d: nat, ks: seq<Stmt>)
    requires Represents(blocks, p, starts, root) && Wired(blocks) && built <= blocks.Keys && OwnersBuilt(blocks, built)
    requires b in blocks && b !in built && blocks[b].defined && blocks[b].aliasOf.None?
    requires blocks[b].home.Some? ==> blocks[b].home.value.owner in built
    requires HoldsFromLabels(blocks, d, blocks[b].nodes, ks) && JumpsInto(p, ks)
    ensures var r := RebuildA(blocks, b, removeLabel, built);
      MirrorsFromLabels(p, ks, r.code) && Tight(r.code) && OwnersBuilt(blocks, r.built)
    decreases blocks.Keys - built, 0, 0
  {
    hide Represents, Wired, HoldsFromLabels, JumpsInto, MirrorsFromLabels;
    RepresentsWired(blocks, p, starts, root);
    var blk := blocks[b];
    var built1 := built + {b};
    var nodes := blk.nodes;
    assert nodes[0..] == nodes;
    RebuildOwns(blocks, b, removeLabel, built);
    OwnersStayBuilt(blocks, built, RebuildA(blocks, b, removeLabel, built).built, {b});
    assert OwnersBuilt(blocks, built1);
    NodesAFrom(blocks, b, 0, removeLabel, None, built1, []);
    if blk.exit.None? {
      LabelNodesMirror(blocks, p, starts, root, b, 0, removeLabel, None, built1, d, ks, []);
      var own := NodesA(blocks, nodes, blk, removeLabel, None, built1);
      assert own.code + [] == own.code;
    } else {
      ExitMirrors(blocks, p, starts, root, b, removeLabel, built, d, ks);
    }
  }

  lemma {:induction false} ExitMirrors(blocks: Blocks, p: seq<Stmt>, starts: map<Name, nat>, root: Name, b: Name,
                                       removeLabel: Option<Name>, built: set<Name>, d: nat, ks: seq<Stmt>)
    requires Represents(blocks, p, starts, root) && Wired(blocks) && built <= blocks.Keys
    requires b in blocks && b !in built && blocks[b].defined && blocks[b].aliasOf.None? && blocks[b].exit.Some?
    requires OwnersBuilt(blocks, built + {b}) && UnbuiltFrom(blocks, b, 0, built + {b})
    requires HoldsFromLabels(blocks, d, blocks[b].nodes, ks) && JumpsInto(p, ks)
    ensures var r := RebuildA(blocks, b, removeLabel, built);
      MirrorsFromLabels(p, ks, r.code) && Tight(r.code)
    decreases blocks.Keys - built - {b}, 3
  {
    hide Represents, Wired, HoldsFromLabels, JumpsInto, MirrorsFromLabels;
    RepresentsWired(blocks, p, starts, root);
    var blk := blocks[b];
    var built1 := built + {b};
    var exit := blk.exit.value;
    ExitLands(blocks, p, starts, root, b);
    var removeGoto := exit.to !in built1;
    var removeExitLabel := removeGoto && EnterCount(blocks[exit.to], exit.origName) == 1;
    var rl := if removeExitLabel then Some(exit.origName) else None;
    var rg := if removeGoto then Some(exit.origName) else None;
    var tail := RebuildA(blocks, exit.to, rl, built1);
    RebuildOwns(blocks, exit.to, rl, built1);
    OwnersStayBuilt(blocks, built1, tail.built, {exit.to});
    assert UnbuiltFrom(blocks, b, 0, tail.built);
    if removeGoto {
      var s := starts[exit.to];
      SuffixJumpsInto(p, s);
      RebuildMirrors(blocks, p, starts, root, exit.to, rl, built1, blocks[exit.to].defAt, p[s..]);
      RunIsEntered(p, s, exit.origName, tail.code);
    }
    assert blk.nodes[0..] == blk.nodes;
    LabelNodesMirror(blocks, p, starts, root, b, 0, removeLabel, rg, tail.built, d, ks, tail.code);
    NodesAFrom(blocks, b, 0, removeLabel, rg, tail.built, tail.code);
    assert RebuildA(blocks, b, removeLabel, built).code ==
      NodesA(blocks, blk.nodes, blk, removeLabel, rg, tail.built).code + tail.code;
  }

  /** What may follow the nodes of a block: the code of its exit if its goto is dropped, nothing otherwise. */
  ghost predicate MayFollow(p: seq<Stmt>, blk: Block, removeGoto: Option<Name>, tail: seq<AStmt>) {
    && Tight(tail)
    && (removeGoto.Some? ==>
           blk.exit.Some? && removeGoto.value == blk.exit.value.origName && Entered(p, removeGoto.value, tail))
    && (removeGoto.None? ==> tail == [])
  }

  lemma {:induction false} LabelNodesMirror(blocks: Blocks, p: seq<Stmt>, starts: map<Name, nat>, root: Name, b: Name,
      i: nat,
                                            removeLabel: Option<Name>, removeGoto: Option<Name>, built: set<Name>,
                                              d: nat,
                                            ks: seq<Stmt>, tail: seq<AStmt>)
    requires Represents(blocks, p, starts, root) && Wired(blocks) && built <= blocks.Keys && OwnersBuilt(blocks, built)
    requires b in built && blocks[b].aliasOf.None? && UnbuiltFrom(blocks, b, i, built)
    requires i <= |blocks[b].nodes| && forall j :: 0 <= j < i ==> !blocks[b].nodes[j].NGoto?
    requires HoldsFromLabels(blocks, d, blocks[b].nodes[i..], ks) && JumpsInto(p, ks)
    requires MayFollow(p, blocks[b], removeGoto, tail)
    ensures RefsExist(blocks, blocks[b].nodes[i..])
    ensures var code := NodesA(blocks, blocks[b].nodes[i..], blocks[b], removeLabel, removeGoto, built).code + tail;
      MirrorsFromLabels(p, ks, code) && Tight(code)
    decreases blocks.Keys - built, 2, |blocks[b].nodes| - i, 1
  {
    hide Represents, Wired, RefsExist, JumpsInto, MayFollow, NodesA;
    NodesAFrom(blocks, b, i, removeLabel, removeGoto, built, tail);
    if ks != [] && ks[0].Label? {
      assert blocks[b].nodes[i..][1..] == blocks[b].nodes[i + 1..] && blocks[b].nodes[i..][0] == blocks[b].nodes[i];
      FirstLabel(p, ks);
      LabelNodesMirror(blocks, p, starts, root, b, i + 1, removeLabel, removeGoto, built, d, ks[1..], tail);
    } else {
      NodesMirror(blocks, p, starts, root, b, i, removeLabel, removeGoto, built, d, ks, tail);
    }
  }

  lemma FirstLabel(p: seq<Stmt>, ks: seq<Stmt>)
    requires JumpsInto(p, ks) && ks != []
    ensures JumpsInto(p, ks[1..]) && (ks[0].Label? ==> After(p, ks[0].name) == Some(ks[1..]))
  {
    JumpsIntoTail(p, ks);
  }

  lemma {:induction false} NodesMirror(blocks: Blocks, p: seq<Stmt>, starts: map<Name, nat>, root: Name, b: Name,
      i: nat,
                                       removeLabel: Option<Name>, removeGoto: Option<Name>, built: set<Name>, d: nat,
                                       ks: seq<Stmt>, tail: seq<AStmt>)
    requires Represents(blocks, p, starts, root) && Wired(blocks) && built <= blocks.Keys && OwnersBuilt(blocks, built)
    requires b in built && blocks[b].aliasOf.None? && UnbuiltFrom(blocks, b, i, built)
    requires i <= |blocks[b].nodes| && forall j :: 0 <= j < i ==> !blocks[b].nodes[j].NGoto?
    requires Holds(blocks, d, blocks[b].nodes[i..], ks) && JumpsInto(p, ks)
    requires MayFollow(p, blocks[b], removeGoto, tail)
    ensures RefsExist(blocks, blocks[b].nodes[i..])
    ensures var code := NodesA(blocks, blocks[b].nodes[i..], blocks[b], removeLabel, removeGoto, built).code + tail;
      Mirrors(p, ks, code) && Tight(code)
    decreases blocks.Keys - built, 2, |blocks[b].nodes| - i, 0
  {
    hide Represents, Wired, RefsExist, JumpsInto, NodesA, NodeA, RebuildA, HeldBy, UnbuiltFrom, OwnersBuilt, Mirrors,
      Tight;
    NodesAFrom(blocks, b, i, removeLabel, removeGoto, built, tail);
    LastNode(blocks, p, starts, root, b);
    var blk := blocks[b];
    if ks == [] {
      NothingMirrors(p);
    } else {
      assert blk.nodes[i..][1..] == blk.nodes[i + 1..] && blk.nodes[i..][0] == blk.nodes[i];
      FirstLabel(p, ks);
      var first := NodeA(blocks, blk.nodes[i], blk, removeLabel, removeGoto, built);
      SimpleNode(blocks, blk.nodes[i], blk, removeLabel, removeGoto, built);
      if ks[0].Return? || ks[0].Goto? || ks[0].Label? {
        NodesAFrom(blocks, b, i + 1, removeLabel, removeGoto, first.built, tail);
        JumpMirrors(p, ks, blk, removeGoto, first.stmt, tail);
      } else {
        if !ks[0].Plain? {
          NodeMirrors(blocks, p, starts, root, b, i, removeLabel, removeGoto, built, d, ks);
        } else {
          LaterUnbuilt(blocks, b, i, built);
        }
        NodesMirror(blocks, p, starts, root, b, i + 1, removeLabel, removeGoto, first.built, d, ks[1..], tail);
        StructureMirrors(p, ks, first.stmt,
          NodesA(blocks, blk.nodes[i + 1..], blk, removeLabel, removeGoto, first.built).code + tail);
      }
    }
  }

  lemma NothingMirrors(p: seq<Stmt>)
    ensures Mirrors(p, [], []) && Tight([])
  {}

  /** The last node of a block and what follows the block. */
  lemma JumpMirrors(p: seq<Stmt>, ks: seq<Stmt>, blk: Block, removeGoto: Option<Name>, a: AStmt, tail: seq<AStmt>)
    requires MayFollow(p, blk, removeGoto, tail) && JumpsInto(p, ks) && ks != []
    requires match ks[0]
             case Return(e, implied) => a == AReturn(e, implied) && blk.exit.None?
             case Goto(l) => a == AGoto(l, removeGoto != Some(l)) && blk.exit.Some? && blk.exit.value.origName == l
             case Label(l) => a == AGoto(l, removeGoto != Some(l)) && blk.exit.Some? && blk.exit.value.origName == l
             case _ => false
    ensures Mirrors(p, ks, [a] + tail) && Tight([a] + tail)
  {
    var code := [a] + tail;
    assert code[0] == a && code[1..] == tail;
    FirstLabel(p, ks);
  }

  /** The annotated statement stands for a simple statement, an `if` or a loop. */
  ghost predicate StandsFor(p: seq<Stmt>, s: Stmt, a: AStmt) {
    match s
    case Plain(x) => a == APlain(x)
    case If(c, thn, els) =>
      && a.AIf? && a.cond == c && NoLabels(thn) && Mirrors(p, thn, a.thn) && Tight(a.thn) && els.Else? == a.els.AElse?
      && (els.Else? ==> NoLabels(els.stmts) && Mirrors(p, els.stmts, a.els.stmts) && Tight(a.els.stmts))
    case Loop(kind, c, body) => a.ALoop? && a.kind == kind && a.cond == c && NoLabels(body) && Mirrors(p, body, a.body)
      && Tight(a.body)
    case _ => false
  }

  /** A simple statement, an `if` or a loop, and what follows it. */
  lemma StructureMirrors(p: seq<Stmt>, ks: seq<Stmt>, a: AStmt, rest: seq<AStmt>)
    requires ks != [] && Mirrors(p, ks[1..], rest) && Tight(rest)
    requires StandsFor(p, ks[0], a)
    ensures Mirrors(p, ks, [a] + rest) && Tight([a] + rest)
  {
    var code := [a] + rest;
    assert code[0] == a && code[1..] == rest;
  }

  /** A node without a nested block. */
  lemma SimpleNode(blocks: Blocks, n: Node, blk: Block, removeLabel: Option<Name>, removeGoto: Option<Name>,
      built: set<Name>)
    requires Wired(blocks) && RefsExist(blocks, [n]) && built <= blocks.Keys
    ensures var first := NodeA(blocks, n, blk, removeLabel, removeGoto, built);
      && (n.NPlain? ==> first.stmt == APlain(n.s) && first.built == built)
      && (n.NReturn? ==> first.stmt == AReturn(n.result, n.implied))
      && (n.NGoto? ==> first.stmt == AGoto(n.target, removeGoto != Some(n.target)))
  {}

  lemma LaterUnbuilt(blocks: Blocks, b: Name, i: nat, built: set<Name>)
    requires UnbuiltFrom(blocks, b, i, built)
    ensures UnbuiltFrom(blocks, b, i + 1, built)
  {}

  /** An `if` or a loop: the nested blocks are built now and stand for the bodies. */
  lemma {:induction false} NodeMirrors(blocks: Blocks, p: seq<Stmt>, starts: map<Name, nat>, root: Name, b: Name,
      i: nat,
                                       removeLabel: Option<Name>, removeGoto: Option<Name>, built: set<Name>, d: nat,
                                         ks: seq<Stmt>)
    requires Represents(blocks, p, starts, root) && Wired(blocks) && built <= blocks.Keys && OwnersBuilt(blocks, built)
    requires b in built && blocks[b].aliasOf.None? && UnbuiltFrom(blocks, b, i, built)
    requires i < |blocks[b].nodes|
    requires ks != [] && (ks[0].If? || ks[0].Loop?) && Holds(blocks, d, blocks[b].nodes[i..], ks)
    ensures RefsExist(blocks, [blocks[b].nodes[i]])
    ensures var first := NodeA(blocks, blocks[b].nodes[i], blocks[b], removeLabel, removeGoto, built);
      StandsFor(p, ks[0], first.stmt) && OwnersBuilt(blocks, first.built) && UnbuiltFrom(blocks, b, i + 1, first.built)
    decreases blocks.Keys - built, 1
  {
    hide Represents, Wired, NodesA, Holds, HoldsFromLabels, MirrorsFromLabels, Mirrors, JumpsInto, RebuildA;
    RepresentsWired(blocks, p, starts, root);
    OwnNode(blocks, b, i);
    HeldBodies(blocks, d, b, i, ks);
    var n := blocks[b].nodes[i];
    NodeOwnsNew(blocks, n, b, i, removeLabel, removeGoto, built);
    OwnersStayBuilt(blocks, built, NodeA(blocks, n, blocks[b], removeLabel, removeGoto, built).built,
      RefsOf(blocks, n));
    var body := if ks[0].If? then ks[0].thn else ks[0].body;
    RebuildOwns(blocks, n.sub, None, built);
    BodyBuilt(blocks, p, starts, root, n.sub, built, d, body);
    if ks[0].If? && ks[0].els.Else? {
      var thn := RebuildA(blocks, n.sub, None, built);
      BodyBuilt(blocks, p, starts, root, blocks[n.sub].elseBlock.value, thn.built, d, ks[0].els.stmts);
    }
  }

  lemma HeldBodies(blocks: Blocks, d: nat, b: Name, i: nat, ks: seq<Stmt>)
    requires b in blocks && i < |blocks[b].nodes| && ks != [] && (ks[0].If? || ks[0].Loop?)
      && Holds(blocks, d, blocks[b].nodes[i..], ks)
    ensures var n := blocks[b].nodes[i];
      && (ks[0].If? ==>
        && n.NIf? && n.cond == ks[0].cond && HeldBy(blocks, d, n.sub, ks[0].thn)
        && ks[0].els.Else? == blocks[n.sub].elseBlock.Some?
        && (ks[0].els.Else? ==> HeldBy(blocks, d, blocks[n.sub].elseBlock.value, ks[0].els.stmts)))
      && (ks[0].Loop? ==>
             n.NLoop? && n.kind == ks[0].kind && n.cond == ks[0].cond && HeldBy(blocks, d, n.sub, ks[0].body))
  {
    assert blocks[b].nodes[i..][0] == blocks[b].nodes[i];
  }

  /** A nested block whose owner is being processed. */
  lemma {:induction false} BodyBuilt(blocks: Blocks, p: seq<Stmt>, starts: map<Name, nat>, root: Name, sub: Name,
                                     built: set<Name>, d: nat, body: seq<Stmt>)
    requires Represents(blocks, p, starts, root) && Wired(blocks) && built <= blocks.Keys && OwnersBuilt(blocks, built)
    requires HeldBy(blocks, d, sub, body) && sub !in built && blocks[sub].defined && blocks[sub].aliasOf.None?
    requires blocks[sub].home.Some? && blocks[sub].home.value.owner in built
    ensures var r := RebuildA(blocks, sub, None, built);
      NoLabels(body) && Mirrors(p, body, r.code) && Tight(r.code) && OwnersBuilt(blocks, r.built)
    decreases blocks.Keys - built, 0, 1
  {
    BodyIsCode(p, blocks, d, sub, body);
    RebuildMirrors(blocks, p, starts, root, sub, None, built, d, body);
    BodyMirrors(p, body, RebuildA(blocks, sub, None, built).code);
  }
}
