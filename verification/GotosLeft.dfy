/**
 How many gotos are left: every block that can be reached, other than the root and nested blocks, is joined to
 exactly one of the blocks that lead to it, which saves one goto. And no implied return is left at the end.
 */
module GotosLeft {
  import opened Wrappers
  import opened PhpCode
  import opened Annotated
  import opened CodeBlocks
  import opened Rebuild
  import opened BlockCode
  import opened Accounting
  import opened TopVisits
  import opened GotoElimination
  import opened Conservation
  import opened LabelsLeft

  /** The gotos of code at any depth. */
  function Gotos(ss: seq<Stmt>): nat
    decreases ss
  {
    if ss == [] then 0 else GotosIn(ss[0]) + Gotos(ss[1..])
  }

  function GotosIn(s: Stmt): nat
    decreases s
  {
    match s
    case Goto(_) => 1
    case If(_, thn, els) => Gotos(thn) + if els.Else? then Gotos(els.stmts) else 0
    case Loop(_, _, body) => Gotos(body)
    case _ => 0
  }

  /** The gotos that are kept in annotated code. */
  function KeptCount(ka: seq<AStmt>): nat
    decreases ka
  {
    if ka == [] then 0 else KeptCountIn(ka[0]) + KeptCount(ka[1..])
  }

  function KeptCountIn(a: AStmt): nat
    decreases a
  {
    match a
    case AGoto(_, kept) => if kept then 1 else 0
    case AIf(_, thn, els) => KeptCount(thn) + if els.AElse? then KeptCount(els.stmts) else 0
    case ALoop(_, _, body) => KeptCount(body)
    case _ => 0
  }

  lemma {:induction false} GotosConcat(a: seq<Stmt>, b: seq<Stmt>)
    ensures Gotos(a + b) == Gotos(a) + Gotos(b)
    decreases |a|
  {
    if a == [] {
      assert a + b == b;
    } else {
      assert (a + b)[0] == a[0] && (a + b)[1..] == a[1..] + b;
      GotosConcat(a[1..], b);
    }
  }

  lemma {:induction false} KeptCountConcat(a: seq<AStmt>, b: seq<AStmt>)
    ensures KeptCount(a + b) == KeptCount(a) + KeptCount(b)
    decreases |a|
  {
    if a == [] {
      assert a + b == b;
    } else {
      assert (a + b)[0] == a[0] && (a + b)[1..] == a[1..] + b;
      KeptCountConcat(a[1..], b);
    }
  }

  lemma {:induction false} ErasedGotos(ka: seq<AStmt>)
    ensures Gotos(Erase(ka)) == KeptCount(ka)
    decreases ka
  {
    if ka != [] {
      ErasedGotosIn(ka[0]);
      ErasedGotos(ka[1..]);
      GotosConcat(EraseStmt(ka[0]), Erase(ka[1..]));
    }
  }

  lemma {:induction false} ErasedGotosIn(a: AStmt)
    ensures Gotos(EraseStmt(a)) == KeptCountIn(a)
    decreases a
  {
    match a
    case AIf(_, thn, els) =>
      ErasedGotos(thn);
      if els.AElse? {
        ErasedGotos(els.stmts);
      }
      assert EraseStmt(a)[1..] == [];
    case ALoop(_, _, body) =>
      ErasedGotos(body);
      assert EraseStmt(a)[1..] == [];
    case _ =>
  }

  // ---- Blocks that jump, and blocks that are jumped to ----------------------------------------------------

  /** The blocks of `ns` that end in a goto. */
  function Jumping(blocks: Blocks, ns: set<Name>): set<Name> {
    set n | n in ns && n in blocks && blocks[n].exit.Some?
  }

  /** The blocks of `ns` that are not nested. */
  function Top(blocks: Blocks, ns: set<Name>): set<Name> {
    set n | n in ns && n in blocks && blocks[n].home.None?
  }

  /** Of the newly built blocks, those not nested were each joined to one, and the others that jump left a goto. */
  ghost predicate Counts(blocks: Blocks, built: set<Name>, built': set<Name>, joined: set<Name>, gotos: nat) {
    && built <= built'
    && gotos + |joined| == |Jumping(blocks, built' - built)|
    && |joined| == |Top(blocks, built' - built)|
    && joined <= built' - built
  }

  lemma JumpingUnion(blocks: Blocks, a: set<Name>, b: set<Name>)
    requires a !! b
    ensures |Jumping(blocks, a + b)| == |Jumping(blocks, a)| + |Jumping(blocks, b)|
    ensures |Top(blocks, a + b)| == |Top(blocks, a)| + |Top(blocks, b)|
  {
    assert Jumping(blocks, a + b) == Jumping(blocks, a) + Jumping(blocks, b);
    assert Top(blocks, a + b) == Top(blocks, a) + Top(blocks, b);
  }

  lemma CountsAdd(blocks: Blocks, b0: set<Name>, b1: set<Name>, b2: set<Name>, j1: set<Name>, j2: set<Name>,
      g1: nat, g2: nat)
    requires Counts(blocks, b0, b1, j1, g1) && Counts(blocks, b1, b2, j2, g2)
    ensures Counts(blocks, b0, b2, j1 + j2, g1 + g2)
  {
    assert b2 - b0 == (b1 - b0) + (b2 - b1);
    JumpingUnion(blocks, b1 - b0, b2 - b1);
    assert j1 !! j2;
  }

  lemma NothingCounts(blocks: Blocks, built: set<Name>)
    ensures Counts(blocks, built, built, {}, 0)
  {
    assert built - built == {};
    assert Jumping(blocks, {}) == {} && Top(blocks, {}) == {};
  }

  /** What a rebuild of `b` counts: nobody of the stretch is joined to `b` itself. */
  ghost predicate StartCounts(blocks: Blocks, b: Name, built: set<Name>, r: Emission)
    requires b in blocks
  {
    if b in built || !blocks[b].defined then r == Emission([], built, {})
    else
      && built + {b} <= r.built && r.joined <= r.built - built
      && KeptCount(r.code) + |r.joined| == |Jumping(blocks, r.built - built)|
      && |r.joined| == |Top(blocks, r.built - (built + {b}))|
  }

  /** A nested block counts like its nodes. */
  lemma NestedCounts(blocks: Blocks, b: Name, built: set<Name>, r: Emission)
    requires b in blocks && StartCounts(blocks, b, built, r) && blocks[b].home.Some?
    ensures Counts(blocks, built, r.built, r.joined, KeptCount(r.code))
  {
    NothingCounts(blocks, built);
    if b !in built && blocks[b].defined {
      assert Top(blocks, r.built - built) == Top(blocks, r.built - (built + {b}));
    }
  }

  /** The own nodes of `b` count what they build, and its goto if it is kept. */
  ghost predicate NodesCount(blocks: Blocks, built: set<Name>, r: Emission, own: nat) {
    KeptCount(r.code) >= own && Counts(blocks, built, r.built, r.joined, KeptCount(r.code) - own)
  }

  /** The gotos among nodes that are kept. */
  function OwnGotos(ns: seq<Node>, removeGoto: Option<Name>): nat {
    if ns == [] then 0
    else (if ns[0].NGoto? && removeGoto != Some(ns[0].target) then 1 else 0) + OwnGotos(ns[1..], removeGoto)
  }

  /** A block with an exit has one goto, at its end; one without has none. */
  lemma {:induction false} OneGoto(b: Block, i: nat, removeGoto: Option<Name>)
    requires ExitIsLast(b) && i <= |b.nodes| && (b.exit.Some? ==> i < |b.nodes|)
    ensures OwnGotos(b.nodes[i..], removeGoto) ==
      if b.exit.Some? && removeGoto != Some(b.exit.value.origName) then 1 else 0
    decreases |b.nodes| - i
  {
    if i < |b.nodes| {
      assert b.nodes[i..][1..] == b.nodes[i + 1..] && b.nodes[i..][0] == b.nodes[i];
      if i + 1 < |b.nodes| {
        OneGoto(b, i + 1, removeGoto);
      } else {
        assert b.nodes[i + 1..] == [];
      }
    }
  }

  lemma {:induction false} RebuildCounts(blocks: Blocks, b: Name, removeLabel: Option<Name>, built: set<Name>)
    requires WellBuilt(blocks) && Wired(blocks) && b in blocks && blocks[b].aliasOf.None? && built <= blocks.Keys
    ensures StartCounts(blocks, b, built, RebuildA(blocks, b, removeLabel, built))
    decreases blocks.Keys - built, 0
  {
    hide Wired, NodesA, WellBuilt, StartCounts, NodesCount, OwnGotos, RefsExist;
    var blk := blocks[b];
    if b in built || !blk.defined {
      NothingStarts(blocks, b, built);
    } else {
      var built1 := built + {b};
      assert blk.nodes[0..] == blk.nodes;
      ExitsAreLast(blocks, b);
      if blk.exit.None? {
        NodesAFrom(blocks, b, 0, removeLabel, None, built1, []);
        NodesAreCounted(blocks, b, 0, removeLabel, None, built1);
        OneGoto(blk, 0, None);
        var own := NodesA(blocks, blk.nodes, blk, removeLabel, None, built1);
        BlockAlone(blocks, b, built, own);
      } else {
        ExitExists(blocks, b);
        ExitIsTop(blocks, b);
        var exit := blk.exit.value;
        var removeGoto := exit.to !in built1;
        var removeExitLabel := removeGoto && EnterCount(blocks[exit.to], exit.origName) == 1;
        var rl := if removeExitLabel then Some(exit.origName) else None;
        var rg := if removeGoto then Some(exit.origName) else None;
        RebuildCounts(blocks, exit.to, rl, built1);
        var tail := RebuildA(blocks, exit.to, rl, built1);
        NodesAFrom(blocks, b, 0, removeLabel, rg, tail.built, []);
        NodesAreCounted(blocks, b, 0, removeLabel, rg, tail.built);
        OneGoto(blk, 0, rg);
        var own := NodesA(blocks, blk.nodes, blk, removeLabel, rg, tail.built);
        if removeGoto {
          BlockJoined(blocks, b, built, tail, own);
        } else {
          SeenExit(blocks, exit.to, built1, tail);
          BlockAlone(blocks, b, built, own);
          assert own.code + tail.code == own.code && own.joined + tail.joined + {} == own.joined;
        }
      }
    }
  }

  lemma NothingStarts(blocks: Blocks, b: Name, built: set<Name>)
    requires b in blocks && (b in built || !blocks[b].defined)
    ensures StartCounts(blocks, b, built, Emission([], built, {}))
  {}

  lemma ExitIsTop(blocks: Blocks, b: Name)
    requires WellBuilt(blocks) && b in blocks && blocks[b].aliasOf.None? && blocks[b].exit.Some?
    ensures var to := blocks[b].exit.value.to; to in blocks && blocks[to].home.None? && blocks[b].nodes != []
  {}

  lemma SeenExit(blocks: Blocks, to: Name, built: set<Name>, tail: Emission)
    requires to in blocks && StartCounts(blocks, to, built, tail) && to in built
    ensures tail == Emission([], built, {})
  {}

  /** A block that is joined to no other keeps its goto, if it has one. */
  lemma BlockAlone(blocks: Blocks, b: Name, built: set<Name>, own: Emission)
    requires b in blocks && b !in built && blocks[b].defined
    requires NodesCount(blocks, built + {b}, own, if blocks[b].exit.Some? then 1 else 0)
    ensures StartCounts(blocks, b, built, own)
  {
    hide KeptCount, Jumping, Top;
    assert own.built - built == {b} + (own.built - (built + {b}));
    JumpingUnion(blocks, {b}, own.built - (built + {b}));
    OneBlock(blocks, b);
  }

  /** The exit is built on the way, and its block joined to `b`. */
  lemma BlockJoined(blocks: Blocks, b: Name, built: set<Name>, tail: Emission, own: Emission)
    requires b in blocks && b !in built && blocks[b].defined && blocks[b].exit.Some?
    requires var to := blocks[b].exit.value.to;
      && to in blocks && blocks[to].home.None? && blocks[to].defined && StartCounts(blocks, to, built + {b}, tail)
      && to !in built + {b}
    requires NodesCount(blocks, tail.built, own, 0)
    ensures StartCounts(blocks, b, built,
      Emission(own.code + tail.code, own.built, own.joined + tail.joined + {b}))
  {
    hide KeptCount, Jumping, Top;
    var to := blocks[b].exit.value.to;
    KeptCountConcat(own.code, tail.code);
    JoinedParts(blocks, b, to, built, tail.built, own.built);
    JoinedApart(b, built, tail, own);
  }

  lemma JoinedParts(blocks: Blocks, b: Name, to: Name, built: set<Name>, mid: set<Name>, all: set<Name>)
    requires b in blocks && to in blocks && b !in built && to !in built + {b} && built + {b} + {to} <= mid <= all
    requires blocks[to].home.None? && blocks[b].exit.Some?
    ensures |Jumping(blocks, all - built)| ==
      1 + |Jumping(blocks, mid - (built + {b}))| + |Jumping(blocks, all - mid)|
    ensures |Top(blocks, all - (built + {b}))| ==
      1 + |Top(blocks, mid - (built + {b} + {to}))| + |Top(blocks, all - mid)|
  {
    hide Jumping, Top;
    var tail, rest, after := mid - (built + {b}), all - mid, mid - (built + {b} + {to});
    assert all - built == {b} + (tail + rest) && all - (built + {b}) == tail + rest && tail == {to} + after;
    JumpingUnion(blocks, {b}, tail + rest);
    JumpingUnion(blocks, tail, rest);
    JumpingUnion(blocks, {to}, after);
    OneBlock(blocks, b);
    OneBlock(blocks, to);
  }

  lemma JoinedApart(b: Name, built: set<Name>, tail: Emission, own: Emission)
    requires b !in built && tail.joined <= tail.built - (built + {b}) && own.joined <= own.built - tail.built
    requires built + {b} <= tail.built
    ensures |own.joined + tail.joined + {b}| == |own.joined| + |tail.joined| + 1
  {
    assert own.joined !! tail.joined && b !in own.joined + tail.joined;
  }

  lemma OneBlock(blocks: Blocks, b: Name)
    requires b in blocks
    ensures |Jumping(blocks, {b})| == (if blocks[b].exit.Some? then 1 else 0)
    ensures |Top(blocks, {b})| == (if blocks[b].home.None? then 1 else 0)
  {
    assert Jumping(blocks, {b}) == if blocks[b].exit.Some? then {b} else {};
    assert Top(blocks, {b}) == if blocks[b].home.None? then {b} else {};
  }

  lemma {:induction false} NodesAreCounted(blocks: Blocks, b: Name, i: nat, removeLabel: Option<Name>,
      removeGoto: Option<Name>, built: set<Name>)
    requires WellBuilt(blocks) && Wired(blocks) && b in blocks && blocks[b].aliasOf.None? && built <= blocks.Keys
      && i <= |blocks[b].nodes|
    ensures RefsExist(blocks, blocks[b].nodes[i..])
    ensures NodesCount(blocks, built, NodesA(blocks, blocks[b].nodes[i..], blocks[b], removeLabel, removeGoto, built),
      OwnGotos(blocks[b].nodes[i..], removeGoto))
    decreases blocks.Keys - built, 2, |blocks[b].nodes| - i
  {
    hide Wired, NodeA, NodesA, RefsExist, WellBuilt, Counts, KeptCountIn, KeptCount, OwnGotos;
    NodesAFrom(blocks, b, i, removeLabel, removeGoto, built, []);
    NodesStep(blocks, b, i, removeLabel, removeGoto, built);
    var ns := blocks[b].nodes[i..];
    if i < |blocks[b].nodes| {
      assert ns[0] == blocks[b].nodes[i] && ns[1..] == blocks[b].nodes[i + 1..];
      var first := NodeA(blocks, ns[0], blocks[b], removeLabel, removeGoto, built);
      NodeCounts(blocks, b, i, removeLabel, removeGoto, built);
      NodesAreCounted(blocks, b, i + 1, removeLabel, removeGoto, first.built);
      var rest := NodesA(blocks, ns[1..], blocks[b], removeLabel, removeGoto, first.built);
      var own := if ns[0].NGoto? && removeGoto != Some(ns[0].target) then 1 else 0;
      CountsAdd(blocks, built, first.built, rest.built, first.joined, rest.joined, KeptCountIn(first.stmt) - own,
        KeptCount(rest.code) - OwnGotos(ns[1..], removeGoto));
    } else {
      NothingCounts(blocks, built);
    }
  }

  lemma NodesStep(blocks: Blocks, b: Name, i: nat, removeLabel: Option<Name>, removeGoto: Option<Name>,
      built: set<Name>)
    requires Wired(blocks) && b in blocks && built <= blocks.Keys && i <= |blocks[b].nodes|
      && RefsExist(blocks, blocks[b].nodes[i..])
    requires i < |blocks[b].nodes| ==>
      RefsExist(blocks, [blocks[b].nodes[i]]) && RefsExist(blocks, blocks[b].nodes[i + 1..])
    ensures var ns := blocks[b].nodes[i..];
      var r := NodesA(blocks, ns, blocks[b], removeLabel, removeGoto, built);
      && (i == |blocks[b].nodes| ==>
           KeptCount(r.code) == OwnGotos(ns, removeGoto) == 0 && r.built == built && r.joined == {})
      && (i < |blocks[b].nodes| ==>
           var n := blocks[b].nodes[i];
           var first := NodeA(blocks, n, blocks[b], removeLabel, removeGoto, built);
           var rest := NodesA(blocks, blocks[b].nodes[i + 1..], blocks[b], removeLabel, removeGoto, first.built);
           && KeptCount(r.code) == KeptCountIn(first.stmt) + KeptCount(rest.code)
           && r.built == rest.built && r.joined == first.joined + rest.joined
           && OwnGotos(ns, removeGoto) == (if n.NGoto? && removeGoto != Some(n.target) then 1 else 0)
             + OwnGotos(blocks[b].nodes[i + 1..], removeGoto))
  {
    hide Wired, NodeA, RefsExist, KeptCountIn;
    var ns := blocks[b].nodes[i..];
    if i < |blocks[b].nodes| {
      assert ns[0] == blocks[b].nodes[i] && ns[1..] == blocks[b].nodes[i + 1..];
      var first := NodeA(blocks, ns[0], blocks[b], removeLabel, removeGoto, built);
      var rest := NodesA(blocks, ns[1..], blocks[b], removeLabel, removeGoto, first.built);
      assert ([first.stmt] + rest.code)[1..] == rest.code;
    }
  }

  lemma NestedAreOwned(blocks: Blocks, b: Name, i: nat)
    requires WellBuilt(blocks) && b in blocks && blocks[b].aliasOf.None? && i < |blocks[b].nodes|
    ensures var n := blocks[b].nodes[i]; (n.NIf? || n.NLoop?) ==>
      && n.sub in blocks && blocks[n.sub].home.Some? && blocks[n.sub].aliasOf.None?
      && (blocks[n.sub].elseBlock.Some? ==> var eb := blocks[n.sub].elseBlock.value;
           eb in blocks && blocks[eb].home.Some? && blocks[eb].aliasOf.None?)
  {
    OwnNode(blocks, b, i);
  }

  lemma {:induction false} NodeCounts(blocks: Blocks, b: Name, i: nat, removeLabel: Option<Name>,
      removeGoto: Option<Name>, built: set<Name>)
    requires WellBuilt(blocks) && Wired(blocks) && b in blocks && blocks[b].aliasOf.None? && built <= blocks.Keys
      && i < |blocks[b].nodes| && RefsExist(blocks, [blocks[b].nodes[i]])
    ensures var n := blocks[b].nodes[i];
      var r := NodeA(blocks, n, blocks[b], removeLabel, removeGoto, built);
      var own := if n.NGoto? && removeGoto != Some(n.target) then 1 else 0;
      KeptCountIn(r.stmt) >= own && Counts(blocks, built, r.built, r.joined, KeptCountIn(r.stmt) - own)
    decreases blocks.Keys - built, 1
  {
    hide Wired, RebuildA, WellBuilt, Counts, StartCounts, KeptCount, KeptCountIn, NodeOwns, RefsExist;
    var n := blocks[b].nodes[i];
    if n.NIf? || n.NLoop? {
      NestedAreOwned(blocks, b, i);
      RebuildCounts(blocks, n.sub, None, built);
      var thn := RebuildA(blocks, n.sub, None, built);
      NestedCounts(blocks, n.sub, built, thn);
      if n.NIf? && blocks[n.sub].elseBlock.Some? {
        var eb := blocks[n.sub].elseBlock.value;
        RebuildCounts(blocks, eb, None, thn.built);
        var els := RebuildA(blocks, eb, None, thn.built);
        NestedCounts(blocks, eb, thn.built, els);
        CountsAdd(blocks, built, thn.built, els.built, thn.joined, els.joined, KeptCount(thn.code),
          KeptCount(els.code));
        CountsOfBodies(n, thn.code, AElse(els.code));
      } else {
        CountsOfBodies(n, thn.code, ANoElse);
      }
    } else {
      LeafCounts(blocks, n, blocks[b], removeLabel, removeGoto, built);
    }
  }

  lemma CountsOfBodies(n: Node, body: seq<AStmt>, els: AElse)
    ensures n.NLoop? ==> KeptCountIn(ALoop(n.kind, n.cond, body)) == KeptCount(body)
    ensures var more := if els.AElse? then KeptCount(els.stmts) else 0;
      n.NIf? ==> KeptCountIn(AIf(n.cond, body, els)) == KeptCount(body) + more
  {
    hide KeptCount;
  }

  lemma LeafCounts(blocks: Blocks, n: Node, b: Block, removeLabel: Option<Name>, removeGoto: Option<Name>,
      built: set<Name>)
    requires Wired(blocks) && RefsExist(blocks, [n]) && built <= blocks.Keys && !n.NIf? && !n.NLoop?
    ensures var r := NodeA(blocks, n, b, removeLabel, removeGoto, built);
      && Counts(blocks, built, r.built, r.joined, 0)
      && KeptCountIn(r.stmt) == if n.NGoto? && removeGoto != Some(n.target) then 1 else 0
  {
    hide Wired, Counts;
    NothingCounts(blocks, built);
  }

  // ---- What the visitor returns ---------------------------------------------------------------------------

  lemma {:induction false} ImpliedGotos(ss: seq<Stmt>)
    requires forall s :: s in ss ==> IsImplied(s)
    ensures Gotos(ss) == 0
    decreases |ss|
  {
    if ss != [] {
      assert ss[0] in ss && forall s :: s in ss[1..] ==> s in ss;
      ImpliedGotos(ss[1..]);
    }
  }

  /**
   The gotos that are left are one for each reached block that jumps, less one for each reached block that is neither
   the root nor nested.
   */
  lemma GotosLeftExactly(src: seq<Stmt>) returns (reached: set<Name>)
    requires InFragment(src)
    ensures var st := Build(src);
      && reached <= st.blocks.Keys && IsReachable(st.blocks, Root(st, MAIN), reached)
      && Gotos(Eliminated(src)) + |Top(st.blocks, reached - {Root(st, MAIN)})| == |Jumping(st.blocks, reached)|
  {
    hide InFragment, Represents, Build, WellBuilt, IsReachable, Rebuilt, Trim, RebuildA, KeptCount, Gotos, Items,
      ItemsOf, Top, Jumping;
    var st := Build(src);
    var starts := BuildRepresents(src);
    var root := Root(st, MAIN);
    RepresentsWired(st.blocks, Whole(src), starts, root);
    RebuiltIsWhole(src);
    RootIsDefined(st.blocks, Whole(src), starts, root);
    RebuildConservesReachable(st.blocks, root);
    var r := RebuildA(st.blocks, root, None, {});
    reached := r.built;
    RebuildCounts(st.blocks, root, None, {});
    assert r.built - {} == r.built && {} + {root} == {root};
    ErasedGotos(r.code);
    var trimmed := TrimmedIsImplied(Erase(r.code));
    GotosConcat(Trim(Erase(r.code)), trimmed);
    ImpliedGotos(trimmed);
  }

  lemma {:induction false} TrimLeavesNone(ss: seq<Stmt>)
    ensures Trim(ss) <= ss && (Trim(ss) != [] ==> !IsImplied(Trim(ss)[|Trim(ss)| - 1]))
    ensures forall i :: |Trim(ss)| <= i < |ss| ==> IsImplied(ss[i])
    decreases |ss|
  {
    if ss != [] && IsImplied(ss[|ss| - 1]) {
      TrimLeavesNone(ss[..|ss| - 1]);
    }
  }

  /** No implied return is left at the end. */
  lemma NoImpliedEnd(src: seq<Stmt>)
    requires InFragment(src)
    ensures var code := Eliminated(src); code != [] ==> !IsImplied(code[|code| - 1])
  {
    TrimLeavesNone(Erase(Rebuilt(src)));
  }
}
