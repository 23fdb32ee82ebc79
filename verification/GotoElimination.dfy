/** Goto elimination as a whole: visit the program, rebuild it from its root block, trim the implied end. */
module GotoElimination {
  import opened Wrappers
  import opened PhpCode
  import opened Annotated
  import opened CodeBlocks
  import opened Rebuild
  import opened BlockCode
  import opened Accounting
  import opened BlockInvariant
  import opened BodyVisits
  import opened TopVisits
  import opened FinishedBlocks

  /** A program the parser may give: the implied returns come from the visitor only. */
  ghost predicate IsSource(src: seq<Stmt>) {
    InFragment(src) && forall s :: s in src ==> !IsImplied(s)
  }

  predicate IsImplied(s: Stmt) {
    s.Return? && s.implied
  }

  /** `rebuildAndTrim` behind the rebuild. */
  function Trim(ss: seq<Stmt>): seq<Stmt>
    decreases |ss|
  {
    if ss != [] && IsImplied(ss[|ss| - 1]) then Trim(ss[..|ss| - 1]) else ss
  }

  /** The program with the implied return at its end. */
  function Whole(src: seq<Stmt>): seq<Stmt> {
    src + [IMPLIED_RETURN]
  }

  lemma WholeInFragment(src: seq<Stmt>)
    requires InFragment(src)
    ensures InFragment(Whole(src)) && Closed(Whole(src))
  {
    hide LabelNames;
    var p := Whole(src);
    assert TopNames(p) == TopNames(src) by {
      forall l | l in TopNames(src) ensures l in TopNames(p) {
        assert Label(l) in src && Label(l) in p;
      }
      forall l | l in TopNames(p) ensures l in TopNames(src) {
        assert Label(l) in p && Label(l) in src;
      }
    }
  }

  /**
   Every run of the visitor over a program of the fragment ends without an internal exception, in blocks that
   represent it.
   */
  lemma BuildRepresents(src: seq<Stmt>) returns (starts: Starts)
    requires InFragment(src)
    ensures var st := Build(src);
      && !st.failed && BlocksOk(st.blocks, st.clock) && WellBuilt(st.blocks)
      && MAIN in st.blocks && Root(st, MAIN) in st.blocks && st.blocks[Root(st, MAIN)].aliasOf.None?
      && Represents(st.blocks, Whole(src), starts, Root(st, MAIN))
  {
    hide InFragment, TopInv, Represents, BlocksOk, VisitAll, Root;
    var p := Whole(src);
    WholeInFragment(src);
    InitialTop(p);
    assert p[0..|p|] == p;
    var all := VisitsKeepTop(InitialState(), p, 0, |p|, map[MAIN := 0]);
    var st := Build(src);
    FinishedOk(st, p, all);
    FinishedRepresents(st, p, all);
    FinishedWellBuilt(st, p);
    starts := LiveStarts(st, all);
  }

  /** What the visitor rebuilds from the root block. */
  function Rebuilt(src: seq<Stmt>): seq<AStmt>
    requires InFragment(src)
  {
    var st := Build(src);
    assert WellBuilt(st.blocks) && Root(st, MAIN) in st.blocks && st.blocks[Root(st, MAIN)].aliasOf.None? by {
      var _ := BuildRepresents(src);
    }
    WholeCode(st.blocks, Root(st, MAIN))
  }

  /** The program the visitor returns. */
  function Eliminated(src: seq<Stmt>): seq<Stmt>
    requires InFragment(src)
  {
    Trim(Erase(Rebuilt(src)))
  }

  // ---- Trimming -----------------------------------------------------------------------------------

  /** Implied returns return nothing. */
  ghost predicate ImpliedAreEmpty(ss: seq<Stmt>) {
    forall s :: s in ss && IsImplied(s) ==> s == IMPLIED_RETURN
  }

  ghost predicate AllJumpsImpliedEmpty(p: seq<Stmt>) {
    forall l :: After(p, l).Some? ==> ImpliedAreEmpty(After(p, l).value)
  }

  lemma {:induction false} MirroredReturns(p: seq<Stmt>, ks: seq<Stmt>, ka: seq<AStmt>)
    requires AllJumpsImpliedEmpty(p) && ImpliedAreEmpty(ks) && Mirrors(p, ks, ka) && Tight(ka)
    ensures ImpliedAreEmpty(Erase(ka))
    decreases |ka|
  {
    if ka != [] {
      assert Erase(ka) == EraseStmt(ka[0]) + Erase(ka[1..]);
      assert ks[0] in ks;
      match ka[0]
      case AReturn(_, _) => assert ka[1..] == [];
      case AGoto(l, kept) =>
        if kept {
          assert ka[1..] == [];
        } else {
          EnteredReturns(p, l, ka[1..]);
        }
      case _ => MirroredReturns(p, ks[1..], ka[1..]);
    }
  }

  lemma {:induction false} EnteredReturns(p: seq<Stmt>, l: string, ka: seq<AStmt>)
    requires AllJumpsImpliedEmpty(p) && Entered(p, l, ka) && Tight(ka)
    ensures ImpliedAreEmpty(Erase(ka))
    decreases |ka|
  {
    assert Erase(ka) == EraseStmt(ka[0]) + Erase(ka[1..]);
    MirroredReturns(p, After(p, ka[0].name).value, ka[1..]);
  }

  lemma JumpsImpliedEmpty(p: seq<Stmt>)
    requires TopLabels(p) && ImpliedAreEmpty(p)
    ensures AllJumpsImpliedEmpty(p)
  {
    forall l | After(p, l).Some? ensures ImpliedAreEmpty(After(p, l).value) {
      if l in AllLabels(p) {
        var i := LabelIndex(p, l);
        JumpToTop(p, i);
        assert forall s :: s in p[i + 1..] ==> s in p;
      } else {
        NoLabelNoFind(p, l, []);
      }
    }
  }

  lemma {:induction false} TrimIsSilent(ss: seq<Stmt>, o: Oracle)
    requires ImpliedAreEmpty(ss)
    ensures SameTraces(ss, Trim(ss), o)
    decreases |ss|
  {
    hide SameTraces;
    if ss != [] && IsImplied(ss[|ss| - 1]) {
      var shorter := ss[..|ss| - 1];
      assert ss[|ss| - 1] in ss;
      assert ss == shorter + [IMPLIED_RETURN];
      TrimIsSilent(shorter, o);
      ImpliedReturnIsSilent(shorter, o);
      SameTracesSymmetric(shorter, ss, o);
      SameTracesTrans(ss, shorter, Trim(shorter), o);
    } else {
      SameTracesReflexive(ss, o);
    }
  }

  // ---- The result ---------------------------------------------------------------------------------

  /** Goto elimination keeps what a program does, whatever its simple statements and conditions mean. */
  lemma EliminationKeepsMeaning(src: seq<Stmt>, o: Oracle)
    requires IsSource(src)
    ensures SameTraces(src, Eliminated(src), o)
  {
    hide SameTraces, InFragment, Represents, Faithful, Build, TopLabels;
    var p, st := Whole(src), Build(src);
    var starts := BuildRepresents(src);
    var code := Rebuilt(src);
    RebuildIsFaithful(st.blocks, p, starts, Root(st, MAIN));
    FaithfulMeansSame(p, code, o);
    ImpliedReturnIsSilent(src, o);
    SameTracesTrans(src, p, Erase(code), o);
    RepresentsWired(st.blocks, p, starts, Root(st, MAIN));
    JumpsImpliedEmpty(p);
    FaithfulReturns(p, code);
    TrimIsSilent(Erase(code), o);
    SameTracesTrans(src, Erase(code), Trim(Erase(code)), o);
  }

  lemma FaithfulReturns(p: seq<Stmt>, code: seq<AStmt>)
    requires Faithful(p, code) && AllJumpsImpliedEmpty(p) && ImpliedAreEmpty(p)
    ensures ImpliedAreEmpty(Erase(code))
  {
    MirroredReturns(p, p, code);
  }
}
