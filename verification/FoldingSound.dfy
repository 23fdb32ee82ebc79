/** Why constant folding keeps what a program shows. */
module FoldingSound {
  import opened Wrappers
  import opened PhpCode
  import opened Runtime
  import opened Folding

  /** The variables whose values can be relied on. */
  type Knowledge = map<string, Value>

  function Relied(sc: Scope): Knowledge {
    map x | x in sc.vars && sc.vars[x] < |sc.cells| && !sc.cells[sc.vars[x]].isMutable :: sc.cells[sc.vars[x]].value
  }

  ghost predicate Agrees(k: Knowledge, st: Store) {
    forall x :: x in k ==> Read(st, x) == k[x]
  }

  ghost predicate Less(k: Knowledge, k': Knowledge) {
    forall x :: x in k ==> x in k' && k'[x] == k[x]
  }

  /** The value an expression has in every store that agrees, as far as the reducers can tell. */
  function Known(php: Php, k: Knowledge, e: Expr): Option<Value> {
    match e
    case Lit(v) => Some(v)
    case Var(x) => if x in k then Some(k[x]) else None
    case Bin(op, l, r) => Reduce(php, op, AsLookup(Known(php, k, l)), AsLookup(Known(php, k, r)))
  }

  function AsLookup(v: Option<Value>): Lookup {
    if v.Some? then Lookup.Known(v.value) else Unknown
  }

  /** Two expressions have the same value in every store that agrees. */
  ghost predicate SameValue(php: Php, k: Knowledge, e: Expr, f: Expr) {
    forall st: Store :: Agrees(k, st) ==> Eval(php, st, e) == Eval(php, st, f)
  }

  /** What is known after a statement. */
  function Post(php: Php, k: Knowledge, s: Simple): Knowledge {
    match s
    case Assign(x, e) => PostAssign(php, k, x, e)
    case AssignOp(op, x, e) => PostAssign(php, k, x, Bin(op, Var(x), e))
    case Echo(_) => k
  }

  function PostAssign(php: Php, k: Knowledge, x: string, e: Expr): Knowledge {
    if Known(php, k, e).Some? then k[x := Known(php, k, e).value] else k - {x}
  }

  function PostAll(php: Php, k: Knowledge, ss: seq<Stmt>): Knowledge
    decreases |ss|
  {
    if ss == [] then k
    else
      match ss[0]
      case Plain(s) => PostAll(php, Post(php, k, s), ss[1..])
      case Return(_, _) => PostAll(php, k, ss[1..])
      case Goto(_) => PostAll(php, k, ss[1..])
      case _ => PostAll(php, map[], ss[1..])
  }

  ghost predicate SimpleSame(php: Php, k: Knowledge, s: Simple, f: Simple) {
    forall st: Store :: Agrees(k, st) ==>
      && Exec(php, st, s) == Exec(php, st, f)
      && Shown(php, st, Did(s)) == Shown(php, st, Did(f))
  }

  /** `ff` is a folded form of `ss` when it starts with knowledge `k`. */
  ghost predicate FoldOk(php: Php, k: Knowledge, ss: seq<Stmt>, ff: seq<Stmt>)
    decreases ss
  {
    if ss == [] then ff == []
    else
      && ff != []
      && match ss[0]
         case Plain(s) => ff[0].Plain? && SimpleSame(php, k, s, ff[0].s)
           && FoldOk(php, Post(php, k, s), ss[1..], ff[1..])
         case Return(None, implied) => ff[0] == ss[0] && FoldOk(php, k, ss[1..], ff[1..])
         case Return(Some(e), _) =>
           ff[0].Return? && ff[0].result.Some? && SameValue(php, k, e, ff[0].result.value)
             && FoldOk(php, k, ss[1..], ff[1..])
         case Goto(_) => ff[0] == ss[0] && FoldOk(php, k, ss[1..], ff[1..])
         case Label(_) => ff[0] == ss[0] && FoldOk(php, map[], ss[1..], ff[1..])
         case If(c, thn, els) =>
           && ff[0].If? && ff[0].els.Else? == els.Else? && SameValue(php, k, c, ff[0].cond)
           && FoldOk(php, k, thn, ff[0].thn) && (els.Else? ==> FoldOk(php, k, els.stmts, ff[0].els.stmts))
           && FoldOk(php, map[], ss[1..], ff[1..])
         case Loop(kind, c, body) =>
           && ff[0].Loop? && ff[0].kind == kind && FoldOk(php, map[], body, ff[0].body)
           && SameValue(php, LoopTest(php, kind, k, body), c, ff[0].cond)
           && (kind == DoTest ==> SameValue(php, k, c, ff[0].cond))
           && FoldOk(php, map[], ss[1..], ff[1..])
  }

  /** What is known where the condition of a loop is tested: nothing in front of it, what the body leaves behind it. */
  function LoopTest(php: Php, kind: LoopKind, k: Knowledge, body: seq<Stmt>): Knowledge {
    if kind == While then map[] else PostAll(php, map[], body)
  }

  // ---- More knowledge does not hurt -----------------------------------------------------------------

  lemma {:induction false} KnownMore(php: Php, k: Knowledge, k': Knowledge, e: Expr)
    requires Less(k, k') && Known(php, k, e).Some?
    ensures Known(php, k', e) == Known(php, k, e)
    decreases e
  {
    if e.Bin? {
      KnownMore(php, k, k', e.left);
      if Known(php, k, e.right).Some? {
        KnownMore(php, k, k', e.right);
      }
    }
  }

  lemma PostMore(php: Php, k: Knowledge, k': Knowledge, s: Simple)
    requires Less(k, k')
    ensures Less(Post(php, k, s), Post(php, k', s))
  {
    if !s.Echo? {
      var e := if s.Assign? then s.e else Bin(s.op, Var(s.x), s.e);
      if Known(php, k, e).Some? {
        KnownMore(php, k, k', e);
      }
    }
  }

  lemma {:induction false} PostAllMore(php: Php, k: Knowledge, k': Knowledge, ss: seq<Stmt>)
    requires Less(k, k')
    ensures Less(PostAll(php, k, ss), PostAll(php, k', ss))
    decreases |ss|
  {
    if ss != [] {
      match ss[0]
      case Plain(s) =>
        PostMore(php, k, k', s);
        PostAllMore(php, Post(php, k, s), Post(php, k', s), ss[1..]);
      case Return(_, _) => PostAllMore(php, k, k', ss[1..]);
      case Goto(_) => PostAllMore(php, k, k', ss[1..]);
      case _ =>
        assert Less(map[], map[]);
        PostAllMore(php, map[], map[], ss[1..]);
    }
  }

  lemma SameMore(php: Php, k: Knowledge, k': Knowledge)
    requires Less(k, k')
    ensures forall st: Store :: Agrees(k', st) ==> Agrees(k, st)
  {}

  lemma {:induction false} FoldOkMore(php: Php, k: Knowledge, k': Knowledge, ss: seq<Stmt>, ff: seq<Stmt>)
    requires Less(k, k') && FoldOk(php, k, ss, ff)
    ensures FoldOk(php, k', ss, ff)
    decreases ss
  {
    if ss != [] {
      SameMore(php, k, k');
      match ss[0]
      case Plain(s) =>
        PostMore(php, k, k', s);
        FoldOkMore(php, Post(php, k, s), Post(php, k', s), ss[1..], ff[1..]);
      case Return(_, _) => FoldOkMore(php, k, k', ss[1..], ff[1..]);
      case Goto(_) => FoldOkMore(php, k, k', ss[1..], ff[1..]);
      case Label(_) =>
      case If(c, thn, els) =>
        FoldOkMore(php, k, k', thn, ff[0].thn);
        if els.Else? {
          FoldOkMore(php, k, k', els.stmts, ff[0].els.stmts);
        }
      case Loop(kind, c, body) =>
    }
  }

  /** One list behind another. */
  lemma {:induction false} FoldOkConcat(php: Php, k: Knowledge, ss: seq<Stmt>, ff: seq<Stmt>, tt: seq<Stmt>,
      gg: seq<Stmt>)
    requires FoldOk(php, k, ss, ff) && FoldOk(php, PostAll(php, k, ss), tt, gg)
    ensures FoldOk(php, k, ss + tt, ff + gg)
    decreases |ss|
  {
    hide SameValue, SimpleSame, Post, LoopTest;
    if ss == [] {
      assert ss + tt == tt && ff + gg == gg;
    } else {
      assert (ss + tt)[0] == ss[0] && (ss + tt)[1..] == ss[1..] + tt;
      assert (ff + gg)[0] == ff[0] && (ff + gg)[1..] == ff[1..] + gg;
      match ss[0]
      case Plain(s) => FoldOkConcat(php, Post(php, k, s), ss[1..], ff[1..], tt, gg);
      case Return(_, _) => FoldOkConcat(php, k, ss[1..], ff[1..], tt, gg);
      case Goto(_) => FoldOkConcat(php, k, ss[1..], ff[1..], tt, gg);
      case _ => FoldOkConcat(php, map[], ss[1..], ff[1..], tt, gg);
    }
  }

  /** What follows without relying on anything. */
  lemma FoldOkThen(php: Php, k: Knowledge, ss: seq<Stmt>, ff: seq<Stmt>, tt: seq<Stmt>, gg: seq<Stmt>)
    requires FoldOk(php, k, ss, ff) && FoldOk(php, map[], tt, gg)
    ensures FoldOk(php, k, ss + tt, ff + gg)
  {
    FoldOkMore(php, map[], PostAll(php, k, ss), tt, gg);
    FoldOkConcat(php, k, ss, ff, tt, gg);
  }

  // ---- Jumps ------------------------------------------------------------------------------------------

  /** A jump goes to the folded form of where it went to, and nothing is relied on there. */
  lemma {:induction false} FindFolded(php: Php, k: Knowledge, ss: seq<Stmt>, ff: seq<Stmt>, l: string, kk: seq<Stmt>,
      kf: seq<Stmt>)
    requires FoldOk(php, k, ss, ff) && FoldOk(php, map[], kk, kf)
    ensures Find(ss, l, kk).Some? <==> Find(ff, l, kf).Some?
    ensures Find(ss, l, kk).Some? ==> FoldOk(php, map[], Find(ss, l, kk).value, Find(ff, l, kf).value)
    decreases ss
  {
    hide SameValue, SimpleSame, LoopTest, PostAll;
    if ss != [] {
      match ss[0]
      case Plain(s) => FindFolded(php, Post(php, k, s), ss[1..], ff[1..], l, kk, kf);
      case Return(_, _) => FindFolded(php, k, ss[1..], ff[1..], l, kk, kf);
      case Goto(_) => FindFolded(php, k, ss[1..], ff[1..], l, kk, kf);
      case Label(_) =>
        FoldOkThen(php, map[], ss[1..], ff[1..], kk, kf);
        FindFolded(php, map[], ss[1..], ff[1..], l, kk, kf);
      case If(_, thn, els) =>
        FoldOkThen(php, map[], ss[1..], ff[1..], kk, kf);
        FindFolded(php, k, thn, ff[0].thn, l, ss[1..] + kk, ff[1..] + kf);
        if els.Else? {
          FindFolded(php, k, els.stmts, ff[0].els.stmts, l, ss[1..] + kk, ff[1..] + kf);
        }
        FindFolded(php, map[], ss[1..], ff[1..], l, kk, kf);
      case Loop(_, _, _) => FindFolded(php, map[], ss[1..], ff[1..], l, kk, kf);
    }
  }

  // ---- Running a program and its folded form side by side ----------------------------------------------

  ghost predicate SameEffects(php: Php, h: seq<Event>, g: seq<Event>) {
    Replay(php, h) == Replay(php, g) && Outputs(php, h) == Outputs(php, g)
  }

  /** What is left to do is folded with knowledge that agrees with the variables. */
  ghost predicate Matched(php: Php, c: Config, d: Config) {
    && SameEffects(php, c.history, d.history) && c.Running? == d.Running?
    && (c.Running? ==> exists k :: FoldOk(php, k, c.rest, d.rest) && Agrees(k, Replay(php, c.history)))
  }

  lemma MatchedBy(php: Php, k: Knowledge, ss: seq<Stmt>, ff: seq<Stmt>, h: seq<Event>, g: seq<Event>)
    requires SameEffects(php, h, g) && FoldOk(php, k, ss, ff) && Agrees(k, Replay(php, h))
    ensures Matched(php, Running(ss, h), Running(ff, g))
  {}

  lemma OneMoreEach(php: Php, h: seq<Event>, g: seq<Event>, e: Event, f: Event)
    requires SameEffects(php, h, g)
    requires e.Did? == f.Did? && (e.Did? ==> Exec(php, Replay(php, h), e.s) == Exec(php, Replay(php, h), f.s))
    requires Shown(php, Replay(php, h), e) == Shown(php, Replay(php, h), f)
    ensures SameEffects(php, h + [e], g + [f])
  {
    OneMore(php, h, e);
    OneMore(php, g, f);
  }

  lemma {:induction false} KnownIsRight(php: Php, k: Knowledge, e: Expr, st: Store)
    requires Known(php, k, e).Some? && Agrees(k, st)
    ensures Eval(php, st, e) == Known(php, k, e).value
    decreases e
  {
    if e.Bin? {
      KnownIsRight(php, k, e.left, st);
      if Known(php, k, e.right).Some? {
        KnownIsRight(php, k, e.right, st);
      }
    }
  }

  lemma PostAgrees(php: Php, k: Knowledge, s: Simple, st: Store)
    requires Agrees(k, st)
    ensures Agrees(Post(php, k, s), Exec(php, st, s))
  {
    if !s.Echo? {
      var e := if s.Assign? then s.e else Bin(s.op, Var(s.x), s.e);
      if Known(php, k, e).Some? {
        KnownIsRight(php, k, e, st);
      }
    }
  }

  lemma BranchMatched(php: Php, c: Config, d: Config, k: Knowledge)
    requires c.Running? && d.Running? && c.rest != [] && (c.rest[0].If? || c.rest[0].Loop?)
    requires SameEffects(php, c.history, d.history) && FoldOk(php, k, c.rest, d.rest)
      && Agrees(k, Replay(php, c.history))
    ensures d.rest != [] && (d.rest[0].If? == c.rest[0].If?) && (d.rest[0].Loop? == c.rest[0].Loop?)
    ensures c.rest[0].If? || c.rest[0].kind != DoWhile ==>
      && Branches(php)(c.history, c.rest[0].cond) == Branches(php)(d.history, d.rest[0].cond)
      && SameEffects(php, c.history + [Tested(c.rest[0].cond, Branches(php)(c.history, c.rest[0].cond))],
                     d.history + [Tested(d.rest[0].cond, Branches(php)(c.history, c.rest[0].cond))])
  {
    var s, f := c.rest[0], d.rest[0];
    if s.If? || s.kind != DoWhile {
      assert Agrees(map[], Replay(php, c.history));
      var taken := Branches(php)(c.history, s.cond);
      OneMoreEach(php, c.history, d.history, Tested(s.cond, taken), Tested(f.cond, taken));
    }
  }

  lemma StepMatched(php: Php, p: seq<Stmt>, q: seq<Stmt>, c: Config, d: Config)
    requires FoldOk(php, map[], p, q) && Matched(php, c, d)
    ensures Matched(php, Step(p, Branches(php), c), Step(q, Branches(php), d))
  {
    if c.Running? {
      var k :| FoldOk(php, k, c.rest, d.rest) && Agrees(k, Replay(php, c.history));
      var h, g := c.history, d.history;
      if c.rest == [] {
        OneMoreEach(php, h, g, Ended(None), Ended(None));
      } else if c.rest[0].If? || c.rest[0].Loop? {
        StructureMatched(php, p, q, c, d, k);
      } else {
        hide FoldOk;
        SimpleStepMatched(php, p, q, c, d, k);
      }
    }
  }

  lemma SimpleStepMatched(php: Php, p: seq<Stmt>, q: seq<Stmt>, c: Config, d: Config, k: Knowledge)
    requires c.Running? && d.Running? && c.rest != [] && !c.rest[0].If? && !c.rest[0].Loop?
    requires FoldOk(php, map[], p, q) && SameEffects(php, c.history, d.history)
    requires FoldOk(php, k, c.rest, d.rest) && Agrees(k, Replay(php, c.history))
    ensures Matched(php, Step(p, Branches(php), c), Step(q, Branches(php), d))
  {
    hide SameEffects;
    var h, g, st := c.history, d.history, Replay(php, c.history);
    match c.rest[0]
    case Plain(s) =>
      OneMoreEach(php, h, g, Did(s), Did(d.rest[0].s));
      PostAgrees(php, k, s, st);
      OneMore(php, h, Did(s));
      MatchedBy(php, Post(php, k, s), c.rest[1..], d.rest[1..], h + [Did(s)], g + [Did(d.rest[0].s)]);
    case Return(e, _) =>
      OneMoreEach(php, h, g, Ended(e), Ended(d.rest[0].result));
    case Label(_) =>
      MatchedBy(php, map[], c.rest[1..], d.rest[1..], h, g);
    case Goto(l) =>
      FindFolded(php, map[], p, q, l, [], []);
      if Find(p, l, []).Some? {
        MatchedBy(php, map[], Find(p, l, []).value, Find(q, l, []).value, h, g);
      } else {
        OneMoreEach(php, h, g, NoSuchLabel(l), NoSuchLabel(l));
      }
  }

  lemma StructureMatched(php: Php, p: seq<Stmt>, q: seq<Stmt>, c: Config, d: Config, k: Knowledge)
    requires c.Running? && d.Running? && c.rest != [] && (c.rest[0].If? || c.rest[0].Loop?)
      && SameEffects(php, c.history, d.history)
    requires FoldOk(php, k, c.rest, d.rest) && Agrees(k, Replay(php, c.history))
    ensures Matched(php, Step(p, Branches(php), c), Step(q, Branches(php), d))
  {
    hide SameEffects, FoldOk, Matched, Replay, Agrees, Eval, Outputs;
    BranchMatched(php, c, d, k);
    if c.rest[0].If? || c.rest[0].kind != DoWhile {
      var taken := Branches(php)(c.history, c.rest[0].cond);
      OneMore(php, c.history, Tested(c.rest[0].cond, taken));
      NextMatched(php, c, d, k, taken);
      ForkMatched(php, k, c.rest, d.rest, taken,
                  c.history + [Tested(c.rest[0].cond, taken)], d.history + [Tested(d.rest[0].cond, taken)]);
    } else {
      DoMatched(php, k, c.rest, d.rest, c.history, d.history);
    }
  }

  lemma NextMatched(php: Php, c: Config, d: Config, k: Knowledge, taken: bool)
    requires c.Running? && d.Running? && c.rest != []
      && (c.rest[0].If? || (c.rest[0].Loop? && c.rest[0].kind != DoWhile))
    requires FoldOk(php, k, c.rest, d.rest)
    ensures d.rest != [] && (c.rest[0].If? ==> d.rest[0].If?)
      && (c.rest[0].Loop? ==> d.rest[0].Loop? && d.rest[0].kind == c.rest[0].kind)
  {}

  /** An `if` or a tested loop goes the same way. */
  lemma ForkMatched(php: Php, k: Knowledge, cs: seq<Stmt>, ds: seq<Stmt>, taken: bool, h: seq<Event>, g: seq<Event>)
    requires cs != [] && (cs[0].If? || (cs[0].Loop? && cs[0].kind != DoWhile)) && ds != [] && ds[0].If? == cs[0].If?
      && ds[0].Loop? == cs[0].Loop?
    requires FoldOk(php, k, cs, ds) && SameEffects(php, h, g) && Agrees(k, Replay(php, h))
    ensures var next := (ss: seq<Stmt>) requires ss != [] && (ss[0].If? || ss[0].Loop?) =>
        if ss[0].If? then (if taken then ss[0].thn else ElseOf(ss[0])) + ss[1..] else if taken then ss[0].body + ss
          else ss[1..];
      Matched(php, Running(next(cs), h), Running(next(ds), g))
  {
    hide SameEffects;
    var s, f, ks, kf := cs[0], ds[0], cs[1..], ds[1..];
    if s.If? {
      if taken {
        FoldOkThen(php, k, s.thn, f.thn, ks, kf);
        MatchedBy(php, k, s.thn + ks, f.thn + kf, h, g);
      } else {
        FoldOkThen(php, k, ElseOf(s), ElseOf(f), ks, kf);
        MatchedBy(php, k, ElseOf(s) + ks, ElseOf(f) + kf, h, g);
      }
    } else if taken {
      assert FoldOk(php, PostAll(php, map[], s.body), cs, ds);
      FoldOkConcat(php, map[], s.body, f.body, cs, ds);
      MatchedBy(php, map[], s.body + cs, f.body + ds, h, g);
    } else {
      MatchedBy(php, map[], ks, kf, h, g);
    }
  }

  /** The body of a `do` loop and the test behind it. */
  lemma DoMatched(php: Php, k: Knowledge, cs: seq<Stmt>, ds: seq<Stmt>, h: seq<Event>, g: seq<Event>)
    requires cs != [] && cs[0].Loop? && cs[0].kind == DoWhile && FoldOk(php, k, cs, ds) && SameEffects(php, h, g)
    ensures ds != [] && ds[0].Loop? && ds[0].kind == DoWhile
    ensures Matched(php, Running(cs[0].body + ([Loop(DoTest, cs[0].cond, cs[0].body)] + cs[1..]), h),
                    Running(ds[0].body + ([Loop(DoTest, ds[0].cond, ds[0].body)] + ds[1..]), g))
  {
    hide SameEffects;
    var s, f, ks, kf := cs[0], ds[0], cs[1..], ds[1..];
    var ts, tf := [Loop(DoTest, s.cond, s.body)] + ks, [Loop(DoTest, f.cond, f.body)] + kf;
    assert ts[1..] == ks && tf[1..] == kf;
    assert FoldOk(php, PostAll(php, map[], s.body), ts, tf);
    FoldOkConcat(php, map[], s.body, f.body, ts, tf);
    MatchedBy(php, map[], s.body + ts, f.body + tf, h, g);
  }

  /** After any number of steps a program and its folded form have shown the same. */
  lemma {:induction false} StepsMatched(php: Php, p: seq<Stmt>, q: seq<Stmt>, c: Config, d: Config, n: nat)
    requires FoldOk(php, map[], p, q) && Matched(php, c, d)
    ensures Matched(php, Steps(p, Branches(php), c, n), Steps(q, Branches(php), d, n))
    decreases n
  {
    if n > 0 {
      StepMatched(php, p, q, c, d);
      StepsMatched(php, p, q, Step(p, Branches(php), c), Step(q, Branches(php), d), n - 1);
    }
  }

  // ---- The traversal folds rightly ----------------------------------------------------------------------

  /** Cells were made, nothing else changed. */
  ghost predicate OnlyMade(sc: Scope, sc': Scope) {
    sc'.vars == sc.vars && sc.cells <= sc'.cells
  }

  lemma MadeRelied(sc: Scope, sc': Scope)
    requires ScopeOk(sc) && OnlyMade(sc, sc')
    ensures Relied(sc') == Relied(sc) && ScopeOk(sc')
  {}

  lemma ReduceMore(php: Php, op: Op, l: Lookup, r: Lookup, l': Lookup, r': Lookup)
    requires (l.Known? ==> l' == l) && (r.Known? ==> r' == r) && Reduce(php, op, l, r).Some?
    ensures Reduce(php, op, l', r') == Reduce(php, op, l, r)
  {}

  /** The value attribute of an expression is right, and the rewritten expression has the same value. */
  ghost predicate ValuedOk(php: Php, k: Knowledge, e: Expr, r: Expr, ref: Option<nat>, sc: Scope) {
    && SameValue(php, k, e, r)
    && (ref.Some? ==> ref.value < |sc.cells|)
    && (Look(sc, ref).Known? ==> Known(php, k, e) == Some(Look(sc, ref).v))
  }

  /** The variables an expression reads. */
  function Reads(e: Expr): set<string> {
    match e
    case Lit(_) => {}
    case Var(x) => {x}
    case Bin(_, l, r) => Reads(l) + Reads(r)
  }

  /** What can be relied on, but for the variables `stale`, whose cells are left over from another branch. */
  function Kept(sc: Scope, stale: set<string>): Knowledge {
    map x | x in Relied(sc) && x !in stale :: Relied(sc)[x]
  }

  lemma {:induction false} FoldExprOk(php: Php, sc: Scope, stale: set<string>, e: Expr)
    requires ScopeOk(sc) && Reads(e) !! stale
    ensures var r := FoldExpr(php, sc, e);
      OnlyMade(sc, r.scope) && ValuedOk(php, Kept(sc, stale), e, r.e, r.ref, r.scope)
    decreases e
  {
    if e.Bin? {
      var k := Kept(sc, stale);
      var left := FoldExpr(php, sc, e.left);
      FoldExprOk(php, sc, stale, e.left);
      MadeRelied(sc, left.scope);
      var right := FoldExpr(php, left.scope, e.right);
      FoldExprOk(php, left.scope, stale, e.right);
      var l, r := Look(right.scope, left.ref), Look(right.scope, right.ref);
      assert l == Look(left.scope, left.ref);
      var v := Reduce(php, e.op, l, r);
      if v.Some? {
        ReduceMore(php, e.op, l, r, AsLookup(Known(php, k, e.left)), AsLookup(Known(php, k, e.right)));
        forall st: Store | Agrees(k, st) ensures Eval(php, st, e) == v.value {
          KnownIsRight(php, k, e, st);
        }
      }
    }
  }

  lemma RestoredSame(php: Php, st: Store, x: string, e: Expr)
    ensures Exec(php, st, Restored(x, e)) == st[x := Eval(php, st, e)]
  {}

  lemma AssignOk(php: Php, sc: Scope, stale: set<string>, x: string, e: Expr)
    requires ScopeOk(sc) && Reads(e) !! stale
    ensures var r := FoldAssign(php, sc, x, e);
      && ScopeOk(r.scope) && Less(Kept(r.scope, stale - {x}), PostAssign(php, Kept(sc, stale), x, e)) && !r.s.Echo?
      && forall st: Store :: Agrees(Kept(sc, stale), st) ==> Exec(php, st, r.s) == st[x := Eval(php, st, e)]
  {
    hide Exec, Relied, FoldExpr, AssignRef, OnlyMade, ScopeOk, Known, Eval;
    var r := FoldExpr(php, sc, e);
    FoldExprOk(php, sc, stale, e);
    MadeRelied(sc, r.scope);
    AssignedRelied(r.scope, x, r.ref);
    forall st: Store | Agrees(Kept(sc, stale), st)
      ensures Exec(php, st, Restored(x, r.e)) == st[x := Eval(php, st, e)] {
      RestoredSame(php, st, x, r.e);
    }
  }

  /** What can be relied on after an assignment: nothing new but the value of the assigned cell. */
  lemma AssignedRelied(sc: Scope, x: string, ref: Option<nat>)
    requires ScopeOk(sc) && (ref.Some? ==> ref.value < |sc.cells|)
    ensures var sc' := AssignRef(sc, x, ref);
      && ScopeOk(sc')
      && (forall y :: y in Relied(sc') && y != x ==> y in Relied(sc) && Relied(sc)[y] == Relied(sc')[y])
      && (x in Relied(sc') ==> Look(sc, ref) == Lookup.Known(Relied(sc')[x]))
  {}

  lemma {:induction false} FoldExprsOk(php: Php, sc: Scope, stale: set<string>, es: seq<Expr>)
    requires ScopeOk(sc) && forall i :: 0 <= i < |es| ==> Reads(es[i]) !! stale
    ensures var r := FoldExprs(php, sc, es);
      && OnlyMade(sc, r.scope)
      && forall i :: 0 <= i < |es| ==> ValuedOk(php, Kept(sc, stale), es[i], r.es[i], r.refs[i], r.scope)
    decreases |es|
  {
    if es != [] {
      var first := FoldExpr(php, sc, es[0]);
      FoldExprOk(php, sc, stale, es[0]);
      MadeRelied(sc, first.scope);
      FoldExprsOk(php, first.scope, stale, es[1..]);
      var rest := FoldExprs(php, first.scope, es[1..]);
      assert Look(rest.scope, first.ref) == Look(first.scope, first.ref);
    }
  }

  lemma {:induction false} ReducedEchoPrints(php: Php, k: Knowledge, st: Store, es: seq<Expr>, rs: seq<Expr>,
      refs: seq<Option<nat>>, sc: Scope)
    requires |es| == |rs| == |refs| && Agrees(k, st)
    requires forall i :: 0 <= i < |es| ==> ValuedOk(php, k, es[i], rs[i], refs[i], sc)
    ensures PrintAll(php, st, rs) == PrintAll(php, st, es)
    ensures var r := ReduceEcho(sc, rs, refs); r.Some? ==> PrintAll(php, st, r.value) == PrintAll(php, st, es)
    decreases |es|
  {
    if es != [] {
      ReducedEchoPrints(php, k, st, es[1..], rs[1..], refs[1..], sc);
      assert ValuedOk(php, k, es[0], rs[0], refs[0], sc);
      if Look(sc, refs[0]).Known? {
        KnownIsRight(php, k, es[0], st);
      }
    }
  }

  lemma FoldSimpleOk(php: Php, sc: Scope, stale: set<string>, s: Simple)
    requires ScopeOk(sc) && SimpleApart(s, stale)
    ensures var r := FoldSimple(php, sc, s);
      && ScopeOk(r.scope) && SimpleSame(php, Kept(sc, stale), s, r.s)
      && Less(Kept(r.scope, StaleAfter(Plain(s), stale)), Post(php, Kept(sc, stale), s))
  {
    match s
    case Assign(x, e) => AssignOk(php, sc, stale, x, e);
    case AssignOp(op, x, e) =>
      AssignOk(php, sc, stale, x, Bin(op, Var(x), e));
      assert forall st: Store :: Eval(php, st, Bin(op, Var(x), e)) == EvalBin(php, op, Read(st, x), Eval(php, st, e));
    case Echo(es) =>
      FoldExprsOk(php, sc, stale, es);
      var r, k := FoldExprs(php, sc, es), Kept(sc, stale);
      MadeRelied(sc, r.scope);
      forall st: Store | Agrees(k, st) ensures Shown(php, st, Did(s)) == Shown(php, st, Did(FoldSimple(php, sc, s).s)) {
        ReducedEchoPrints(php, k, st, es, r.es, r.refs, r.scope);
      }
  }

  lemma MarkAllForgets(sc: Scope)
    requires ScopeOk(sc)
    ensures ScopeOk(MarkAll(sc)) && Relied(MarkAll(sc)) == map[]
  {
    forall x | x in sc.vars ensures MarkAll(sc).cells[sc.vars[x]].isMutable {
      assert sc.vars[x] in CellsInUse(sc);
    }
  }

  // ---- What an `else` may read ----------------------------------------------------------------------------

  predicate SimpleApart(s: Simple, stale: set<string>) {
    match s
    case Assign(_, e) => Reads(e) !! stale
    case AssignOp(_, x, e) => x !in stale && Reads(e) !! stale
    case Echo(es) => forall i :: 0 <= i < |es| ==> Reads(es[i]) !! stale
  }

  /** An assigned variable is no longer stale, and nothing is where all variables are marked. */
  function StaleAfter(s: Stmt, stale: set<string>): set<string> {
    match s
    case Plain(Assign(x, _)) => stale - {x}
    case Plain(AssignOp(_, x, _)) => stale - {x}
    case Plain(Echo(_)) => stale
    case Return(_, _) => stale
    case Goto(_) => stale
    case _ => {}
  }

  /** What is known after a statement of any kind. */
  function StmtPost(php: Php, k: Knowledge, s: Stmt): Knowledge {
    match s
    case Plain(x) => Post(php, k, x)
    case Return(_, _) => k
    case Goto(_) => k
    case _ => map[]
  }

  /**
   What is stale for the `else` behind `ss`: what was, and what `ss` gave a known value since all variables were
   marked. A variable that got an unknown value is marked itself.
   */
  function StaleFor(php: Php, k: Knowledge, ss: seq<Stmt>, stale: set<string>): set<string>
    decreases |ss|
  {
    if ss == [] then stale
    else
      var k1 := StmtPost(php, k, ss[0]);
      match ss[0]
      case Plain(Assign(x, e)) => StaleFor(php, k1, ss[1..],
        if Known(php, k, e).Some? then stale + {x} else stale - {x})
      case Plain(AssignOp(op, x, e)) =>
        StaleFor(php, k1, ss[1..], if Known(php, k, Bin(op, Var(x), e)).Some? then stale + {x} else stale - {x})
      case Plain(Echo(_)) => StaleFor(php, k1, ss[1..], stale)
      case Return(_, _) => StaleFor(php, k1, ss[1..], stale)
      case Goto(_) => StaleFor(php, k1, ss[1..], stale)
      case _ => StaleFor(php, k1, ss[1..], {})
  }

  /**
   Nothing stale is read: no `else` reads a value that its `then` branch left, unless the variable was assigned or
   marked again. `k` is what may be known in front of the statements.
   */
  predicate Apart(php: Php, k: Knowledge, ss: seq<Stmt>, stale: set<string>)
    decreases ss, 0
  {
    ss != [] ==>
      && StmtApart(php, k, ss[0], stale)
      && Apart(php, StmtPost(php, k, ss[0]), ss[1..], StaleAfter(ss[0], stale))
  }

  predicate StmtApart(php: Php, k: Knowledge, s: Stmt, stale: set<string>)
    decreases s, 1
  {
    match s
    case Plain(x) => SimpleApart(x, stale)
    case Return(e, _) => e.Some? ==> Reads(e.value) !! stale
    case Goto(_) => true
    case Label(_) => true
    case If(c, thn, els) =>
      && Reads(c) !! stale && Apart(php, k, thn, stale)
      && (els.Else? ==> Apart(php, k, els.stmts, StaleFor(php, k, thn, stale)))
    case Loop(kind, _, body) => kind != DoTest && Apart(php, map[], body, {})
  }

  /** The programs that folding keeps. */
  predicate ElsesApart(php: Php, ss: seq<Stmt>) {
    Apart(php, map[], ss, {})
  }

  predicate NoElses(ss: seq<Stmt>)
    decreases ss
  {
    ss != [] ==>
      && (match ss[0]
          case If(_, thn, els) => els.NoElse? && NoElses(thn)
          case Loop(kind, _, body) => kind != DoTest && NoElses(body)
          case _ => true)
      && NoElses(ss[1..])
  }

  /** Without `else` nothing is ever stale. */
  lemma {:induction false} NoElsesApart(php: Php, k: Knowledge, ss: seq<Stmt>)
    requires NoElses(ss)
    ensures Apart(php, k, ss, {})
    decreases ss
  {
    if ss != [] {
      NoElsesApart(php, StmtPost(php, k, ss[0]), ss[1..]);
      assert StaleAfter(ss[0], {}) == {};
      match ss[0]
      case If(_, thn, _) => NoElsesApart(php, k, thn);
      case Loop(_, _, body) => NoElsesApart(php, map[], body);
      case _ =>
    }
  }

  // ---- Scopes ---------------------------------------------------------------------------------------------

  lemma SimpleScopeOk(php: Php, sc: Scope, s: Simple)
    requires ScopeOk(sc)
    ensures ScopeOk(FoldSimple(php, sc, s).scope)
    ensures var k := Relied(FoldSimple(php, sc, s).scope);
      forall y :: y in k && (s.Echo? || y != s.x) ==> y in Relied(sc) && Relied(sc)[y] == k[y]
  {
    match s
    case Assign(x, e) => AssignScopeOk(php, sc, x, e);
    case AssignOp(op, x, e) => AssignScopeOk(php, sc, x, Bin(op, Var(x), e));
    case Echo(es) =>
      ExprsMade(php, sc, es);
      MadeRelied(sc, FoldExprs(php, sc, es).scope);
  }

  lemma AssignScopeOk(php: Php, sc: Scope, x: string, e: Expr)
    requires ScopeOk(sc)
    ensures var r := FoldAssign(php, sc, x, e);
      && ScopeOk(r.scope)
      && forall y :: y in Relied(r.scope) && y != x ==> y in Relied(sc) && Relied(sc)[y] == Relied(r.scope)[y]
  {
    var r := FoldExpr(php, sc, e);
    ExprMade(php, sc, e);
    MadeRelied(sc, r.scope);
    AssignedRelied(r.scope, x, r.ref);
  }

  lemma {:induction false} ExprMade(php: Php, sc: Scope, e: Expr)
    requires ScopeOk(sc)
    ensures var r := FoldExpr(php, sc, e); OnlyMade(sc, r.scope) && (r.ref.Some? ==> r.ref.value < |r.scope.cells|)
    decreases e
  {
    if e.Bin? {
      var left := FoldExpr(php, sc, e.left);
      ExprMade(php, sc, e.left);
      MadeRelied(sc, left.scope);
      ExprMade(php, left.scope, e.right);
    }
  }

  lemma {:induction false} ExprsMade(php: Php, sc: Scope, es: seq<Expr>)
    requires ScopeOk(sc)
    ensures OnlyMade(sc, FoldExprs(php, sc, es).scope)
    decreases |es|
  {
    if es != [] {
      ExprMade(php, sc, es[0]);
      MadeRelied(sc, FoldExpr(php, sc, es[0]).scope);
      ExprsMade(php, FoldExpr(php, sc, es[0]).scope, es[1..]);
    }
  }

  /** Behind a statement with a body, and behind a label, nothing is relied on. */
  lemma {:induction false} StmtScopeOk(php: Php, sc: Scope, s: Stmt)
    requires ScopeOk(sc)
    ensures var r := FoldStmt(php, sc, s);
      && ScopeOk(r.scope) && (s.If? || s.Loop? || s.Label? ==> Relied(r.scope) == map[])
      && (s.Return? || s.Goto? ==> Relied(r.scope) == Relied(sc))
    decreases s, 1
  {
    MarkAllForgets(sc);
    match s
    case Plain(x) => SimpleScopeOk(php, sc, x);
    case Return(None, _) =>
    case Return(Some(e), _) =>
      ExprMade(php, sc, e);
      MadeRelied(sc, FoldExpr(php, sc, e).scope);
    case Goto(_) =>
    case Label(_) =>
    case If(c, thn, els) =>
      var cond := FoldExpr(php, sc, c);
      ExprMade(php, sc, c);
      MadeRelied(sc, cond.scope);
      AllScopeOk(php, cond.scope, thn);
      var body := FoldAll(php, cond.scope, thn);
      MarkAllForgets(body.scope);
      if els.Else? {
        AllScopeOk(php, body.scope, els.stmts);
        MarkAllForgets(FoldAll(php, body.scope, els.stmts).scope);
      }
    case Loop(kind, c, body) => LoopScopeOk(php, sc, kind, c, body);
  }

  lemma {:induction false} LoopScopeOk(php: Php, sc: Scope, kind: LoopKind, c: Expr, body: seq<Stmt>)
    requires ScopeOk(sc)
    ensures var r := FoldStmt(php, sc, Loop(kind, c, body)); ScopeOk(r.scope) && Relied(r.scope) == map[]
    decreases body, 1
  {
    hide Relied, FoldExpr, FoldAll, MarkAll;
    MarkAllForgets(sc);
    var start := MarkAll(sc);
    if kind == While {
      var cond := FoldExpr(php, start, c);
      ExprMade(php, start, c);
      MadeRelied(start, cond.scope);
      AllScopeOk(php, cond.scope, body);
      MarkAllForgets(FoldAll(php, cond.scope, body).scope);
    } else {
      AllScopeOk(php, start, body);
      var folded := FoldAll(php, start, body);
      ExprMade(php, folded.scope, c);
      MadeRelied(folded.scope, FoldExpr(php, folded.scope, c).scope);
      MarkAllForgets(FoldExpr(php, folded.scope, c).scope);
    }
  }

  lemma {:induction false} AllScopeOk(php: Php, sc: Scope, ss: seq<Stmt>)
    requires ScopeOk(sc)
    ensures ScopeOk(FoldAll(php, sc, ss).scope)
    decreases ss, 0
  {
    if ss != [] {
      StmtScopeOk(php, sc, ss[0]);
      AllScopeOk(php, FoldStmt(php, sc, ss[0]).scope, ss[1..]);
    }
  }

  /**
   Behind the `then` branch, whatever is not stale for the `else` can be relied on there because it could in front of
   the `if`. `here` is what is stale for the branch itself.
   */
  lemma {:induction false} KeptForElse(php: Php, sc: Scope, k: Knowledge, here: set<string>, ss: seq<Stmt>,
      stale: set<string>)
    requires ScopeOk(sc) && Less(Kept(sc, here), k) && Apart(php, k, ss, here)
    ensures Less(Kept(FoldAll(php, sc, ss).scope, StaleFor(php, k, ss, stale)), Kept(sc, stale))
    decreases |ss|
  {
    hide FoldStmt, Relied, Less, Post;
    if ss == [] {
      LessItself(Kept(sc, stale));
    } else {
      var next, k1, here1 := FoldStmt(php, sc, ss[0]).scope, StmtPost(php, k, ss[0]), StaleAfter(ss[0], here);
      StmtScopeOk(php, sc, ss[0]);
      FoldStmtKnows(php, sc, k, here, ss[0]);
      var stale1 := match ss[0]
        case Plain(s) => (if s.Echo? then stale else if AssignedKnown(php, k, s) then stale + {s.x} else stale - {s.x})
        case Return(_, _) => stale
        case Goto(_) => stale
        case _ => {};
      assert StaleFor(php, k, ss, stale) == StaleFor(php, k1, ss[1..], stale1);
      KeptForElse(php, next, k1, here1, ss[1..], stale1);
      OneForElse(php, sc, k, here, ss[0], stale, stale1);
      LessTrans(Kept(FoldAll(php, sc, ss).scope, StaleFor(php, k, ss, stale)), Kept(next, stale1), Kept(sc, stale));
    }
  }

  predicate AssignedKnown(php: Php, k: Knowledge, s: Simple) {
    match s
    case Assign(_, e) => Known(php, k, e).Some?
    case AssignOp(op, x, e) => Known(php, k, Bin(op, Var(x), e)).Some?
    case Echo(_) => false
  }

  lemma LessItself(k: Knowledge)
    ensures Less(k, k)
  {}

  lemma LessTrans(k: Knowledge, k1: Knowledge, k2: Knowledge)
    requires Less(k, k1) && Less(k1, k2)
    ensures Less(k, k2)
  {}

  lemma OneForElse(php: Php, sc: Scope, k: Knowledge, here: set<string>, s: Stmt, stale: set<string>,
      stale1: set<string>)
    requires ScopeOk(sc) && Less(Kept(sc, here), k) && StmtApart(php, k, s, here)
    requires match s
      case Plain(x) => stale1 == (if x.Echo? then stale else if AssignedKnown(php, k, x) then stale + {x.x}
        else stale - {x.x})
      case Return(_, _) => stale1 == stale
      case Goto(_) => stale1 == stale
      case _ => stale1 == {}
    ensures Less(Kept(FoldStmt(php, sc, s).scope, stale1), Kept(sc, stale))
  {
    hide FoldStmt, Relied, ScopeOk, Known;
    StmtScopeOk(php, sc, s);
    if s.Plain? {
      PlainScope(php, sc, s.s);
      if !s.s.Echo? && !AssignedKnown(php, k, s.s) {
        UnknownIsMarked(php, sc, k, here, s.s);
      }
    }
  }

  /** A variable that was assigned an unknown value is not relied on. */
  lemma UnknownIsMarked(php: Php, sc: Scope, k: Knowledge, here: set<string>, s: Simple)
    requires ScopeOk(sc) && Less(Kept(sc, here), k) && SimpleApart(s, here) && !s.Echo? && !AssignedKnown(php, k, s)
    ensures s.x !in Relied(FoldStmt(php, sc, Plain(s)).scope)
  {
    hide FoldExpr, AssignRef, ScopeOk, OnlyMade;
    var e := if s.Assign? then s.e else Bin(s.op, Var(s.x), s.e);
    var r := FoldExpr(php, sc, e);
    FoldExprOk(php, sc, here, e);
    MadeRelied(sc, r.scope);
    AssignedRelied(r.scope, s.x, r.ref);
    if Known(php, Kept(sc, here), e).Some? {
      KnownMore(php, Kept(sc, here), k, e);
    }
  }

  lemma PlainScope(php: Php, sc: Scope, s: Simple)
    requires ScopeOk(sc)
    ensures var k := Relied(FoldStmt(php, sc, Plain(s)).scope);
      forall y :: y in k && (s.Echo? || y != s.x) ==> y in Relied(sc) && Relied(sc)[y] == k[y]
  {
    SimpleScopeOk(php, sc, s);
  }

  /** What is relied on behind a statement is at most what is known there. */
  lemma FoldStmtKnows(php: Php, sc: Scope, k: Knowledge, stale: set<string>, s: Stmt)
    requires ScopeOk(sc) && Less(Kept(sc, stale), k) && StmtApart(php, k, s, stale)
    ensures Less(Kept(FoldStmt(php, sc, s).scope, StaleAfter(s, stale)), StmtPost(php, k, s))
  {
    hide FoldStmt, Relied, Post, SimpleSame;
    StmtScopeOk(php, sc, s);
    if s.Plain? {
      PlainFolded(php, sc, s.s);
      FoldSimpleOk(php, sc, stale, s.s);
      PostMore(php, Kept(sc, stale), k, s.s);
    }
  }

  lemma PlainFolded(php: Php, sc: Scope, s: Simple)
    ensures FoldStmt(php, sc, Plain(s)).scope == FoldSimple(php, sc, s).scope
  {}

  // ---- Folding a program ------------------------------------------------------------------------------------

  lemma {:induction false} FoldAllOk(php: Php, sc: Scope, k: Knowledge, stale: set<string>, ss: seq<Stmt>)
    requires ScopeOk(sc) && Less(Kept(sc, stale), k) && Apart(php, k, ss, stale)
    ensures var r := FoldAll(php, sc, ss);
      && ScopeOk(r.scope) && FoldOk(php, Kept(sc, stale), ss, r.ss)
      && (stale == {} ==> Less(Kept(r.scope, {}), PostAll(php, Kept(sc, {}), ss)))
    decreases ss, 0
  {
    hide FoldOk, Kept, Less, StmtPost, PostAll, FoldStmt, StaleAfter, StmtApart;
    if ss == [] {
      NothingFolded(php, Kept(sc, stale));
      LessItself(Kept(sc, {}));
    } else {
      var here := Kept(sc, stale);
      var first, stale1, here1 := FoldStmt(php, sc, ss[0]), StaleAfter(ss[0], stale), StmtPost(php, here, ss[0]);
      LessItself(here);
      FoldStmtOk(php, sc, k, stale, ss[0]);
      FoldStmtKnows(php, sc, k, stale, ss[0]);
      FoldAllOk(php, first.scope, StmtPost(php, k, ss[0]), stale1, ss[1..]);
      var rest := FoldAll(php, first.scope, ss[1..]);
      FoldOkMore(php, Kept(first.scope, stale1), here1, ss[1..], rest.ss);
      FoldOkFirst(php, here, ss[0], first.s, ss[1..], rest.ss);
      assert [ss[0]] + ss[1..] == ss;
      if stale == {} {
        NothingStaleAfter(ss[0]);
        PostAllMore(php, Kept(first.scope, {}), here1, ss[1..]);
        LessTrans(Kept(rest.scope, {}), PostAll(php, Kept(first.scope, {}), ss[1..]), PostAll(php, here1, ss[1..]));
      }
    }
  }

  lemma NothingFolded(php: Php, k: Knowledge)
    ensures FoldOk(php, k, [], []) && PostAll(php, k, []) == k
  {}

  lemma NothingStaleAfter(s: Stmt)
    ensures StaleAfter(s, {}) == {}
  {}

  lemma FoldOkFirst(php: Php, k: Knowledge, s: Stmt, f: Stmt, ss: seq<Stmt>, ff: seq<Stmt>)
    requires FoldOk(php, k, [s], [f]) && FoldOk(php, StmtPost(php, k, s), ss, ff)
    ensures FoldOk(php, k, [s] + ss, [f] + ff) && PostAll(php, k, [s] + ss) == PostAll(php, StmtPost(php, k, s), ss)
  {
    hide SameValue, SimpleSame, Post, LoopTest;
    assert ([s] + ss)[1..] == ss && ([f] + ff)[1..] == ff;
  }

  lemma {:induction false} FoldStmtOk(php: Php, sc: Scope, k: Knowledge, stale: set<string>, s: Stmt)
    requires ScopeOk(sc) && Less(Kept(sc, stale), k) && StmtApart(php, k, s, stale)
    ensures var r := FoldStmt(php, sc, s);
      && ScopeOk(r.scope) && Less(Kept(r.scope, StaleAfter(s, stale)), StmtPost(php, Kept(sc, stale), s))
      && FoldOk(php, Kept(sc, stale), [s], [r.s])
    decreases s, 1
  {
    match s
    case Plain(x) => FoldSimpleOk(php, sc, stale, x);
    case Return(None, _) =>
    case Return(Some(e), _) =>
      FoldExprOk(php, sc, stale, e);
      MadeRelied(sc, FoldExpr(php, sc, e).scope);
    case Goto(_) =>
    case Label(_) => MarkAllForgets(sc);
    case If(c, thn, els) => IfOk(php, sc, k, stale, c, thn, els);
    case Loop(kind, c, body) =>
      MarkAllForgets(sc);
      LoopOk(php, sc, stale, kind, c, body);
  }

  lemma {:induction false} IfOk(php: Php, sc: Scope, k: Knowledge, stale: set<string>, c: Expr, thn: seq<Stmt>,
      els: Else)
    requires ScopeOk(sc) && Less(Kept(sc, stale), k) && StmtApart(php, k, If(c, thn, els), stale)
    ensures var r := FoldStmt(php, sc, If(c, thn, els));
      && ScopeOk(r.scope) && Relied(r.scope) == map[]
      && FoldOk(php, Kept(sc, stale), [If(c, thn, els)], [r.s])
    decreases If(c, thn, els), 0
  {
    hide SameValue, Kept, Relied, Less;
    var here, cond := Kept(sc, stale), FoldExpr(php, sc, c);
    FoldExprOk(php, sc, stale, c);
    MadeKept(sc, cond.scope, stale);
    var body := FoldAll(php, cond.scope, thn);
    FoldAllOk(php, cond.scope, k, stale, thn);
    StmtScopeOk(php, sc, If(c, thn, els));
    if els.Else? {
      var stale', other := StaleFor(php, k, thn, stale), FoldAll(php, body.scope, els.stmts);
      KeptForElse(php, cond.scope, k, stale, thn, stale);
      LessTrans(Kept(body.scope, stale'), here, k);
      FoldAllOk(php, body.scope, k, stale', els.stmts);
      FoldOkMore(php, Kept(body.scope, stale'), here, els.stmts, other.ss);
    }
    assert [If(c, thn, els)][1..] == [];
    assert [FoldStmt(php, sc, If(c, thn, els)).s][1..] == [];
  }

  lemma MadeKept(sc: Scope, sc': Scope, stale: set<string>)
    requires ScopeOk(sc) && OnlyMade(sc, sc')
    ensures Kept(sc', stale) == Kept(sc, stale) && ScopeOk(sc')
  {
    MadeRelied(sc, sc');
  }

  lemma {:induction false} LoopOk(php: Php, sc: Scope, stale: set<string>, kind: LoopKind, c: Expr, body: seq<Stmt>)
    requires ScopeOk(sc) && Apart(php, map[], body, {}) && kind != DoTest
    ensures var r := FoldStmt(php, sc, Loop(kind, c, body));
      && ScopeOk(r.scope) && Relied(r.scope) == map[]
      && FoldOk(php, Kept(sc, stale), [Loop(kind, c, body)], [r.s])
    decreases body, 1
  {
    hide FoldOk, SameValue;
    MarkAllForgets(sc);
    var start := MarkAll(sc);
    assert Kept(start, {}) == map[];
    if kind == While {
      var cond := FoldExpr(php, start, c);
      FoldExprOk(php, start, {}, c);
      MadeRelied(start, cond.scope);
      FoldAllOk(php, cond.scope, map[], {}, body);
      MarkAllForgets(FoldAll(php, cond.scope, body).scope);
      LoopFolds(php, Kept(sc, stale), kind, c, body, cond.e, FoldAll(php, cond.scope, body).ss);
    } else {
      FoldAllOk(php, start, map[], {}, body);
      var folded := FoldAll(php, start, body);
      var cond := FoldExpr(php, folded.scope, c);
      FoldExprOk(php, folded.scope, {}, c);
      MadeRelied(folded.scope, cond.scope);
      SameValueMore(php, Kept(folded.scope, {}), PostAll(php, map[], body), c, cond.e);
      MarkAllForgets(cond.scope);
      LoopFolds(php, Kept(sc, stale), kind, c, body, cond.e, folded.ss);
    }
  }

  lemma SameValueMore(php: Php, k: Knowledge, k': Knowledge, e: Expr, f: Expr)
    requires Less(k, k') && SameValue(php, k, e, f)
    ensures SameValue(php, k', e, f)
  {
    SameMore(php, k, k');
  }

  lemma LoopFolds(php: Php, k: Knowledge, kind: LoopKind, c: Expr, body: seq<Stmt>, c': Expr, body': seq<Stmt>)
    requires kind != DoTest && FoldOk(php, map[], body, body') && SameValue(php, LoopTest(php, kind, k, body), c, c')
    ensures FoldOk(php, k, [Loop(kind, c, body)], [Loop(kind, c', body')])
  {
    var ss, ff := [Loop(kind, c, body)], [Loop(kind, c', body')];
    assert ss[1..] == [] && ff[1..] == [];
  }

  /** After any number of steps, a program and its folded form have shown the same. */
  lemma FoldingKeepsOutput(php: Php, p: seq<Stmt>, n: nat)
    requires ElsesApart(php, p)
    ensures Outputs(php, Trace(p, Branches(php), n)) == Outputs(php, Trace(Folded(php, p), Branches(php), n))
  {
    var sc := Scope(map[], []);
    FoldAllOk(php, sc, map[], {}, p);
    assert Kept(sc, {}) == map[];
    var q := Folded(php, p);
    MatchedBy(php, map[], p, q, [], []);
    StepsMatched(php, p, q, Running(p, []), Running(q, []), n);
  }
}
