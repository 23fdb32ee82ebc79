/**
 Rebuilt code with its history left in: labels and gotos that the rebuild drops stay in place, marked as
 not kept. Erasing the marked ones gives the emitted code. `Mirrors` says what such code has to look
 like to stand for source code, and the theorem of this module is that it then means the same.
 */
module Annotated {
  import opened Wrappers
  import opened PhpCode

  datatype AStmt =
    | APlain(s: Simple)
    | AReturn(result: Option<Expr>, implied: bool)
    | AGoto(target: string, kept: bool)
    | ALabel(name: string, kept: bool)
    | AIf(cond: Expr, thn: seq<AStmt>, els: AElse)
    | ALoop(kind: LoopKind, cond: Expr, body: seq<AStmt>)

  datatype AElse = ANoElse | AElse(stmts: seq<AStmt>)

  /** The emitted code. */
  function Erase(ka: seq<AStmt>): seq<Stmt>
    decreases ka
  {
    if ka == [] then [] else EraseStmt(ka[0]) + Erase(ka[1..])
  }

  function EraseStmt(a: AStmt): seq<Stmt>
    decreases a
  {
    match a
    case APlain(s) => [Plain(s)]
    case AReturn(e, implied) => [Return(e, implied)]
    case AGoto(l, kept) => if kept then [Goto(l)] else []
    case ALabel(l, kept) => if kept then [Label(l)] else []
    case AIf(c, thn, els) => [If(c, Erase(thn), if els.AElse? then Else(Erase(els.stmts)) else NoElse)]
    case ALoop(kind, c, body) => [Loop(kind, c, Erase(body))]
  }

  lemma {:induction false} EraseAppends(a: seq<AStmt>, b: seq<AStmt>)
    ensures Erase(a + b) == Erase(a) + Erase(b)
    decreases |a|
  {
    if a == [] {
      assert a + b == b;
    } else {
      assert (a + b)[0] == a[0] && (a + b)[1..] == a[1..] + b;
      EraseAppends(a[1..], b);
    }
  }

  /** Where a jump to `l` goes to in the source. */
  function After(p: seq<Stmt>, l: string): Option<seq<Stmt>> {
    Find(p, l, [])
  }

  ghost predicate NoLabels(ss: seq<Stmt>) {
    forall i :: 0 <= i < |ss| ==> !ss[i].Label?
  }

  /** Control does not run off the end. */
  ghost predicate Closed(ss: seq<Stmt>) {
    |ss| > 0 && ss[|ss| - 1].Return?
  }

  /** Every jump of the program goes to code that control does not run off. */
  ghost predicate JumpsAreClosed(p: seq<Stmt>) {
    forall l :: After(p, l).Some? ==> Closed(After(p, l).value)
  }

  /**
   The annotated code `ka` stands for the source statements `ks` of program `p`. A goto that was dropped
   is followed by the code of its target, and a goto may also stand for running on into a label. What
   comes behind a return or a goto does not matter.
   */
  ghost predicate Mirrors(p: seq<Stmt>, ks: seq<Stmt>, ka: seq<AStmt>)
    decreases ka
  {
    if ka == [] then ks == []
    else
      && ks != []
      && match ka[0]
         case APlain(s) => ks[0] == Plain(s) && Mirrors(p, ks[1..], ka[1..])
         case AReturn(e, implied) => ks[0] == Return(e, implied)
         case ALabel(l, _) => ks[0] == Label(l) && After(p, l) == Some(ks[1..]) && Mirrors(p, ks[1..], ka[1..])
         case AGoto(l, kept) =>
           && (ks[0] == Goto(l) || (ks[0] == Label(l) && After(p, l) == Some(ks[1..])))
           && (kept || Entered(p, l, ka[1..]))
         case AIf(c, thn, els) =>
           && ks[0].If? && ks[0].cond == c && NoLabels(ks[0].thn) && Mirrors(p, ks[0].thn, thn)
           && ks[0].els.Else? == els.AElse?
           && (els.AElse? ==> NoLabels(ks[0].els.stmts) && Mirrors(p, ks[0].els.stmts, els.stmts))
           && Mirrors(p, ks[1..], ka[1..])
         case ALoop(kind, c, body) =>
           && ks[0].Loop? && ks[0].kind == kind && ks[0].cond == c && NoLabels(ks[0].body)
           && Mirrors(p, ks[0].body, body)
           && Mirrors(p, ks[1..], ka[1..])
  }

  /** `ka` starts with a run of labels, `l` among them, and stands for the code at each of them up to `l`. */
  ghost predicate Entered(p: seq<Stmt>, l: string, ka: seq<AStmt>)
    decreases ka
  {
    && ka != [] && ka[0].ALabel?
    && After(p, ka[0].name).Some? && Mirrors(p, After(p, ka[0].name).value, ka[1..])
    && (ka[0].name == l || Entered(p, l, ka[1..]))
  }

  /** The labels whose gotos are kept somewhere in `ka`. */
  function KeptGotos(ka: seq<AStmt>): set<string>
    decreases ka
  {
    if ka == [] then {} else KeptGotosIn(ka[0]) + KeptGotos(ka[1..])
  }

  function KeptGotosIn(a: AStmt): set<string>
    decreases a
  {
    match a
    case AGoto(l, kept) => if kept then {l} else {}
    case AIf(_, thn, els) => KeptGotos(thn) + if els.AElse? then KeptGotos(els.stmts) else {}
    case ALoop(_, _, body) => KeptGotos(body)
    case _ => {}
  }

  lemma {:induction false} KeptGotosAppend(a: seq<AStmt>, b: seq<AStmt>)
    ensures KeptGotos(a + b) == KeptGotos(a) + KeptGotos(b)
    decreases |a|
  {
    if a == [] {
      assert a + b == b;
    } else {
      assert (a + b)[0] == a[0] && (a + b)[1..] == a[1..] + b;
      KeptGotosAppend(a[1..], b);
    }
  }

  /** Code that control does not run off may be followed by anything. */
  lemma {:induction false} MirrorsIgnoresRest(p: seq<Stmt>, ks: seq<Stmt>, ka: seq<AStmt>, junk: seq<AStmt>)
    requires JumpsAreClosed(p) && Closed(ks) && Mirrors(p, ks, ka)
    ensures Mirrors(p, ks, ka + junk)
    decreases |ka|
  {
    assert (ka + junk)[0] == ka[0] && (ka + junk)[1..] == ka[1..] + junk;
    match ka[0]
    case AReturn(_, _) =>
    case AGoto(l, kept) =>
      if !kept {
        EnteredIgnoresRest(p, l, ka[1..], junk);
      }
    case _ =>
      if |ks| > 1 {
        assert ks[1..][|ks| - 2] == ks[|ks| - 1];
        MirrorsIgnoresRest(p, ks[1..], ka[1..], junk);
      }
  }

  lemma {:induction false} EnteredIgnoresRest(p: seq<Stmt>, l: string, ka: seq<AStmt>, junk: seq<AStmt>)
    requires JumpsAreClosed(p) && Entered(p, l, ka)
    ensures Entered(p, l, ka + junk)
    decreases |ka|
  {
    assert (ka + junk)[0] == ka[0] && (ka + junk)[1..] == ka[1..] + junk;
    MirrorsIgnoresRest(p, After(p, ka[0].name).value, ka[1..], junk);
    if ka[0].name != l {
      EnteredIgnoresRest(p, l, ka[1..], junk);
    }
  }

  /** A body without labels and what runs after it. */
  lemma {:induction false} MirrorsAppends(p: seq<Stmt>, x: seq<Stmt>, ax: seq<AStmt>, k: seq<Stmt>, ka: seq<AStmt>)
    requires JumpsAreClosed(p) && NoLabels(x) && Mirrors(p, x, ax) && Mirrors(p, k, ka)
    ensures Mirrors(p, x + k, ax + ka)
    decreases |ax|
  {
    if ax == [] {
      assert x + k == k && ax + ka == ka;
    } else {
      assert (ax + ka)[0] == ax[0] && (ax + ka)[1..] == ax[1..] + ka;
      assert (x + k)[0] == x[0] && (x + k)[1..] == x[1..] + k;
      match ax[0]
      case AReturn(_, _) =>
      case ALabel(_, _) =>
      case AGoto(l, kept) =>
        if !kept {
          EnteredIgnoresRest(p, l, ax[1..], ka);
        }
      case _ =>
        MirrorsAppends(p, x[1..], ax[1..], k, ka);
    }
  }

  /** Where a jump to `l` goes to in annotated code. */
  function FindA(ka: seq<AStmt>, l: string, k: seq<AStmt>): Option<seq<AStmt>>
    decreases ka
  {
    if ka == [] then None
    else if ka[0].ALabel? && ka[0].name == l then Some(ka[1..] + k)
    else
      var here := if ka[0].AIf? then FindInIfA(ka[0], l, ka[1..] + k) else None;
      if here.Some? then here else FindA(ka[1..], l, k)
  }

  function FindInIfA(a: AStmt, l: string, k: seq<AStmt>): Option<seq<AStmt>>
    requires a.AIf?
    decreases a
  {
    var inThen := FindA(a.thn, l, k);
    if inThen.Some? || a.els.ANoElse? then inThen else FindA(a.els.stmts, l, k)
  }

  /** The labels a jump can find. */
  function Labels(ka: seq<AStmt>): set<string>
    decreases ka
  {
    if ka == [] then {} else LabelsIn(ka[0]) + Labels(ka[1..])
  }

  function LabelsIn(a: AStmt): set<string>
    decreases a
  {
    match a
    case ALabel(l, _) => {l}
    case AIf(_, thn, els) => Labels(thn) + if els.AElse? then Labels(els.stmts) else {}
    case _ => {}
  }

  /** The labels that are dropped somewhere. */
  function Dropped(ka: seq<AStmt>): set<string>
    decreases ka
  {
    if ka == [] then {} else DroppedIn(ka[0]) + Dropped(ka[1..])
  }

  function DroppedIn(a: AStmt): set<string>
    decreases a
  {
    match a
    case ALabel(l, kept) => if kept then {} else {l}
    case AIf(_, thn, els) => Dropped(thn) + if els.AElse? then Dropped(els.stmts) else {}
    case ALoop(_, _, body) => Dropped(body)
    case _ => {}
  }

  /** A label that is dropped nowhere is found at the same place in the emitted code. */
  lemma {:induction false} FindErases(ka: seq<AStmt>, l: string, k: seq<AStmt>)
    requires l !in Dropped(ka)
    ensures Find(Erase(ka), l, Erase(k)) ==
      match FindA(ka, l, k) case None => None case Some(r) => Some(Erase(r))
    decreases ka
  {
    if ka != [] {
      var a, rest := ka[0], ka[1..];
      EraseAppends(rest, k);
      FindErases(rest, l, k);
      if a.AIf? {
        FindInIfErases(a, l, rest + k);
      }
      if EraseStmt(a) == [] {
        assert Erase(ka) == Erase(rest);
      } else {
        assert Erase(ka)[0] == EraseStmt(a)[0] && Erase(ka)[1..] == Erase(rest);
      }
    }
  }

  lemma {:induction false} FindInIfErases(a: AStmt, l: string, k: seq<AStmt>)
    requires a.AIf? && l !in DroppedIn(a)
    ensures FindInIf(EraseStmt(a)[0], l, Erase(k)) ==
      match FindInIfA(a, l, k) case None => None case Some(r) => Some(Erase(r))
    decreases a
  {
    FindErases(a.thn, l, k);
    if a.els.AElse? {
      FindErases(a.els.stmts, l, k);
    }
  }

  /** Nothing comes behind a return or a kept goto. */
  ghost predicate Tight(ka: seq<AStmt>)
    decreases ka
  {
    ka != [] ==>
      && ((ka[0].AReturn? || (ka[0].AGoto? && ka[0].kept)) ==> |ka| == 1)
      && (ka[0].AIf? ==> Tight(ka[0].thn) && (ka[0].els.AElse? ==> Tight(ka[0].els.stmts)))
      && (ka[0].ALoop? ==> Tight(ka[0].body))
      && Tight(ka[1..])
  }

  /** The code `r` found for label `l` stands for the code at `l`. */
  ghost predicate Lands(p: seq<Stmt>, l: string, r: Option<seq<AStmt>>, gotos: set<string>) {
    r.Some? && After(p, l).Some? && Mirrors(p, After(p, l).value, r.value) && KeptGotos(r.value) <= gotos
  }

  /** Every label of code that stands for source code is found, with the right code behind it. */
  lemma {:induction false} FindLands(p: seq<Stmt>, ks: seq<Stmt>, ka: seq<AStmt>, l: string, k: seq<AStmt>)
    requires JumpsAreClosed(p) && Mirrors(p, ks, ka) && Tight(ka) && l in Labels(ka)
    ensures Lands(p, l, FindA(ka, l, k), KeptGotos(ka) + KeptGotos(k))
    decreases ka
  {
    var rest := ka[1..];
    KeptGotosAppend(rest, k);
    match ka[0]
    case AReturn(_, _) =>
    case ALabel(l', _) =>
      if l' == l {
        MirrorsIgnoresRest(p, ks[1..], rest, k);
      } else {
        FindLands(p, ks[1..], rest, l, k);
      }
    case AGoto(l', kept) =>
      if !kept {
        FindLandsEntered(p, l', rest, l, k);
      }
    case AIf(_, thn, els) =>
      if l in Labels(thn) {
        FindLands(p, ks[0].thn, thn, l, rest + k);
      } else {
        FindMisses(thn, l, rest + k);
        if els.AElse? && l in Labels(els.stmts) {
          FindLands(p, ks[0].els.stmts, els.stmts, l, rest + k);
        } else {
          if els.AElse? {
            FindMisses(els.stmts, l, rest + k);
          }
          FindLands(p, ks[1..], rest, l, k);
        }
      }
    case _ => FindLands(p, ks[1..], rest, l, k);
  }

  lemma {:induction false} FindLandsEntered(p: seq<Stmt>, l': string, ka: seq<AStmt>, l: string, k: seq<AStmt>)
    requires JumpsAreClosed(p) && Entered(p, l', ka) && Tight(ka) && l in Labels(ka)
    ensures Lands(p, l, FindA(ka, l, k), KeptGotos(ka) + KeptGotos(k))
    decreases ka
  {
    var rest := ka[1..];
    var code := After(p, ka[0].name).value;
    KeptGotosAppend(rest, k);
    if ka[0].name == l {
      MirrorsIgnoresRest(p, code, rest, k);
    } else {
      FindLands(p, code, rest, l, k);
    }
  }

  lemma {:induction false} FindMisses(ka: seq<AStmt>, l: string, k: seq<AStmt>)
    requires l !in Labels(ka)
    ensures FindA(ka, l, k).None?
    decreases ka
  {
    if ka != [] {
      if ka[0].AIf? {
        FindMisses(ka[0].thn, l, ka[1..] + k);
        if ka[0].els.AElse? {
          FindMisses(ka[0].els.stmts, l, ka[1..] + k);
        }
      }
      FindMisses(ka[1..], l, k);
    }
  }

  /** What the rebuild has to achieve. */
  ghost predicate Faithful(p: seq<Stmt>, a: seq<AStmt>) {
    && JumpsAreClosed(p)
    && Mirrors(p, p, a) && Tight(a)
    && KeptGotos(a) <= Labels(a) && KeptGotos(a) !! Dropped(a)
  }

  /** A configuration of the source and one of the emitted code that have the same things to do. */
  ghost predicate Matched(p: seq<Stmt>, a: seq<AStmt>, c: Config, d: Config) {
    && c.history == d.history && c.Running? == d.Running?
    && (c.Running? ==> exists ka :: Mirrors(p, c.rest, ka) && d.rest == Erase(ka) && KeptGotos(ka) <= KeptGotos(a))
  }

  lemma MatchedBy(p: seq<Stmt>, a: seq<AStmt>, c: Config, d: Config, ka: seq<AStmt>)
    requires c.Running? && d.Running? && c.history == d.history
    requires Mirrors(p, c.rest, ka) && d.rest == Erase(ka) && KeptGotos(ka) <= KeptGotos(a)
    ensures Matched(p, a, c, d)
  {}

  /** Passing the labels in front of the place a dropped goto went to. */
  lemma {:induction false} PassLabels(p: seq<Stmt>, a: seq<AStmt>, o: Oracle, l: string, ka: seq<AStmt>, h: seq<Event>)
    returns (j: nat, ka': seq<AStmt>)
    requires Entered(p, l, ka)
    ensures After(p, l).Some? && Mirrors(p, After(p, l).value, ka') && |ka'| < |ka| && KeptGotos(ka') <= KeptGotos(ka)
    ensures Steps(Erase(a), o, Running(Erase(ka), h), j) == Running(Erase(ka'), h)
    decreases |ka|
  {
    var rest := ka[1..];
    var kept := ka[0].kept;
    if kept {
      assert Erase(ka)[0] == Label(ka[0].name) && Erase(ka)[1..] == Erase(rest);
      assert Step(Erase(a), o, Running(Erase(ka), h)) == Running(Erase(rest), h);
    } else {
      assert Erase(ka) == Erase(rest);
    }
    if ka[0].name == l {
      j, ka' := if kept then 1 else 0, rest;
    } else {
      j, ka' := PassLabels(p, a, o, l, rest, h);
      if kept {
        j := j + 1;
      }
    }
  }

  /** A kept goto goes to the emitted code of what the source goto goes to. */
  lemma JumpLands(p: seq<Stmt>, a: seq<AStmt>, l: string) returns (ka: seq<AStmt>)
    requires Faithful(p, a) && l in KeptGotos(a)
    ensures After(p, l).Some? && Mirrors(p, After(p, l).value, ka)
    ensures Find(Erase(a), l, []) == Some(Erase(ka)) && KeptGotos(ka) <= KeptGotos(a)
  {
    FindLands(p, p, a, l, []);
    FindErases(a, l, []);
    ka := FindA(a, l, []).value;
  }

  lemma EraseFirst(ka: seq<AStmt>)
    requires ka != [] && |EraseStmt(ka[0])| == 1
    ensures Erase(ka) != [] && Erase(ka)[0] == EraseStmt(ka[0])[0] && Erase(ka)[1..] == Erase(ka[1..])
  {}

  /** A visible step: branches, loops and simple statements go side by side. */
  lemma StructuredStep(p: seq<Stmt>, a: seq<AStmt>, o: Oracle, ks: seq<Stmt>, ka: seq<AStmt>, h: seq<Event>)
    requires Faithful(p, a) && Mirrors(p, ks, ka) && KeptGotos(ka) <= KeptGotos(a)
    requires ka == [] || ka[0].APlain? || ka[0].AReturn? || ka[0].AIf? || ka[0].ALoop?
    ensures Matched(p, a, Step(p, o, Running(ks, h)), Step(Erase(a), o, Running(Erase(ka), h)))
  {
    if ka != [] {
      EraseFirst(ka);
      if ka[0].APlain? {
        MatchedBy(p, a, Step(p, o, Running(ks, h)), Step(Erase(a), o, Running(Erase(ka), h)), ka[1..]);
      } else if ka[0].AIf? {
        IfStep(p, a, o, ks, ka, h);
      } else if ka[0].ALoop? {
        if ka[0].kind == DoWhile {
          DoStep(p, a, o, ks, ka, h);
        } else {
          LoopStep(p, a, o, ks, ka, h);
        }
      }
    }
  }

  lemma IfStep(p: seq<Stmt>, a: seq<AStmt>, o: Oracle, ks: seq<Stmt>, ka: seq<AStmt>, h: seq<Event>)
    requires Faithful(p, a) && Mirrors(p, ks, ka) && KeptGotos(ka) <= KeptGotos(a)
    requires ka != [] && ka[0].AIf?
    ensures Matched(p, a, Step(p, o, Running(ks, h)), Step(Erase(a), o, Running(Erase(ka), h)))
  {
    EraseFirst(ka);
    var taken := o(h, ka[0].cond);
    var body := if taken then ka[0].thn else if ka[0].els.AElse? then ka[0].els.stmts else [];
    var source := if taken then ks[0].thn else ElseOf(ks[0]);
    Extended(p, a, source, body, ks[1..], ka[1..]);
    MatchedBy(p, a, Step(p, o, Running(ks, h)), Step(Erase(a), o, Running(Erase(ka), h)), body + ka[1..]);
  }

  lemma LoopStep(p: seq<Stmt>, a: seq<AStmt>, o: Oracle, ks: seq<Stmt>, ka: seq<AStmt>, h: seq<Event>)
    requires Faithful(p, a) && Mirrors(p, ks, ka) && KeptGotos(ka) <= KeptGotos(a)
    requires ka != [] && ka[0].ALoop? && ka[0].kind != DoWhile
    ensures Matched(p, a, Step(p, o, Running(ks, h)), Step(Erase(a), o, Running(Erase(ka), h)))
  {
    EraseFirst(ka);
    var ka' := if o(h, ka[0].cond) then ka[0].body + ka else ka[1..];
    Extended(p, a, ks[0].body, ka[0].body, ks, ka);
    MatchedBy(p, a, Step(p, o, Running(ks, h)), Step(Erase(a), o, Running(Erase(ka), h)), ka');
  }

  lemma DoStep(p: seq<Stmt>, a: seq<AStmt>, o: Oracle, ks: seq<Stmt>, ka: seq<AStmt>, h: seq<Event>)
    requires Faithful(p, a) && Mirrors(p, ks, ka) && KeptGotos(ka) <= KeptGotos(a)
    requires ka != [] && ka[0].ALoop? && ka[0].kind == DoWhile
    ensures Matched(p, a, Step(p, o, Running(ks, h)), Step(Erase(a), o, Running(Erase(ka), h)))
  {
    EraseFirst(ka);
    var k := [Loop(DoTest, ks[0].cond, ks[0].body)] + ks[1..];
    var k' := [ALoop(DoTest, ka[0].cond, ka[0].body)] + ka[1..];
    assert k'[1..] == ka[1..] && k[1..] == ks[1..];
    assert Mirrors(p, k, k');
    assert KeptGotos(k') == KeptGotos(ka);
    Extended(p, a, ks[0].body, ka[0].body, k, k');
    EraseFirst(k');
    assert Erase(k') == [Loop(DoTest, ka[0].cond, Erase(ka[0].body))] + Erase(ka[1..]);
    MatchedBy(p, a, Step(p, o, Running(ks, h)), Step(Erase(a), o, Running(Erase(ka), h)), ka[0].body + k');
  }

  /** Putting a body in front of what runs after it. */
  lemma Extended(p: seq<Stmt>, a: seq<AStmt>, x: seq<Stmt>, ax: seq<AStmt>, k: seq<Stmt>, ka: seq<AStmt>)
    requires JumpsAreClosed(p) && NoLabels(x) && Mirrors(p, x, ax) && Mirrors(p, k, ka)
    requires KeptGotos(ax) <= KeptGotos(a) && KeptGotos(ka) <= KeptGotos(a)
    ensures Mirrors(p, x + k, ax + ka) && Erase(ax + ka) == Erase(ax) + Erase(ka) && KeptGotos(ax + ka) <= KeptGotos(a)
  {
    MirrorsAppends(p, x, ax, k, ka);
    EraseAppends(ax, ka);
    KeptGotosAppend(ax, ka);
  }

  /** A step of the source over a goto or a label. */
  lemma SilentStep(p: seq<Stmt>, o: Oracle, ks: seq<Stmt>, ka: seq<AStmt>, h: seq<Event>, l: string)
    requires Mirrors(p, ks, ka) && ka != []
    requires (ka[0].AGoto? && ka[0].target == l) || (ka[0].ALabel? && ka[0].name == l)
    ensures Step(p, o, Running(ks, h)) ==
      match After(p, l) case Some(k) => Running(k, h) case None => Halted(h + [NoSuchLabel(l)])
  {}

  /** A kept label or goto is stepped over on both sides. */
  lemma KeptStep(p: seq<Stmt>, a: seq<AStmt>, o: Oracle, ks: seq<Stmt>, ka: seq<AStmt>, h: seq<Event>)
    requires Faithful(p, a) && Mirrors(p, ks, ka) && KeptGotos(ka) <= KeptGotos(a)
    requires ka != [] && (ka[0].AGoto? || ka[0].ALabel?) && ka[0].kept
    ensures Matched(p, a, Step(p, o, Running(ks, h)), Step(Erase(a), o, Running(Erase(ka), h)))
  {
    EraseFirst(ka);
    var ka' := ka[1..];
    if ka[0].AGoto? {
      SilentStep(p, o, ks, ka, h, ka[0].target);
      ka' := JumpLands(p, a, ka[0].target);
    }
    MatchedBy(p, a, Step(p, o, Running(ks, h)), Step(Erase(a), o, Running(Erase(ka), h)), ka');
  }

  /** From matching configurations both sides go on, each by at least one step, to matching configurations. */
  lemma {:induction false} Round(p: seq<Stmt>, a: seq<AStmt>, o: Oracle, ks: seq<Stmt>, ka: seq<AStmt>, h: seq<Event>)
    returns (i: nat, j: nat)
    requires Faithful(p, a) && Mirrors(p, ks, ka) && KeptGotos(ka) <= KeptGotos(a)
    ensures i > 0 && j > 0
    ensures Matched(p, a, Steps(p, o, Running(ks, h), i), Steps(Erase(a), o, Running(Erase(ka), h), j))
    decreases |ka|
  {
    hide Faithful, Step, Find;
    var q := Erase(a);
    var c, d := Running(ks, h), Running(Erase(ka), h);
    if ka == [] || !(ka[0].AGoto? || ka[0].ALabel?) || ka[0].kept {
      if ka == [] || !(ka[0].AGoto? || ka[0].ALabel?) {
        StructuredStep(p, a, o, ks, ka, h);
      } else {
        KeptStep(p, a, o, ks, ka, h);
      }
      assert Steps(p, o, c, 1) == Step(p, o, c) && Steps(q, o, d, 1) == Step(q, o, d);
      return 1, 1;
    }
    var rest := ka[1..];
    var l := if ka[0].ALabel? then ka[0].name else ka[0].target;
    assert Erase(ka) == Erase(rest);
    var j0, ka' := 0, rest;
    if ka[0].AGoto? {
      j0, ka' := PassLabels(p, a, o, l, rest, h);
    }
    SilentStep(p, o, ks, ka, h, l);
    var i', j' := Round(p, a, o, After(p, l).value, ka', h);
    StepsAdd(q, o, d, j0, j');
    return 1 + i', j0 + j';
  }

  /** Both sides can be brought as far as wanted. */
  lemma {:induction false} Rounds(p: seq<Stmt>, a: seq<AStmt>, o: Oracle, c: Config, d: Config, n: nat)
      returns (i: nat, j: nat)
    requires Faithful(p, a) && Matched(p, a, c, d)
    ensures i >= n && j >= n && Steps(p, o, c, i).history == Steps(Erase(a), o, d, j).history
    decreases n
  {
    if n == 0 {
      return 0, 0;
    }
    if c.Halted? {
      HaltedStays(p, o, c, n);
      HaltedStays(Erase(a), o, d, n);
      return n, n;
    }
    var ka :| Mirrors(p, c.rest, ka) && d.rest == Erase(ka) && KeptGotos(ka) <= KeptGotos(a);
    var i0, j0 := Round(p, a, o, c.rest, ka, c.history);
    var i', j' := Rounds(p, a, o, Steps(p, o, c, i0), Steps(Erase(a), o, d, j0), n - 1);
    StepsAdd(p, o, c, i0, i');
    StepsAdd(Erase(a), o, d, j0, j');
    return i0 + i', j0 + j';
  }

  /** Erasing what a faithful rebuild dropped leaves a program that means the same. */
  lemma FaithfulMeansSame(p: seq<Stmt>, a: seq<AStmt>, o: Oracle)
    requires Faithful(p, a)
    ensures SameTraces(p, Erase(a), o)
  {
    var q := Erase(a);
    MatchedBy(p, a, Running(p, []), Running(q, []), a);
    forall n: nat ensures Does(q, o, Trace(p, o, n)) && Does(p, o, Trace(q, o, n)) {
      var i, j := Rounds(p, a, o, Running(p, []), Running(q, []), n);
      assert Trace(p, o, i) == Trace(q, o, j);
      TraceGrows(p, o, n, i);
      TraceGrows(q, o, n, j);
    }
  }
}
