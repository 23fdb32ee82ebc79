/**
 What shares say about where they come from: what a link hands on, what an unlink leaves behind, and when an unlink
 takes back what a link gave.
 */
module Provenance {
  import opened Wrappers
  import opened ObjectGraph
  import opened Grant
  import opened Uninherit

  // ---- Links ------------------------------------------------------------------------------------------

  /** Linking gives every object that is newly seen the parent's provenance and user, and changes no other share. */
  lemma LinkHandsOn(g: Graph, view: View, parent: Id, child: Id, now: int)
    requires g.Valid() && parent in g.objects && child in g.objects && Closed(g.relation, view)
    ensures var relation' := [Edge(parent, child)] + g.relation;
      var after := Linked(g.objects, relation', view, parent, child, now);
      && (parent !in view ==> after == view)
      && (parent in view ==> forall y :: y in after <==> y in view || Reaches(relation', child, y))
      && (forall y :: y in after && y in view ==> after[y] == view[y])
      && (forall y :: y in after && y !in view ==>
           parent in view && TakesOver(view[parent], after[y], view[parent], now))
  {
    hide Granted, Reaches;
    var relation' := [Edge(parent, child)] + g.relation;
    assert forall e :: e in relation' <==> e == Edge(parent, child) || e in g.relation;
    if parent in view {
      GrantExact(g.objects, relation', view, child, view[parent].(accessTime := now));
    }
  }

  /** The graph and the view after `child` was linked under `parent`. */
  ghost function AfterLink(g: Graph, view: View, parent: Id, child: Id, now: int): (Graph, View) {
    var relation' := [Edge(parent, child)] + g.relation;
    (Graph(g.objects, relation'), Linked(g.objects, relation', view, parent, child, now))
  }

  /**
   Linking a child that was not seen and unlinking it again takes the access away unless the child is on a
   cycle: a parent of it that is its descendant, too, got the same share, and only such a parent keeps it in.
   */
  lemma UnlinkTakesBackIff(g: Graph, view: View, parent: Id, child: Id, now: int, later: int)
    requires g.Valid() && parent in g.objects && child in g.objects && Closed(g.relation, view)
    requires parent in view && child !in view
    ensures var (linked, seen) := AfterLink(g, view, parent, child, now);
      && linked.Valid() && child in seen
      && var back := Unlinked(linked, seen, parent, child, later);
         child in back <==> exists q :: Edge(q, child) in g.relation && Reaches(linked.relation, child, q)
  {
    hide Linked, Unlinked, Reaches, TakesOverOldest;
    var (linked, seen) := AfterLink(g, view, parent, child, now);
    assert forall e :: e in linked.relation <==> e == Edge(parent, child) || e in g.relation;
    LinkHandsOn(g, view, parent, child, now);
    ReachesSelf(linked.relation, child);
    ChildAfterUnlink(linked, seen, parent, child, later);
    var others := set q | Edge(q, child) in linked.relation && q != parent && q in seen :: q;
    forall q | Edge(q, child) in g.relation
      ensures q !in view && q != parent && (q in others <==> Reaches(linked.relation, child, q))
    {
      assert Edge(q, child) in linked.relation;
    }
    if others != {} {
      var q :| q in others;
      assert SameProvenance(seen[q], seen[parent]);
    }
  }

  /** No object that the link made visible has two parents the group sees. */
  ghost predicate NewHaveOneParent(relation: seq<Edge>, view: View, seen: View) {
    forall e, f | e in relation && f in relation && e.parent in seen && f.parent in seen ::
      e.child == f.child && e.child !in view ==> e.parent == f.parent
  }

  /** What was seen before below them has another provenance. */
  ghost predicate OldAreApart(relation: seq<Edge>, view: View, seen: View, parent: Id)
    requires parent in view
  {
    forall e :: e in relation && e.parent in seen && e.parent !in view && e.child in view ==>
      !SameProvenance(view[e.child], view[parent])
  }

  /** Then unlinking takes back exactly what the link gave. */
  lemma UnlinkTakesAllBack(g: Graph, view: View, parent: Id, child: Id, now: int, later: int)
    requires g.Valid() && parent in g.objects && child in g.objects && Closed(g.relation, view)
    requires parent in view && child !in view
    requires var (linked, seen) := AfterLink(g, view, parent, child, now);
      NewHaveOneParent(linked.relation, view, seen) && OldAreApart(linked.relation, view, seen, parent)
    ensures var (linked, seen) := AfterLink(g, view, parent, child, now);
      linked.Valid() && Unlinked(linked, seen, parent, child, later).Keys == view.Keys
  {
    hide Linked, Unlinked, Reaches, NewHaveOneParent, OldAreApart, HangsOn;
    var (linked, seen) := AfterLink(g, view, parent, child, now);
    assert forall e :: e in linked.relation <==> e == Edge(parent, child) || e in g.relation;
    LinkHandsOn(g, view, parent, child, now);
    var back := Unlinked(linked, seen, parent, child, later);
    UnlinkIsConfined(linked, seen, parent, child, later);
    forall y | y in seen ensures y in back <==> y in view {
      UnlinkRemovesExactly(linked, seen, parent, child, y, later);
      if y in view {
        OldHangsNot(g, view, parent, child, now, y);
      } else {
        NewHangsOn(g, view, parent, child, now, y);
      }
    }
  }

  lemma OldHangsNot(g: Graph, view: View, parent: Id, child: Id, now: int, y: Id)
    requires g.Valid() && parent in g.objects && child in g.objects && Closed(g.relation, view)
    requires parent in view && child !in view && y in view
    requires var (linked, seen) := AfterLink(g, view, parent, child, now);
      OldAreApart(linked.relation, view, seen, parent)
    ensures var (linked, seen) := AfterLink(g, view, parent, child, now);
      !HangsOn(linked.relation, seen, parent, child, y)
  {
    hide Linked;
    var (linked, seen) := AfterLink(g, view, parent, child, now);
    LinkHandsOn(g, view, parent, child, now);
    if HangsOn(linked.relation, seen, parent, child, y) {
      var path :| IsHeirChain(linked.relation, seen, parent, child, path) && path[|path| - 1] == y;
      var _ := FirstSeen(view, path, 1);
      assert false;
    }
  }

  /** The first place from `i` on that holds an object the group sees. */
  lemma FirstSeen(view: View, path: seq<Id>, i: nat) returns (j: nat)
    requires 0 < i < |path| && path[i] !in view && path[|path| - 1] in view
    ensures i < j < |path| && path[j] in view && path[j - 1] !in view
    decreases |path| - i
  {
    j := i + 1;
    if path[j] !in view {
      j := FirstSeen(view, path, j);
    }
  }

  lemma NewHangsOn(g: Graph, view: View, parent: Id, child: Id, now: int, y: Id)
    requires g.Valid() && parent in g.objects && child in g.objects && Closed(g.relation, view)
    requires parent in view && child !in view && y !in view
    requires var (linked, seen) := AfterLink(g, view, parent, child, now);
      y in seen && NewHaveOneParent(linked.relation, view, seen)
    ensures var (linked, seen) := AfterLink(g, view, parent, child, now);
      HangsOn(linked.relation, seen, parent, child, y)
  {
    hide IsPath;
    var (linked, seen) := AfterLink(g, view, parent, child, now);
    var relation' := linked.relation;
    LinkHandsOn(g, view, parent, child, now);
    var path :| FreshPath(relation', view, path, child, y);
    hide Linked;
    FreshPathIsHeirChain(relation', view, seen, parent, child, path, y);
  }

  lemma FreshPathIsHeirChain(relation: seq<Edge>, view: View, seen: View, parent: Id, child: Id, path: seq<Id>, y: Id)
    requires FreshPath(relation, view, path, child, y) && Edge(parent, child) in relation
    requires parent in seen && NewHaveOneParent(relation, view, seen)
    requires forall x :: Reaches(relation, child, x) ==> x in seen
    requires forall x :: x in seen && x !in view ==> SameProvenance(seen[x], seen[parent])
    ensures HangsOn(relation, seen, parent, child, y)
  {
    var chain := [parent] + path;
    forall i | 0 <= i < |path| ensures path[i] in seen {
      assert IsPath(relation, path[..i + 1], child, path[i]);
    }
    forall i | 0 < i < |chain|
      ensures Edge(chain[i - 1], chain[i]) in relation && chain[i] in seen && Inherits(seen[chain[i]], seen[parent])
      ensures forall q :: Edge(q, chain[i]) in relation && q in seen ==> q == chain[i - 1]
    {
      assert chain[i] == path[i - 1];
    }
    assert IsHeirChain(relation, seen, parent, child, chain) && chain[|chain| - 1] == y;
  }

  // ---- Unlinks ----------------------------------------------------------------------------------------

  /** A parent that is seen has the provenance of `k`'s share. */
  ghost predicate HasSource(relation: seq<Edge>, view: View, k: Id)
    requires k in view
  {
    exists p :: Edge(p, k) in relation && p in view && SameProvenance(view[k], view[p])
  }

  /** Every share that changed has a source, or what `nd` handed down if it is one of `heirs`. */
  ghost predicate ChangedHaveSources(relation: seq<Edge>, was: View, after: View, heirs: set<Id>, nd: Option<Id>) {
    forall k :: k in was && k in after && after[k] != was[k] ==>
      HasSource(relation, after, k)
      || (k in heirs && nd.Some? && nd.value in was && SameProvenance(after[k], was[nd.value]))
  }

  function Elements(xs: seq<Id>): set<Id> {
    set x | x in xs
  }

  /** Shares with another provenance than the origin's do not change, so sources stay. */
  lemma SourcesStay(relation: seq<Edge>, a: View, b: View, c: View, v0: set<Id>, v1: set<Id>, v2: set<Id>,
      origin: Share, now: int, heirs: set<Id>, more: set<Id>, nd: Option<Id>)
    requires Confined(a, b, v0, v1, origin, now) && Confined(b, c, v1, v2, origin, now)
    requires ChangedHaveSources(relation, a, b, heirs, nd) && ChangedHaveSources(relation, b, c, more, nd)
    requires nd.Some? ==> nd.value in a && !Inherits(a[nd.value], origin)
    ensures ChangedHaveSources(relation, a, c, heirs + more, nd)
  {
    forall k | k in a && k in c && c[k] != a[k]
      ensures HasSource(relation, c, k)
        || (k in heirs + more && nd.Some? && nd.value in a && SameProvenance(c[k], a[nd.value]))
    {
      if b[k] != a[k] {
        assert c[k] == b[k];
        if HasSource(relation, b, k) {
          var p :| Edge(p, k) in relation && p in b && SameProvenance(b[k], b[p]);
          assert p in c && c[p] == b[p];
        }
      }
    }
  }

  lemma {:induction false} UninheritedHaveSources(g: Graph, view: View, visited: set<Id>, x: Id, from: Id,
      nd: Option<Id>, now: int)
    requires g.Valid() && x in g.objects && visited <= g.objects && Ready(view, from, nd)
    ensures ChangedHaveSources(g.relation, view, Uninherited(g, view, visited, x, from, nd, now).view, {x}, nd)
    decreases g.objects - visited, 0
  {
    hide UninheritedAll, IsLastSeen, DeletedOrRemapped, Children;
    if x !in visited && x in view && Inherits(view[x], view[from]) {
      var d := if nd.Some? then From(nd.value)
        else FindDevisor(Parents(g.relation, x), view, from, view[from], NoDevisor);
      if !d.Keep? {
        var nd' := if d.From? then Some(d.q) else None;
        var below := UninheritedAll(g, view, visited + {x}, Children(g.relation, x), x, nd', now);
        AllHaveSources(g, view, visited + {x}, Children(g.relation, x), x, nd', now);
        OwnSource(g, view, visited, x, from, nd, d, below, now);
      }
    }
  }

  /** The step that writes or deletes the object's own share. */
  lemma OwnSource(g: Graph, view: View, visited: set<Id>, x: Id, from: Id, nd: Option<Id>, d: Devisor, below: Progress,
      now: int)
    requires g.Valid() && Ready(view, from, nd) && x in view && Inherits(view[x], view[from]) && !d.Keep?
    requires d == if nd.Some? then From(nd.value)
      else FindDevisor(Parents(g.relation, x), view, from, view[from], NoDevisor)
    requires Confined(view, below.view, visited + {x}, below.visited, view[x], now)
    requires ChangedHaveSources(g.relation, view, below.view, Elements(Children(g.relation, x)),
      if d.From? then Some(d.q) else None)
    ensures d.From? ==> d.q in view && d.q in below.view && x in below.view
    ensures ChangedHaveSources(g.relation, view,
      if d.From? then below.view[x := MakeInherited(below.view[x], below.view[d.q], now)] else Deleted(below.view, x),
      {x}, nd)
  {
    hide IsLastSeen, FindDevisor, Confined, DeletedOrRemapped;
    Untouched(view, below.view, visited + {x}, below.visited, view[x], now);
    if d.From? {
      assert d.q in view && !Inherits(view[d.q], view[x]);
      var after := below.view[x := MakeInherited(below.view[x], below.view[d.q], now)];
      assert SameProvenance(after[x], view[d.q]);
      if nd.None? {
        assert Edge(d.q, x) in g.relation && HasSource(g.relation, after, x);
      }
      SourcesSurvive(g.relation, view, below.view, after, x, Some(d.q));
    } else {
      SourcesSurvive(g.relation, view, below.view, Deleted(below.view, x), x, None);
    }
  }

  /** What has another provenance than the origin and what is not newly visited does not change. */
  lemma Untouched(view: View, after: View, visited: set<Id>, visited': set<Id>, origin: Share, now: int)
    requires Confined(view, after, visited, visited', origin, now)
    ensures forall k :: k in view && (k in visited || k !in visited' || !Inherits(view[k], origin)) ==>
      k in after && after[k] == view[k]
    ensures forall k :: k in after && after[k] != view[k] ==> !Inherits(after[k], origin)
    ensures after.Keys <= view.Keys && visited <= visited'
  {}

  /** Sources of other shares stay when the share of `x` is written or deleted. */
  lemma SourcesSurvive(relation: seq<Edge>, view: View, below: View, after: View, x: Id, nd: Option<Id>)
    requires x in view && x in below && below[x] == view[x] && below.Keys <= view.Keys
    requires forall k :: k in below && below[k] != view[k] ==> !Inherits(below[k], view[x])
    requires ChangedHaveSources(relation, view, below, Elements(Children(relation, x)), nd)
    requires forall k :: k != x ==> (k in after <==> k in below) && (k in after ==> after[k] == below[k])
    requires nd.Some? ==> nd.value in view && x in after && SameProvenance(after[x], view[nd.value])
    ensures forall k :: k in view && k in after && after[k] != view[k] && k != x ==> HasSource(relation, after, k)
  {
    forall k | k in view && k in after && after[k] != view[k] && k != x ensures HasSource(relation, after, k) {
      if HasSource(relation, below, k) {
        var p :| Edge(p, k) in relation && p in below && SameProvenance(below[k], below[p]);
        assert p != x;
      } else {
        assert Edge(x, k) in relation && SameProvenance(after[k], after[x]);
      }
    }
  }

  lemma {:induction false} AllHaveSources(g: Graph, view: View, visited: set<Id>, cs: seq<Id>, x: Id, nd: Option<Id>,
      now: int)
    requires g.Valid() && x in visited && visited <= g.objects && Ready(view, x, nd)
    requires forall c :: c in cs ==> c in g.objects
    ensures ChangedHaveSources(g.relation, view, UninheritedAll(g, view, visited, cs, x, nd, now).view,
      Elements(cs), nd)
    decreases g.objects - visited, 1, |cs|
  {
    hide Confined, ChangedHaveSources, HasSource, Uninherited;
    if cs == [] {
      NothingChanged(g.relation, view, nd);
      assert Elements(cs) == {};
    } else {
      assert cs == [cs[0]] + cs[1..];
      var first := Uninherited(g, view, visited, cs[0], x, nd, now);
      UninheritedHaveSources(g, view, visited, cs[0], x, nd, now);
      StillReady(view, first.view, visited, first.visited, x, nd, now);
      AllHaveSources(g, first.view, first.visited, cs[1..], x, nd, now);
      var rest := UninheritedAll(g, first.view, first.visited, cs[1..], x, nd, now);
      SourcesStay(g.relation, view, first.view, rest.view, visited, first.visited, rest.visited, view[x], now,
        {cs[0]}, Elements(cs[1..]), nd);
      assert {cs[0]} + Elements(cs[1..]) == Elements(cs);
    }
  }

  lemma NothingChanged(relation: seq<Edge>, view: View, nd: Option<Id>)
    ensures ChangedHaveSources(relation, view, view, {}, nd)
  {}

  lemma StillReady(view: View, after: View, visited: set<Id>, visited': set<Id>, x: Id, nd: Option<Id>, now: int)
    requires Ready(view, x, nd) && x in visited && Confined(view, after, visited, visited', view[x], now)
    ensures visited <= visited' && Ready(after, x, nd) && after[x] == view[x]
      && (nd.Some? ==> after[nd.value] == view[nd.value])
  {}

  /**
   A share that an unlink changes inherits from a parent afterwards: along a row that is left, with the same reason and
   related object. It keeps its user, is dated now, and has another provenance than before.
   */
  lemma RemappedInherit(g: Graph, view: View, parent: Id, child: Id, now: int, k: Id)
    requires g.Valid() && child in g.objects && parent in view
    requires var after := Unlinked(g, view, parent, child, now); k in view && k in after && after[k] != view[k]
    ensures var after := Unlinked(g, view, parent, child, now);
      && HasSource(WithoutEdge(g.relation, Edge(parent, child)), after, k)
      && !SameProvenance(after[k], view[k]) && SameProvenance(view[k], view[parent])
      && after[k].relatedUser == view[k].relatedUser && after[k].accessTime == now
  {
    hide Uninherited, HasSource, DeletedOrRemapped, TakesOverOldest;
    var after, r := Unlinked(g, view, parent, child, now), Uninherited(g, view, {}, child, parent, None, now);
    UninheritedHaveSources(g, view, {}, child, parent, None, now);
    assert HasSource(g.relation, after, k);
    Untouched(view, after, {}, r.visited, view[parent], now);
    ChangedKeepUser(view, after, {}, r.visited, view[parent], now, k);
    if k == child {
      ChildAfterUnlink(g, view, parent, child, now);
      ChildSource(g.relation, view, after, parent, child, now);
    } else {
      AnotherRow(g.relation, after, k, parent, child);
    }
  }

  lemma ChangedKeepUser(view: View, after: View, visited: set<Id>, visited': set<Id>, origin: Share, now: int, k: Id)
    requires Confined(view, after, visited, visited', origin, now) && k in view && k in after && after[k] != view[k]
    ensures SameProvenance(view[k], origin) && after[k].relatedUser == view[k].relatedUser && after[k].accessTime == now
  {}

  lemma ChildSource(relation: seq<Edge>, view: View, after: View, parent: Id, child: Id, now: int)
    requires child in view && child in after && parent in view && !SameProvenance(after[child], view[parent])
    requires TakesOverOldest(relation, view, parent, child, after[child], now)
    requires forall k :: k in view && !Inherits(view[k], view[parent]) ==> k in after && after[k] == view[k]
    ensures HasSource(WithoutEdge(relation, Edge(parent, child)), after, child)
  {
    var i :| IsOldestRow(relation, view, parent, child, i)
      && TakesOver(view[child], after[child], view[relation[i].parent], now);
    assert relation[i] in WithoutEdge(relation, Edge(parent, child));
    assert Edge(relation[i].parent, child) == relation[i];
  }

  lemma AnotherRow(relation: seq<Edge>, after: View, k: Id, parent: Id, child: Id)
    requires k in after && HasSource(relation, after, k) && k != child
    ensures HasSource(WithoutEdge(relation, Edge(parent, child)), after, k)
  {
    var p :| Edge(p, k) in relation && p in after && SameProvenance(after[k], after[p]);
    assert Edge(p, k) in WithoutEdge(relation, Edge(parent, child));
  }

  // ---- An object with one parent ------------------------------------------------------------------------

  /** Both are seen, with the same provenance, or neither is. */
  ghost predicate Together(view: View, x: Id, c: Id) {
    (x in view <==> c in view) && (x in view ==> SameProvenance(view[c], view[x]))
  }

  /** The group sees `c` by way of `x` only. */
  ghost predicate IsOnlyParent(relation: seq<Edge>, view: View, x: Id, c: Id) {
    x != c && Edge(x, c) in relation && forall q :: Edge(q, c) in relation && q in view ==> q == x
  }

  /** `c` has not been visited before `x`. */
  ghost predicate InOrder(visited: set<Id>, x: Id, c: Id) {
    c in visited ==> x in visited
  }

  /** A stretch that started elsewhere: visits reach `c` only from `x`. */
  lemma OnlyFromParent(relation: seq<Edge>, view: View, visited: set<Id>, visited': set<Id>, starts: set<Id>, x: Id,
      c: Id)
    requires VisitedFromAbove(relation, view, visited, visited', starts) && visited <= visited'
    requires IsOnlyParent(relation, view, x, c) && InOrder(visited, x, c) && c !in starts
    ensures InOrder(visited', x, c) && (x in visited && c in visited' ==> c in visited)
  {}

  lemma {:induction false} OnlyChildFollows(g: Graph, view: View, visited: set<Id>, y: Id, from: Id, nd: Option<Id>,
      x: Id, c: Id, now: int)
    requires g.Valid() && y in g.objects && visited <= g.objects && Ready(view, from, nd)
    requires IsOnlyParent(g.relation, view, x, c) && Together(view, x, c) && InOrder(visited, x, c) && y != c
    ensures var r := Uninherited(g, view, visited, y, from, nd, now);
      Together(r.view, x, c) && InOrder(r.visited, x, c)
    decreases g.objects - visited, 0
  {
    hide UninheritedAll, FindDevisor, Children, Parents, DeletedOrRemapped, VisitedFromAbove, IsLastSeen;
    UninheritedVisits(g, view, visited, y, from, nd, now);
    var r := Uninherited(g, view, visited, y, from, nd, now);
    OnlyFromParent(g.relation, view, visited, r.visited, {y}, x, c);
    if y !in visited && y in view && Inherits(view[y], view[from]) {
      var d := if nd.Some? then From(nd.value)
        else FindDevisor(Parents(g.relation, y), view, from, view[from], NoDevisor);
      if !d.Keep? {
        var nd', cs := if d.From? then Some(d.q) else None, Children(g.relation, y);
        if y == x {
          ParentHandsDown(g, view, visited + {x}, cs, nd', x, c, now);
        } else {
          assert c !in cs;
          AllOnlyChildFollows(g, view, visited + {y}, cs, y, nd', x, c, now);
        }
      }
    }
  }

  lemma {:induction false} AllOnlyChildFollows(g: Graph, view: View, visited: set<Id>, cs: seq<Id>, y: Id,
      nd: Option<Id>, x: Id, c: Id, now: int)
    requires g.Valid() && y in visited && visited <= g.objects && Ready(view, y, nd)
    requires (forall z :: z in cs ==> z in g.objects) && c !in cs
    requires IsOnlyParent(g.relation, view, x, c) && Together(view, x, c) && InOrder(visited, x, c)
    ensures var r := UninheritedAll(g, view, visited, cs, y, nd, now);
      Together(r.view, x, c) && InOrder(r.visited, x, c)
    decreases g.objects - visited, 1, |cs|
  {
    hide Uninherited, Confined;
    if cs != [] {
      assert cs == [cs[0]] + cs[1..];
      var first := Uninherited(g, view, visited, cs[0], y, nd, now);
      OnlyChildFollows(g, view, visited, cs[0], y, nd, x, c, now);
      StillReady(view, first.view, visited, first.visited, y, nd, now);
      Untouched(view, first.view, visited, first.visited, view[y], now);
      AllOnlyChildFollows(g, first.view, first.visited, cs[1..], y, nd, x, c, now);
    }
  }

  /** The loop below `x` deletes the share of `c`, or has it take over what `x` is about to take over. */
  lemma {:induction false} ParentHandsDown(g: Graph, view: View, visited: set<Id>, cs: seq<Id>, nd: Option<Id>, x: Id,
      c: Id, now: int)
    requires g.Valid() && x in visited && visited <= g.objects && Ready(view, x, nd)
    requires (forall z :: z in cs ==> z in g.objects && Edge(x, z) in g.relation) && c in cs && c !in visited
    requires IsOnlyParent(g.relation, view, x, c) && Together(view, x, c)
    ensures var r := UninheritedAll(g, view, visited, cs, x, nd, now);
      && c in r.visited
      && (nd.None? ==> c !in r.view)
      && (nd.Some? ==> c in r.view && SameProvenance(r.view[c], view[nd.value]))
    decreases g.objects - visited, 1, |cs|
  {
    hide Confined, Children, Parents, IsLastSeen, VisitedFromAbove;
    assert cs == [cs[0]] + cs[1..];
    var first := Uninherited(g, view, visited, cs[0], x, nd, now);
    StillReady(view, first.view, visited, first.visited, x, nd, now);
    Untouched(view, first.view, visited, first.visited, view[x], now);
    if cs[0] == c {
      var rest := UninheritedAll(g, first.view, first.visited, cs[1..], x, nd, now);
      VisitOfOnlyChild(g, view, visited, c, x, nd, now);
      Untouched(first.view, rest.view, first.visited, rest.visited, first.view[x], now);
    } else {
      UninheritedVisits(g, view, visited, cs[0], x, nd, now);
      OnlyFromParent(g.relation, view, visited, first.visited, {cs[0]}, x, c);
      assert c in cs[1..] && c !in first.visited;
      assert IsOnlyParent(g.relation, first.view, x, c);
      ParentHandsDown(g, first.view, first.visited, cs[1..], nd, x, c, now);
    }
  }

  lemma VisitOfOnlyChild(g: Graph, view: View, visited: set<Id>, c: Id, x: Id, nd: Option<Id>, now: int)
    requires g.Valid() && c in g.objects && visited <= g.objects && Ready(view, x, nd) && c !in visited
    requires IsOnlyParent(g.relation, view, x, c) && Together(view, x, c)
    ensures var r := Uninherited(g, view, visited, c, x, nd, now);
      && (nd.None? ==> c !in r.view)
      && (nd.Some? ==> c in r.view && SameProvenance(r.view[c], view[nd.value]))
  {
    hide UninheritedAll, Children, Parents, DeletedOrRemapped, IsLastSeen;
    if nd.Some? {
      var below := UninheritedAll(g, view, visited + {c}, Children(g.relation, c), c, nd, now);
      assert below.view[nd.value] == view[nd.value];
    }
  }

  /**
   Whom the group sees by way of one parent only, with its provenance, goes with that parent: both are gone after an
   unlink, or both are left with one provenance.
   */
  lemma OnlyChildStaysWithParent(g: Graph, view: View, parent: Id, child: Id, x: Id, c: Id, now: int)
    requires g.Valid() && Edge(parent, child) in g.relation && parent in view && c != child
    requires IsOnlyParent(g.relation, view, x, c) && Together(view, x, c)
    ensures Together(Unlinked(g, view, parent, child, now), x, c)
  {
    if parent != child {
      OnlyChildFollows(g, view, {}, child, parent, None, x, c, now);
    }
  }
}
