/**
 `_find_another_devisor` and `uninherit_share` of `mwdb/model/object.py` on one group's view, and
 what an unlink can and cannot do to that view.
 */
module Uninherit {
  import opened Wrappers
  import opened ObjectGraph

  /** The answer of `_find_another_devisor`: the share to remove itself, nothing, or the share of `q`. */
  datatype Devisor = Keep | NoDevisor | From(q: Id)

  /** `q` is the last of `ps` that the group sees, `from` aside. */
  ghost predicate IsLastSeen(ps: seq<Id>, view: View, from: Id, q: Id) {
    q != from && q in view
    && exists i :: 0 <= i < |ps| && ps[i] == q && forall j :: i < j < |ps| && ps[j] != from ==> ps[j] !in view
  }

  lemma LastSeenLater(ps: seq<Id>, view: View, from: Id)
    requires ps != []
    ensures forall q :: IsLastSeen(ps[1..], view, from, q) ==> IsLastSeen(ps, view, from, q)
    ensures ps[0] != from && ps[0] in view && (forall p :: p in ps[1..] && p != from ==> p !in view) ==>
      IsLastSeen(ps, view, from, ps[0])
  {
    forall q | IsLastSeen(ps[1..], view, from, q) ensures IsLastSeen(ps, view, from, q) {
      var i :| 0 <= i < |ps[1..]| && ps[1..][i] == q
        && forall j :: i < j < |ps[1..]| && ps[1..][j] != from ==> ps[1..][j] !in view;
      assert ps[i + 1] == q && forall j :: i + 1 < j < |ps| ==> ps[j] == ps[1..][j - 1];
    }
    assert forall j :: 0 < j < |ps| ==> ps[j] in ps[1..];
  }

  /** The loop of `_find_another_devisor` over the parents `ps`, `found` being the best so far. */
  function FindDevisor(ps: seq<Id>, view: View, from: Id, origin: Share, found: Devisor): (d: Devisor)
    requires !found.Keep?
    ensures d.Keep? <==> exists p :: p in ps && p != from && p in view && Inherits(view[p], origin)
    ensures d.From? ==> d == found || (d.q in ps && d.q != from && d.q in view && !Inherits(view[d.q], origin))
    ensures d.From? ==>
      IsLastSeen(ps, view, from, d.q) || (d == found && forall p :: p in ps && p != from ==> p !in view)
    ensures d.NoDevisor? <==> found.NoDevisor? && forall p :: p in ps && p != from ==> p !in view
  {
    if ps == [] then found
    else
      assert ps == [ps[0]] + ps[1..];
      LastSeenLater(ps, view, from);
      if ps[0] == from || ps[0] !in view then FindDevisor(ps[1..], view, from, origin, found)
      else if Inherits(view[ps[0]], origin) then Keep
      else FindDevisor(ps[1..], view, from, origin, From(ps[0]))
  }

  /** A devisor handed down must be a share with another provenance. */
  ghost predicate Ready(view: View, from: Id, nd: Option<Id>) {
    from in view && (nd.Some? ==> nd.value in view && !Inherits(view[nd.value], view[from]))
  }

  /** What a share becomes that takes over a devisor's provenance: it keeps its user. */
  predicate TakesOver(was: Share, after: Share, devisor: Share, now: int) {
    && after.reason == devisor.reason && after.relatedObject == devisor.relatedObject
    && after.relatedUser == was.relatedUser && after.accessTime == now
  }

  /** `k` lost its share, or took over the provenance of a share that did not come from the origin. */
  ghost predicate DeletedOrRemapped(was: View, after: View, k: Id, origin: Share, now: int)
    requires k in was
  {
    k in after ==> exists q :: q in was && !Inherits(was[q], origin) && TakesOver(was[k], after[k], was[q], now)
  }

  /**
   From `was` to `after` only inherited shares of newly visited objects were touched, and only in the two
   allowed ways.
   */
  ghost predicate Confined(was: View, after: View, visited: set<Id>, visited': set<Id>, origin: Share, now: int) {
    && visited <= visited'
    && after.Keys <= was.Keys
    && forall k :: k in was && (k !in after || after[k] != was[k]) ==>
        k in visited' && k !in visited && Inherits(was[k], origin) && DeletedOrRemapped(was, after, k, origin, now)
  }

  lemma ConfinedTrans(a: View, b: View, c: View, v0: set<Id>, v1: set<Id>, v2: set<Id>, origin: Share, now: int)
    requires Confined(a, b, v0, v1, origin, now) && Confined(b, c, v1, v2, origin, now)
    ensures Confined(a, c, v0, v2, origin, now)
  {
    forall k | k in a && (k !in c || c[k] != a[k])
      ensures k in v2 && k !in v0 && Inherits(a[k], origin) && DeletedOrRemapped(a, c, k, origin, now)
    {
      if k in b && b[k] == a[k] && k in c {
        var q :| q in b && !Inherits(b[q], origin) && TakesOver(b[k], c[k], b[q], now);
        if b[q] != a[q] {
          var q' :| q' in a && !Inherits(a[q'], origin) && TakesOver(a[q], b[q], a[q'], now);
          assert TakesOver(a[k], c[k], a[q'], now);
        }
      }
    }
  }

  /** One view and the set of visited objects. */
  datatype Progress = Progress(view: View, visited: set<Id>)

  /**
   `x.uninherit_share(share of `from`, new_devisor = share of `nd`, visited)`. The visited set is the
   one object the whole recursion shares; a devisor is passed as a reference and read when it is used.
   */
  function Uninherited(g: Graph, view: View, visited: set<Id>, x: Id, from: Id, nd: Option<Id>, now: int): (r: Progress)
    requires g.Valid() && x in g.objects && visited <= g.objects && Ready(view, from, nd)
    ensures x in r.visited && r.visited <= g.objects
    ensures Confined(view, r.view, visited, r.visited, view[from], now)
    decreases g.objects - visited, 0
  {
    if x in visited then Progress(view, visited)
    else if x !in view || !Inherits(view[x], view[from]) then Progress(view, visited + {x})
    else
      var d := if nd.Some? then From(nd.value)
        else FindDevisor(Parents(g.relation, x), view, from, view[from], NoDevisor);
      if d.Keep? then Progress(view, visited + {x})
      else
        var below := UninheritedAll(g, view, visited + {x}, Children(g.relation, x), x,
          if d.From? then Some(d.q) else None, now);
        assert below.view[x] == view[x];
        if d.NoDevisor? then Progress(Deleted(below.view, x), below.visited)
        else
          assert below.view[d.q] == view[d.q];
          var r := below.view[x := MakeInherited(below.view[x], below.view[d.q], now)];
          Progress(r, below.visited)
  }

  /** The loop of `uninherit_share` over the children `cs` of `x`. */
  function UninheritedAll(g: Graph, view: View, visited: set<Id>, cs: seq<Id>, x: Id, nd: Option<Id>,
      now: int): (r: Progress)
    requires g.Valid() && x in visited && visited <= g.objects && Ready(view, x, nd)
    requires forall c :: c in cs ==> c in g.objects
    ensures visited <= r.visited <= g.objects
    ensures Confined(view, r.view, visited, r.visited, view[x], now)
    decreases g.objects - visited, 1, |cs|
  {
    if cs == [] then Progress(view, visited)
    else
      assert cs == [cs[0]] + cs[1..];
      var first := Uninherited(g, view, visited, cs[0], x, nd, now);
      assert first.view[x] == view[x];
      var rest := UninheritedAll(g, first.view, first.visited, cs[1..], x, nd, now);
      ConfinedTrans(view, first.view, rest.view, visited, first.visited, rest.visited, view[x], now);
      rest
  }

  /** One group's view after `remove_parent`; `g` still holds the row. */
  function Unlinked(g: Graph, view: View, parent: Id, child: Id, now: int): View
    requires g.Valid() && child in g.objects
  {
    if parent in view && parent != child then Uninherited(g, view, {}, child, parent, None, now).view else view
  }

  /**
   Whoever lost its share has no parent left that still sees it: only the object the removal came from
   may, and only for the one object the removal started at.
   */
  ghost predicate Orphaned(relation: seq<Edge>, was: View, after: View, x: Id, from: Id) {
    forall e :: e in relation && e.child in was && e.child !in after && e.parent in after ==>
      e.child == x && e.parent == from
  }

  /** The key step: a share goes only when every parent's share is gone or about to go. */
  lemma {:induction false} DeletedAreOrphaned(g: Graph, view: View, visited: set<Id>, x: Id, from: Id, nd: Option<Id>,
      now: int)
    requires g.Valid() && x in g.objects && visited <= g.objects && Ready(view, from, nd)
    ensures var r := Uninherited(g, view, visited, x, from, nd, now);
      && Orphaned(g.relation, view, r.view, x, from)
      && (nd.Some? ==> r.view.Keys == view.Keys)
    decreases g.objects - visited, 0
  {
    if x !in visited && x in view && Inherits(view[x], view[from]) {
      var d := if nd.Some? then From(nd.value)
        else FindDevisor(Parents(g.relation, x), view, from, view[from], NoDevisor);
      if !d.Keep? {
        var nd' := if d.From? then Some(d.q) else None;
        AllDeletedAreOrphaned(g, view, visited + {x}, Children(g.relation, x), x, nd', now);
      }
    }
  }

  lemma {:induction false} AllDeletedAreOrphaned(g: Graph, view: View, visited: set<Id>, cs: seq<Id>, x: Id,
      nd: Option<Id>, now: int)
    requires g.Valid() && x in visited && visited <= g.objects && Ready(view, x, nd)
    requires forall c :: c in cs ==> c in g.objects
    ensures var r := UninheritedAll(g, view, visited, cs, x, nd, now);
      && (forall e :: e in g.relation && e.child in view && e.child !in r.view && e.parent in r.view ==> e.parent == x)
      && (nd.Some? ==> r.view.Keys == view.Keys)
    decreases g.objects - visited, 1, |cs|
  {
    if cs != [] {
      assert cs == [cs[0]] + cs[1..];
      var first := Uninherited(g, view, visited, cs[0], x, nd, now);
      DeletedAreOrphaned(g, view, visited, cs[0], x, nd, now);
      AllDeletedAreOrphaned(g, first.view, first.visited, cs[1..], x, nd, now);
    }
  }

  /** Unlinking keeps the view closed under all the edges that remain, on any graph. */
  lemma UnlinkKeepsClosed(g: Graph, view: View, parent: Id, child: Id, now: int)
    requires g.Valid() && child in g.objects
    requires Closed(g.relation, view)
    ensures Closed(WithoutEdge(g.relation, Edge(parent, child)), Unlinked(g, view, parent, child, now))
  {
    if parent in view && parent != child {
      DeletedAreOrphaned(g, view, {}, child, parent, None, now);
    }
  }

  /** Every newly visited object is the start or a child of a newly visited object that the group sees. */
  ghost predicate VisitedFromAbove(relation: seq<Edge>, view: View, visited: set<Id>, visited': set<Id>,
      starts: set<Id>) {
    forall y :: y in visited' && y !in visited && y !in starts ==>
      exists q :: q in visited' && q !in visited && q in view && Edge(q, y) in relation
  }

  lemma {:induction false} UninheritedVisits(g: Graph, view: View, visited: set<Id>, x: Id, from: Id, nd: Option<Id>,
      now: int)
    requires g.Valid() && x in g.objects && visited <= g.objects && Ready(view, from, nd)
    ensures var r := Uninherited(g, view, visited, x, from, nd, now);
      VisitedFromAbove(g.relation, view, visited, r.visited, {x})
    decreases g.objects - visited, 0
  {
    if x !in visited && x in view && Inherits(view[x], view[from]) {
      var d := if nd.Some? then From(nd.value)
        else FindDevisor(Parents(g.relation, x), view, from, view[from], NoDevisor);
      if !d.Keep? {
        var nd' := if d.From? then Some(d.q) else None;
        var cs := Children(g.relation, x);
        UninheritedAllVisits(g, view, visited + {x}, cs, x, nd', now);
        var r := Uninherited(g, view, visited, x, from, nd, now);
        assert r.visited == UninheritedAll(g, view, visited + {x}, cs, x, nd', now).visited;
        forall y | y in r.visited && y !in visited && y != x
          ensures exists q :: q in r.visited && q !in visited && q in view && Edge(q, y) in g.relation
        {
          if y in cs {
            assert Edge(x, y) in g.relation;
          }
        }
      }
    }
  }

  lemma {:induction false} UninheritedAllVisits(g: Graph, view: View, visited: set<Id>, cs: seq<Id>, x: Id,
      nd: Option<Id>, now: int)
    requires g.Valid() && x in visited && visited <= g.objects && Ready(view, x, nd)
    requires forall c :: c in cs ==> c in g.objects
    ensures var r := UninheritedAll(g, view, visited, cs, x, nd, now);
      VisitedFromAbove(g.relation, view, visited, r.visited, set c | c in cs)
    decreases g.objects - visited, 1, |cs|
  {
    if cs != [] {
      assert cs == [cs[0]] + cs[1..];
      var first := Uninherited(g, view, visited, cs[0], x, nd, now);
      UninheritedVisits(g, view, visited, cs[0], x, nd, now);
      UninheritedAllVisits(g, first.view, first.visited, cs[1..], x, nd, now);
      var r := UninheritedAll(g, first.view, first.visited, cs[1..], x, nd, now);
      forall y | y in r.visited && y !in visited && y !in cs
        ensures exists q :: q in r.visited && q !in visited && q in view && Edge(q, y) in g.relation
      {
        if y in first.visited {
          var q :| q in first.visited && q !in visited && q in view && Edge(q, y) in g.relation;
        } else {
          var q :| q in r.visited && q !in first.visited && q in first.view && Edge(q, y) in g.relation;
        }
      }
    }
  }

  /**
   Each object of `path` but the first is seen, inherits from the origin, and has no other seen parent than the
   one before it.
   */
  ghost predicate SoleHeirs(relation: seq<Edge>, view: View, path: seq<Id>, origin: Share) {
    forall i :: 0 < i < |path| ==>
      && Edge(path[i - 1], path[i]) in relation
      && path[i] in view && Inherits(view[path[i]], origin)
      && forall q :: Edge(q, path[i]) in relation && q in view ==> q == path[i - 1]
  }

  lemma SoleHeirsTail(relation: seq<Edge>, view: View, path: seq<Id>, origin: Share)
    requires SoleHeirs(relation, view, path, origin) && |path| > 0
    ensures SoleHeirs(relation, view, path[1..], origin)
  {
    var tail := path[1..];
    forall i | 0 < i < |tail|
      ensures Edge(tail[i - 1], tail[i]) in relation && tail[i] in view && Inherits(view[tail[i]], origin)
      ensures forall q :: Edge(q, tail[i]) in relation && q in view ==> q == tail[i - 1]
    {
      assert tail[i] == path[i + 1] && tail[i - 1] == path[i];
    }
  }

  /** No visit reaches the objects after the first of a chain of sole heirs except through that first object. */
  lemma {:induction false} ChainStaysUnvisited(relation: seq<Edge>, view: View, path: seq<Id>, origin: Share,
                                               visited: set<Id>, visited': set<Id>, start: Id, k: nat)
    requires SoleHeirs(relation, view, path, origin) && |path| > 1 && path[0] in visited
    requires forall i :: 0 < i < |path| ==> path[i] !in visited
    requires VisitedFromAbove(relation, view, visited, visited', {start})
    requires Edge(path[0], start) in relation && path[0] in view && start != path[1]
    requires 0 < k < |path|
    ensures path[k] !in visited'
    decreases k
  {
    assert Edge(path[0], path[k]) in relation ==> path[k - 1] == path[0];
    if path[k] in visited' {
      if path[k] == start {
        assert false;
      } else {
        var q :| q in visited' && q !in visited && q in view && Edge(q, path[k]) in relation;
        assert q == path[k - 1];
        if k > 1 {
          ChainStaysUnvisited(relation, view, path, origin, visited, visited', start, k - 1);
        }
        assert false;
      }
    }
  }

  /** The views before and after agree on a chain that was not visited. */
  lemma ChainSurvives(relation: seq<Edge>, view: View, after: View, visited: set<Id>, visited': set<Id>, path: seq<Id>,
                      origin: Share, now: int)
    requires SoleHeirs(relation, view, path, origin)
    requires Confined(view, after, visited, visited', origin, now)
    requires forall i :: 0 < i < |path| ==> path[i] !in visited'
    ensures SoleHeirs(relation, after, path, origin)
  {
    forall i | 0 < i < |path|
      ensures Edge(path[i - 1], path[i]) in relation && path[i] in after && Inherits(after[path[i]], origin)
      ensures forall q :: Edge(q, path[i]) in relation && q in after ==> q == path[i - 1]
    {
      assert path[i] in view;
    }
  }

  /** A chain of sole heirs below `from` is removed as a whole. */
  lemma {:induction false} SoleHeirsAreRemoved(g: Graph, view: View, visited: set<Id>, from: Id, path: seq<Id>,
      now: int)
    requires g.Valid() && visited <= g.objects && from in view
    requires |path| > 1 && path[0] == from && path[1] in g.objects
    requires SoleHeirs(g.relation, view, path, view[from])
    requires forall i :: 0 < i < |path| ==> path[i] !in visited && (i > 1 ==> path[i] != path[1])
    ensures path[|path| - 1] !in Uninherited(g, view, visited, path[1], from, None, now).view
    decreases g.objects - visited, 0
  {
    hide UninheritedAll, Children, SoleHeirs;
    var x := path[1];
    SoleHeirHasNoDevisor(g.relation, view, path);
    if |path| > 2 {
      SoleHeirsOfHeir(g.relation, view, path);
      assert path[2] in Children(g.relation, x) by { ChainLeaves(g.relation, view, path, view[from]); }
      SoleHeirsAreRemovedBelow(g, view, visited + {x}, Children(g.relation, x), path[1..], now);
    }
  }

  lemma SoleHeirHasNoDevisor(relation: seq<Edge>, view: View, path: seq<Id>)
    requires |path| > 1 && path[0] in view && SoleHeirs(relation, view, path, view[path[0]])
    ensures path[1] in view && Inherits(view[path[1]], view[path[0]])
    ensures FindDevisor(Parents(relation, path[1]), view, path[0], view[path[0]], NoDevisor).NoDevisor?
  {}

  lemma SoleHeirsOfHeir(relation: seq<Edge>, view: View, path: seq<Id>)
    requires |path| > 1 && path[0] in view && SoleHeirs(relation, view, path, view[path[0]])
    ensures path[1] in view && SoleHeirs(relation, view, path[1..], view[path[1]])
  {
    SoleHeirsTail(relation, view, path, view[path[0]]);
  }

  lemma ChainLeaves(relation: seq<Edge>, view: View, path: seq<Id>, origin: Share)
    requires SoleHeirs(relation, view, path, origin) && |path| > 2
    ensures path[2] in Children(relation, path[1])
  {
    assert Edge(path[1], path[2]) in relation;
  }

  /** No object occurs twice on a chain of sole heirs whose first object does not occur again. */
  lemma {:induction false} ChainRepeats(relation: seq<Edge>, view: View, path: seq<Id>, origin: Share, i: nat)
    requires SoleHeirs(relation, view, path, origin)
    requires 1 < i < |path| && path[i] == path[1] && path[0] in view
    ensures exists j :: 0 < j < |path| && path[j] == path[0]
  {
    assert Edge(path[0], path[1]) in relation;
    assert path[i - 1] == path[0];
  }

  lemma {:induction false} SoleHeirsAreRemovedBelow(g: Graph, view: View, visited: set<Id>, cs: seq<Id>, path: seq<Id>,
      now: int)
    requires g.Valid() && visited <= g.objects && |path| > 1 && path[0] in visited && path[0] in view
    requires forall c :: c in cs ==> c in g.objects && Edge(path[0], c) in g.relation
    requires path[1] in cs
    requires SoleHeirs(g.relation, view, path, view[path[0]])
    requires forall i :: 0 < i < |path| ==> path[i] !in visited
    ensures path[|path| - 1] !in UninheritedAll(g, view, visited, cs, path[0], None, now).view
    decreases g.objects - visited, 1, |cs|
  {
    var x, origin := path[0], view[path[0]];
    assert cs == [cs[0]] + cs[1..];
    var first := Uninherited(g, view, visited, cs[0], x, None, now);
    if cs[0] == path[1] {
      forall i | 1 < i < |path| ensures path[i] != path[1] {
        if path[i] == path[1] {
          ChainRepeats(g.relation, view, path, origin, i);
        }
      }
      SoleHeirsAreRemoved(g, view, visited, x, path, now);
    } else {
      UninheritedVisits(g, view, visited, cs[0], x, None, now);
      forall i | 0 < i < |path| ensures path[i] !in first.visited {
        ChainStaysUnvisited(g.relation, view, path, origin, visited, first.visited, cs[0], i);
      }
      ChainSurvives(g.relation, view, first.view, visited, first.visited, path, origin, now);
      assert first.view[x] == view[x];
      SoleHeirsAreRemovedBelow(g, first.view, first.visited, cs[1..], path, now);
    }
  }

  // ---- Who loses its share ---------------------------------------------------------------------------

  /** `path` is a chain of sole heirs that starts with the link. */
  ghost predicate IsHeirChain(relation: seq<Edge>, view: View, parent: Id, child: Id, path: seq<Id>) {
    |path| > 1 && path[0] == parent && parent in view && path[1] == child
      && SoleHeirs(relation, view, path, view[parent])
  }

  /**
   The group sees `y` by way of the link only: a chain of inherited shares, none with another seen parent, leads
   there.
   */
  ghost predicate HangsOn(relation: seq<Edge>, view: View, parent: Id, child: Id, y: Id) {
    exists path :: IsHeirChain(relation, view, parent, child, path) && path[|path| - 1] == y
  }

  /** A chain may come back to the link; cut off, it does not. */
  lemma {:induction false} ShortChain(relation: seq<Edge>, view: View, parent: Id, child: Id, path: seq<Id>)
    returns (short: seq<Id>)
    requires IsHeirChain(relation, view, parent, child, path)
    ensures IsHeirChain(relation, view, parent, child, short) && short[|short| - 1] == path[|path| - 1]
    ensures forall i :: 1 < i < |short| ==> short[i] != child
    decreases |path|
  {
    short := path;
    if j :| 1 < j < |path| && path[j] == child {
      assert Edge(path[j - 1], path[j]) in relation && Edge(path[0], path[1]) in relation;
      assert path[j - 1] == parent;
      var tail := path[j - 1..];
      forall i | 0 < i < |tail|
        ensures Edge(tail[i - 1], tail[i]) in relation && tail[i] in view && Inherits(view[tail[i]], view[parent])
        ensures forall q :: Edge(q, tail[i]) in relation && q in view ==> q == tail[i - 1]
      {
        assert tail[i] == path[i + j - 1] && tail[i - 1] == path[i + j - 2];
      }
      short := ShortChain(relation, view, parent, child, tail);
    }
  }

  lemma UnlinkRemovesSoleHeirs(g: Graph, view: View, parent: Id, child: Id, y: Id, now: int)
    requires g.Valid() && child in g.objects && parent != child && HangsOn(g.relation, view, parent, child, y)
    ensures y !in Unlinked(g, view, parent, child, now)
  {
    hide SoleHeirs;
    var path :| IsHeirChain(g.relation, view, parent, child, path) && path[|path| - 1] == y;
    var short := ShortChain(g.relation, view, parent, child, path);
    SoleHeirsAreRemoved(g, view, {}, parent, short, now);
  }

  /** What an unlink relies on: whoever is gone hung on the link and has had all its children visited. */
  ghost predicate Leaving(relation: seq<Edge>, was: View, parent: Id, child: Id, view: View, visited: set<Id>) {
    && view.Keys <= was.Keys
    && (forall k :: k in was && k !in visited ==> k in view && view[k] == was[k])
    && (forall e :: e in relation && e.parent in was && e.parent !in view ==> e.child in visited)
    && (forall y :: y in was && y !in view ==> HangsOn(relation, was, parent, child, y))
  }

  /** `x` is the child, or a child of an object that hangs on the link. */
  ghost predicate NextInChain(relation: seq<Edge>, was: View, parent: Id, child: Id, from: Id, x: Id) {
    Edge(from, x) in relation && ((from == parent && x == child) || HangsOn(relation, was, parent, child, from))
  }

  /** If no other parent of `x` is seen now, none was seen: it would be gone, and `x` visited. */
  lemma HeirHangsOn(relation: seq<Edge>, was: View, parent: Id, child: Id, view: View, visited: set<Id>, from: Id,
      x: Id)
    requires Leaving(relation, was, parent, child, view, visited) && NextInChain(relation, was, parent, child, from, x)
    requires parent in was && from in was && from in view && view[from] == was[from] && x !in visited && x in view
    requires Inherits(view[x], view[from]) && forall p :: Edge(p, x) in relation && p != from ==> p !in view
    ensures HangsOn(relation, was, parent, child, x)
  {
    assert forall q :: Edge(q, x) in relation && q in was ==> q == from;
    if from == parent && x == child {
      assert IsHeirChain(relation, was, parent, child, [parent, child]);
    } else {
      var path :| IsHeirChain(relation, was, parent, child, path) && path[|path| - 1] == from;
      var longer := path + [x];
      assert Inherits(was[from], was[parent]);
      forall i | 0 < i < |longer|
        ensures Edge(longer[i - 1], longer[i]) in relation && longer[i] in was && Inherits(was[longer[i]], was[parent])
        ensures forall q :: Edge(q, longer[i]) in relation && q in was ==> q == longer[i - 1]
      {}
      assert IsHeirChain(relation, was, parent, child, longer) && longer[|longer| - 1] == x;
    }
  }

  lemma {:induction false} GoneHangsOn(g: Graph, was: View, parent: Id, child: Id, view: View, visited: set<Id>, x: Id,
      from: Id, now: int)
    requires g.Valid() && x in g.objects && visited <= g.objects && parent in was && from in was && from in view
      && view[from] == was[from]
    requires Leaving(g.relation, was, parent, child, view, visited)
      && NextInChain(g.relation, was, parent, child, from, x)
    ensures var r := Uninherited(g, view, visited, x, from, None, now);
      Leaving(g.relation, was, parent, child, r.view, r.visited)
    decreases g.objects - visited, 0
  {
    hide HangsOn, UninheritedAll, Children, Parents;
    if x !in visited && x in view && Inherits(view[x], view[from]) {
      var d := FindDevisor(Parents(g.relation, x), view, from, view[from], NoDevisor);
      if !d.Keep? {
        var nd, cs := if d.From? then Some(d.q) else None, Children(g.relation, x);
        var below := UninheritedAll(g, view, visited + {x}, cs, x, nd, now);
        if nd.Some? {
          AllDeletedAreOrphaned(g, view, visited + {x}, cs, x, nd, now);
        } else {
          HeirHangsOn(g.relation, was, parent, child, view, visited, from, x);
          AllGoneHangOn(g, was, parent, child, view, visited + {x}, cs, x, now);
        }
      }
    }
  }

  lemma {:induction false} AllGoneHangOn(g: Graph, was: View, parent: Id, child: Id, view: View, visited: set<Id>,
      cs: seq<Id>, x: Id, now: int)
    requires g.Valid() && x in visited && visited <= g.objects && parent in was && x in was && x in view
      && view[x] == was[x]
    requires forall c :: c in cs ==> c in g.objects && Edge(x, c) in g.relation
    requires Leaving(g.relation, was, parent, child, view, visited) && HangsOn(g.relation, was, parent, child, x)
    ensures var r := UninheritedAll(g, view, visited, cs, x, None, now);
      Leaving(g.relation, was, parent, child, r.view, r.visited) && forall c :: c in cs ==> c in r.visited
    decreases g.objects - visited, 1, |cs|
  {
    hide HangsOn, Uninherited, Leaving;
    if cs != [] {
      assert cs == [cs[0]] + cs[1..];
      var first := Uninherited(g, view, visited, cs[0], x, None, now);
      GoneHangsOn(g, was, parent, child, view, visited, cs[0], x, now);
      AllGoneHangOn(g, was, parent, child, first.view, first.visited, cs[1..], x, now);
    }
  }

  /** Unlinking is exact: an object loses its share iff it hangs on the link by a chain of sole heirs. */
  lemma UnlinkRemovesExactly(g: Graph, view: View, parent: Id, child: Id, y: Id, now: int)
    requires g.Valid() && Edge(parent, child) in g.relation && parent in view && parent != child && y in view
    ensures y !in Unlinked(g, view, parent, child, now) <==> HangsOn(g.relation, view, parent, child, y)
  {
    hide HangsOn;
    if HangsOn(g.relation, view, parent, child, y) {
      UnlinkRemovesSoleHeirs(g, view, parent, child, y, now);
    }
    GoneHangsOn(g, view, parent, child, view, {}, child, parent, now);
  }

  /** The sharing guide's rule: the group sees its uploads and what descends from them, and that only. */
  ghost predicate IsJustified(relation: seq<Edge>, seen: set<Id>, uploads: set<Id>, y: Id) {
    exists r :: r in uploads && r in seen && Reaches(relation, r, y)
  }

  /**
   When the rule holds after an unlink, as a condition on the view before: whatever is no longer reached from an
   upload that stays has to hang on the link.
   */
  lemma NothingUnjustifiedIff(g: Graph, view: View, parent: Id, child: Id, uploads: set<Id>, now: int)
    requires g.Valid() && Edge(parent, child) in g.relation && parent in view && parent != child
    ensures var rest := WithoutEdge(g.relation, Edge(parent, child));
      var stay := set y | y in view && !HangsOn(g.relation, view, parent, child, y);
      (forall y :: y in Unlinked(g, view, parent, child, now) ==>
         IsJustified(rest, Unlinked(g, view, parent, child, now).Keys, uploads, y))
      <==> (forall y :: y in view && !IsJustified(rest, stay, uploads, y) ==>
        HangsOn(g.relation, view, parent, child, y))
  {
    hide HangsOn, IsJustified;
    var stay := set y | y in view && !HangsOn(g.relation, view, parent, child, y);
    UnlinkIsConfined(g, view, parent, child, now);
    forall y | y in view ensures y in Unlinked(g, view, parent, child, now) <==> y in stay {
      UnlinkRemovesExactly(g, view, parent, child, y, now);
    }
    assert Unlinked(g, view, parent, child, now).Keys == stay;
  }

  /**
   Unlinking is confined: no share appears, and a share that changes belongs to the child or a
   descendant of it, has the provenance of the parent's share, and is deleted or takes over the
   provenance of a share that had another one.
   */
  lemma UnlinkIsConfined(g: Graph, view: View, parent: Id, child: Id, now: int)
    requires g.Valid() && child in g.objects && parent in view
    ensures var after := Unlinked(g, view, parent, child, now);
      && after.Keys <= view.Keys
      && forall k :: k in view && (k !in after || after[k] != view[k]) ==>
          Reaches(g.relation, child, k) && Inherits(view[k], view[parent])
            && DeletedOrRemapped(view, after, k, view[parent], now)
  {
    if parent != child {
      var r := Uninherited(g, view, {}, child, parent, None, now);
      UninheritedReaches(g, view, {}, child, parent, None, now);
      assert Confined(view, r.view, {}, r.visited, view[parent], now);
    }
  }

  lemma ReachesSelf(relation: seq<Edge>, x: Id)
    ensures Reaches(relation, x, x)
  {
    assert IsPath(relation, [x], x, x);
  }

  lemma ReachesFrom(relation: seq<Edge>, x: Id, c: Id, y: Id)
    requires Edge(x, c) in relation && Reaches(relation, c, y)
    ensures Reaches(relation, x, y)
  {
    var path :| IsPath(relation, path, c, y);
    assert IsPath(relation, [x] + path, x, y);
  }

  lemma {:induction false} UninheritedReaches(g: Graph, view: View, visited: set<Id>, x: Id, from: Id, nd: Option<Id>,
      now: int)
    requires g.Valid() && x in g.objects && visited <= g.objects && Ready(view, from, nd)
    ensures forall y :: y in Uninherited(g, view, visited, x, from, nd, now).visited && y !in visited ==>
      Reaches(g.relation, x, y)
    decreases g.objects - visited, 0
  {
    ReachesSelf(g.relation, x);
    if x !in visited && x in view && Inherits(view[x], view[from]) {
      var d := if nd.Some? then From(nd.value)
        else FindDevisor(Parents(g.relation, x), view, from, view[from], NoDevisor);
      if !d.Keep? {
        UninheritedAllReaches(g, view, visited + {x}, Children(g.relation, x), x, if d.From? then Some(d.q) else None,
          now);
      }
    }
  }

  lemma {:induction false} UninheritedAllReaches(g: Graph, view: View, visited: set<Id>, cs: seq<Id>, x: Id,
      nd: Option<Id>, now: int)
    requires g.Valid() && x in visited && visited <= g.objects && Ready(view, x, nd)
    requires forall c :: c in cs ==> c in g.objects && Edge(x, c) in g.relation
    ensures forall y :: y in UninheritedAll(g, view, visited, cs, x, nd, now).visited && y !in visited ==>
      Reaches(g.relation, x, y)
    decreases g.objects - visited, 1, |cs|
  {
    if cs != [] {
      assert cs == [cs[0]] + cs[1..];
      var first := Uninherited(g, view, visited, cs[0], x, nd, now);
      UninheritedReaches(g, view, visited, cs[0], x, nd, now);
      UninheritedAllReaches(g, first.view, first.visited, cs[1..], x, nd, now);
      forall y | y in first.visited && y !in visited ensures Reaches(g.relation, x, y) {
        ReachesFrom(g.relation, x, cs[0], y);
      }
    }
  }

  /** Row `i` is the oldest one that makes an object other than `from` that the group sees a parent of `x`. */
  ghost predicate IsOldestRow(relation: seq<Edge>, view: View, from: Id, x: Id, i: int) {
    && 0 <= i < |relation| && relation[i].child == x && relation[i].parent != from && relation[i].parent in view
    && forall j :: i < j < |relation| && relation[j].child == x && relation[j].parent != from ==>
        relation[j].parent !in view
  }

  lemma RowLater(relation: seq<Edge>, view: View, from: Id, x: Id, i: int)
    requires relation != [] && IsOldestRow(relation[1..], view, from, x, i)
    ensures IsOldestRow(relation, view, from, x, i + 1) && relation[i + 1] == relation[1..][i]
  {
    assert forall j :: 0 < j < |relation| ==> relation[j] == relation[1..][j - 1];
  }

  /** If the last one that is seen is none of the others, it is the first. */
  lemma FirstIsLast(p: Id, rest: seq<Id>, view: View, from: Id, q: Id)
    requires IsLastSeen([p] + rest, view, from, q) && !IsLastSeen(rest, view, from, q)
    ensures q == p && q != from && q in view && forall r :: r in rest && r != from ==> r !in view
  {
    var ps := [p] + rest;
    var k :| 0 <= k < |ps| && ps[k] == q && forall j :: k < j < |ps| && ps[j] != from ==> ps[j] !in view;
    assert forall j :: 0 <= j < |rest| ==> rest[j] == ps[j + 1];
  }

  /** Parents are listed newest first, so the last one that is seen has the oldest row. */
  lemma {:induction false} OldestRow(relation: seq<Edge>, view: View, from: Id, x: Id, q: Id)
    requires IsLastSeen(Parents(relation, x), view, from, q)
    ensures exists i :: IsOldestRow(relation, view, from, x, i) && relation[i].parent == q
  {
    assert Parents(relation, x) != [];
    var rest, tail := Parents(relation[1..], x), relation[1..];
    hide IsLastSeen;
    if IsLastSeen(rest, view, from, q) {
      OldestRow(tail, view, from, x, q);
      var i :| IsOldestRow(tail, view, from, x, i) && tail[i].parent == q;
      RowLater(relation, view, from, x, i);
    } else {
      FirstIsLast(relation[0].parent, rest, view, from, q);
      FirstRow(relation, view, from, x);
    }
  }

  lemma FirstRow(relation: seq<Edge>, view: View, from: Id, x: Id)
    requires relation != [] && relation[0].child == x && relation[0].parent != from && relation[0].parent in view
    requires forall p :: p in Parents(relation[1..], x) && p != from ==> p !in view
    ensures IsOldestRow(relation, view, from, x, 0)
  {
    forall j | 0 < j < |relation| && relation[j].child == x && relation[j].parent != from
      ensures relation[j].parent !in view
    {
      assert relation[1..][j - 1] == Edge(relation[j].parent, x);
    }
  }

  /** What the unlink does to the child's own share, by the answer of the devisor's search. */
  lemma ChildByDevisor(g: Graph, view: View, parent: Id, child: Id, now: int)
    requires g.Valid() && child in g.objects && parent in view && parent != child
    ensures var after := Unlinked(g, view, parent, child, now);
      var d := FindDevisor(Parents(g.relation, child), view, parent, view[parent], NoDevisor);
      if child !in view || !Inherits(view[child], view[parent]) || d.Keep? then after == view
      else if d.NoDevisor? then child !in after
      else child in after && d.q in view && TakesOver(view[child], after[child], view[d.q], now)
  {
    hide UninheritedAll, FindDevisor, Children, Parents, DeletedOrRemapped, IsLastSeen;
    if child in view && Inherits(view[child], view[parent]) {
      var d := FindDevisor(Parents(g.relation, child), view, parent, view[parent], NoDevisor);
      if d.From? {
        var below := UninheritedAll(g, view, {child}, Children(g.relation, child), child, Some(d.q), now);
        assert below.view[d.q] == view[d.q];
      }
    }
  }

  /** The share afterwards takes over from the parent with the oldest row. */
  ghost predicate TakesOverOldest(relation: seq<Edge>, view: View, parent: Id, child: Id, after: Share, now: int)
    requires child in view
  {
    exists i :: IsOldestRow(relation, view, parent, child, i)
      && TakesOver(view[child], after, view[relation[i].parent], now)
  }

  ghost predicate SameProvenance(a: Share, b: Share) {
    a.reason == b.reason && a.relatedObject == b.relatedObject
  }

  /** What becomes of the child itself, case by case. */
  lemma ChildAfterUnlink(g: Graph, view: View, parent: Id, child: Id, now: int)
    requires g.Valid() && child in g.objects && parent in view && parent != child
    ensures var after := Unlinked(g, view, parent, child, now);
      var others := set q | Edge(q, child) in g.relation && q != parent && q in view :: q;
      if child !in view || !SameProvenance(view[child], view[parent]) then after == view
      else if exists q :: q in others && SameProvenance(view[q], view[parent]) then after == view
      else if others == {} then child !in after
      else child in after && TakesOverOldest(g.relation, view, parent, child, after[child], now)
  {
    hide FindDevisor, Unlinked, Children, Parents, IsOldestRow, IsLastSeen;
    ChildByDevisor(g, view, parent, child, now);
    if child in view && Inherits(view[child], view[parent]) {
      var ps := Parents(g.relation, child);
      var d := FindDevisor(ps, view, parent, view[parent], NoDevisor);
      var others := set q | Edge(q, child) in g.relation && q != parent && q in view :: q;
      assert forall q :: q in others <==> q in ps && q != parent && q in view;
      if d.From? {
        assert d.q in others;
        OldestRow(g.relation, view, parent, child, d.q);
      }
    }
  }

  /**
   The promise of the sharing guide that a group sees only its own uploads and their descendants is
   not kept by an unlink: below a child 1 with children 2 and 3, where 3 is also a child of 2, object 3
   keeps its share although nothing above it is seen any more, because each of its two parents counts
   as a devisor for the other.
   */
  lemma DiamondKeepsOrphanedShare()
    ensures var g, view := DiamondGraph(), DiamondView();
      && g.Valid() && Closed(g.relation, view)
      && var after := Unlinked(g, view, 0, 1, 1);
         && 3 in after && 1 !in after && 2 !in after
         && !IsJustified(WithoutEdge(g.relation, Edge(0, 1)), after.Keys, {0}, 3)
  {
    hide Children, Parents, Closed, Unlinked, Graph.Valid, IsJustified, WithoutEdge;
    var g, view, s := DiamondGraph(), DiamondView(), Share("added", Some(0), None, 0);
    DiamondIsClosed();
    DiamondRelation();
    DiamondUnlink(g, view, s, 1);
    DiamondIsCutOff(Unlinked(g, view, 0, 1, 1).Keys);
  }

  lemma DiamondIsCutOff(seen: set<Id>)
    ensures !IsJustified(WithoutEdge(DiamondGraph().relation, Edge(0, 1)), seen, {0}, 3)
  {
    LeadsOn(WithoutEdge(DiamondGraph().relation, Edge(0, 1)), 0, 3);
  }

  lemma LeadsOn(relation: seq<Edge>, x: Id, y: Id)
    ensures Reaches(relation, x, y) ==> x == y || exists e :: e in relation && e.parent == x
  {
    if path :| IsPath(relation, path, x, y) && |path| > 1 {
      assert Edge(path[0], path[1]) in relation;
    }
  }

  lemma DiamondIsClosed()
    ensures DiamondGraph().Valid() && Closed(DiamondGraph().relation, DiamondView())
    ensures DiamondView().Keys == {0, 1, 2, 3}
  {
    forall e | e in DiamondGraph().relation
      ensures e.parent in DiamondView() && e.child in DiamondView()
    {}
  }

  function DiamondGraph(): Graph {
    Graph({0, 1, 2, 3}, [Edge(0, 1), Edge(1, 2), Edge(1, 3), Edge(2, 3)])
  }

  function DiamondView(): View {
    var s := Share("added", Some(0), None, 0);
    map[0 := s, 1 := s, 2 := s, 3 := s]
  }

  lemma DiamondUnlink(g: Graph, view: View, s: Share, now: int)
    requires g.Valid() && g.objects == {0, 1, 2, 3}
    requires Children(g.relation, 1) == [2, 3] && Children(g.relation, 2) == [3]
    requires Parents(g.relation, 1) == [0] && Parents(g.relation, 2) == [1] && Parents(g.relation, 3) == [1, 2]
    requires view.Keys == {0, 1, 2, 3} && forall k :: k in view ==> view[k] == s
    ensures var after := Unlinked(g, view, 0, 1, now); 3 in after && 1 !in after && 2 !in after
  {
    DiamondLeft(g, view, s, {1}, now);
    var second := Uninherited(g, view, {1}, 2, 1, None, now);
    ThirdIsVisited(g, second.view, second.visited, 3, 1, now);
    assert [2, 3][1..] == [3];
    assert UninheritedAll(g, view, {1}, [2, 3], 1, None, now) == second;
    DeletedStep(g, view, {}, 1, 0, now);
    assert {} + {1} == {1};
  }

  lemma DiamondLeft(g: Graph, view: View, s: Share, visited: set<Id>, now: int)
    requires g.Valid() && visited <= g.objects && 2 in g.objects && 3 in g.objects && 2 !in visited && 3 !in visited
    requires Children(g.relation, 2) == [3] && Parents(g.relation, 2) == [1] && Parents(g.relation, 3) == [1, 2]
    requires 1 in view && 2 in view && 3 in view && forall k :: k in view ==> view[k] == s
    ensures Uninherited(g, view, visited, 2, 1, None, now) == Progress(Deleted(view, 2), visited + {2} + {3})
  {
    var inside := visited + {2};
    KeptStep(g, view, inside, 3, 2, 1, now);
    assert [3][1..] == [];
    assert UninheritedAll(g, view, inside, [3], 2, None, now) == Progress(view, inside + {3});
    DeletedStep(g, view, visited, 2, 1, now);
  }

  lemma ThirdIsVisited(g: Graph, view: View, visited: set<Id>, x: Id, from: Id, now: int)
    requires g.Valid() && visited <= g.objects && x in visited && from in visited && from in view
    ensures UninheritedAll(g, view, visited, [x], from, None, now) == Progress(view, visited)
  {
    assert [x][1..] == [];
  }

  lemma KeptStep(g: Graph, view: View, visited: set<Id>, x: Id, from: Id, q: Id, now: int)
    requires g.Valid() && x in g.objects && visited <= g.objects && from in view
    requires x !in visited && x in view && Inherits(view[x], view[from])
    requires q in Parents(g.relation, x) && q != from && q in view && Inherits(view[q], view[from])
    ensures Uninherited(g, view, visited, x, from, None, now) == Progress(view, visited + {x})
  {}

  lemma DeletedStep(g: Graph, view: View, visited: set<Id>, x: Id, from: Id, now: int)
    requires g.Valid() && x in g.objects && visited <= g.objects && from in view
    requires x !in visited && x in view && Inherits(view[x], view[from])
    requires forall q :: q in Parents(g.relation, x) && q != from ==> q !in view
    ensures var below := UninheritedAll(g, view, visited + {x}, Children(g.relation, x), x, None, now);
      Uninherited(g, view, visited, x, from, None, now) == Progress(Deleted(below.view, x), below.visited)
  {
    assert FindDevisor(Parents(g.relation, x), view, from, view[from], NoDevisor).NoDevisor?;
  }

  lemma DiamondRelation()
    ensures var relation := DiamondGraph().relation;
      && Children(relation, 1) == [2, 3] && Children(relation, 2) == [3]
      && Parents(relation, 1) == [0] && Parents(relation, 2) == [1] && Parents(relation, 3) == [1, 2]
  {
    hide Children, Parents;
    DiamondChildren();
    DiamondParents();
  }

  lemma DiamondChildren()
    ensures Children(DiamondGraph().relation, 1) == [2, 3] && Children(DiamondGraph().relation, 2) == [3]
  {
    hide Parents;
    DiamondRows();
  }

  lemma DiamondParents()
    ensures var relation := DiamondGraph().relation;
      Parents(relation, 1) == [0] && Parents(relation, 2) == [1] && Parents(relation, 3) == [1, 2]
  {
    hide Children;
    DiamondRows();
  }

  lemma DiamondRows()
    ensures var r0 := DiamondGraph().relation;
      && r0[1..] == [Edge(1, 2), Edge(1, 3), Edge(2, 3)] && r0[1..][1..] == [Edge(1, 3), Edge(2, 3)]
      && r0[1..][1..][1..] == [Edge(2, 3)] && r0[1..][1..][1..][1..] == []
  {}
}
