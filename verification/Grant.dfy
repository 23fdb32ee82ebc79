/** What a grant does to the permission table, independently of how it is searched for. */
module Grant {
  import opened ObjectGraph

  /** The view with one and the same share written for each of `xs`. */
  function WithShares(view: View, xs: set<Id>, share: Share): View {
    view + map x | x in xs :: share
  }

  lemma WithOneMore(view: View, xs: set<Id>, x: Id, share: Share)
    ensures WithShares(view, xs, share)[x := share] == WithShares(view, xs + {x}, share)
  {}

  ghost function Reached(objects: set<Id>, relation: seq<Edge>, view: View, obj: Id): set<Id> {
    set y | y in objects && FreshReaches(relation, view, obj, y)
  }

  /** Every object reached through objects the group does not see gets one and the same share. */
  ghost function Granted(objects: set<Id>, relation: seq<Edge>, view: View, obj: Id, share: Share): View {
    WithShares(view, Reached(objects, relation, view, obj), share)
  }

  /**
   A search under way: `given` has been shared by it, everything it passed over is seen, and what it
   still has to look at (`queue`) covers every child of what it shared.
   */
  ghost predicate Searching(relation: seq<Edge>, was: View, now: View, obj: Id, share: Share,
                            given: set<Id>, visited: set<Id>, queue: seq<Id>)
  {
    && now == WithShares(was, given, share)
    && (forall y :: y in given ==> y !in was && FreshReaches(relation, was, obj, y))
    && (forall q :: q in queue && q !in was ==> FreshReaches(relation, was, obj, q))
    && (forall v :: v in visited ==> v in now)
    && (forall e :: e in relation && e.parent in given ==> e.child in now || e.child in queue)
    && (obj in now || obj in queue)
  }

  lemma SearchStarts(relation: seq<Edge>, was: View, obj: Id, share: Share)
    ensures Searching(relation, was, was, obj, share, {}, {}, [obj])
  {
    if obj !in was {
      FreshReachesSelf(relation, was, obj);
    }
  }

  /** Taking an object that is seen already off the queue. */
  lemma SearchSkips(relation: seq<Edge>, was: View, now: View, obj: Id, share: Share,
                    given: set<Id>, visited: set<Id>, x: Id, rest: seq<Id>)
    requires Searching(relation, was, now, obj, share, given, visited, [x] + rest)
    requires x in now
    ensures Searching(relation, was, now, obj, share, given, visited + {x}, rest)
  {
    forall q | q in rest ensures q in [x] + rest {}
  }

  /** Sharing an object from the queue and queueing its children. */
  lemma SearchShares(relation: seq<Edge>, was: View, now: View, obj: Id, share: Share,
                     given: set<Id>, visited: set<Id>, x: Id, rest: seq<Id>)
    requires Searching(relation, was, now, obj, share, given, visited, [x] + rest)
    requires x !in now
    ensures Searching(relation, was, now[x := share], obj, share,
                      given + {x}, visited + {x}, rest + Children(relation, x))
  {
    assert x in [x] + rest;
    assert forall q :: q in rest ==> q in [x] + rest;
    WithOneMore(was, given, x, share);
    forall q | q in rest + Children(relation, x) && q !in was
      ensures FreshReaches(relation, was, obj, q)
    {
      if q in rest {
        assert q in [x] + rest;
      } else {
        FreshReachesStep(relation, was, obj, x, q);
      }
    }
  }

  /** A finished search has found every object the grant is meant to reach. */
  lemma SearchEnds(objects: set<Id>, relation: seq<Edge>, was: View, now: View, obj: Id, share: Share,
                   given: set<Id>, visited: set<Id>)
    requires given <= objects
    requires Searching(relation, was, now, obj, share, given, visited, [])
    ensures now == Granted(objects, relation, was, obj, share)
  {
    forall y | y in objects && FreshReaches(relation, was, obj, y)
      ensures y in given
    {
      var path :| FreshPath(relation, was, path, obj, y);
      assert path[0] !in was;
      assert obj in given;
      forall e | e in relation && e.parent in given && e.child in path
        ensures e.child in given
      {
        var i :| 0 <= i < |path| && path[i] == e.child;
        assert path[i] !in was;
      }
      PathStaysIn(relation, path, obj, y, given);
    }
    assert Reached(objects, relation, was, obj) == given;
  }

  /**
   Granting is exact: if the group's view is closed (except perhaps along edges into `obj`), the group
   ends up seeing what it saw and every descendant-or-self of `obj`, nothing else; no share that
   existed changes and every new share carries the same provenance.
   */
  lemma GrantExact(objects: set<Id>, relation: seq<Edge>, view: View, obj: Id, share: Share)
    requires Graph(objects, relation).Valid() && obj in objects
    requires ClosedExceptInto(relation, view, obj)
    ensures var after := Granted(objects, relation, view, obj, share);
      && (forall y :: y in after <==> y in view || Reaches(relation, obj, y))
      && (forall k :: k in view ==> after[k] == view[k])
      && (forall k :: k in after && k !in view ==> after[k] == share)
  {
    var after := Granted(objects, relation, view, obj, share);
    forall y | Reaches(relation, obj, y)
      ensures y in after
    {
      var path :| IsPath(relation, path, obj, y);
      ReachableIsShared(objects, relation, view, obj, share, path, y);
    }
    forall y | y in after && y !in view
      ensures Reaches(relation, obj, y)
    {
      var path :| FreshPath(relation, view, path, obj, y);
    }
  }

  lemma ReachableIsShared(objects: set<Id>, relation: seq<Edge>, view: View, obj: Id, share: Share,
                          path: seq<Id>, y: Id)
    requires Graph(objects, relation).Valid() && obj in objects
    requires ClosedExceptInto(relation, view, obj)
    requires IsPath(relation, path, obj, y)
    ensures y in Granted(objects, relation, view, obj, share)
  {
    GrantCloses(objects, relation, view, obj, share);
    var after := Granted(objects, relation, view, obj, share);
    var seen := set x | x in objects && x in after;
    forall e | e in relation && e.parent in seen ensures e.child in seen {}
    PathStaysIn(relation, path, obj, y, seen);
  }

  /** Granting leaves the group's view closed, and `obj` seen. */
  lemma GrantCloses(objects: set<Id>, relation: seq<Edge>, view: View, obj: Id, share: Share)
    requires Graph(objects, relation).Valid() && obj in objects
    requires ClosedExceptInto(relation, view, obj)
    ensures var after := Granted(objects, relation, view, obj, share);
      obj in after && Closed(relation, after)
  {
    var after := Granted(objects, relation, view, obj, share);
    if obj !in view {
      FreshReachesSelf(relation, view, obj);
    }
    forall e | e in relation && e.parent in after
      ensures e.child in after
    {
      if e.parent !in view && e.child !in view {
        assert FreshReaches(relation, view, obj, e.parent);
        FreshReachesStep(relation, view, obj, e.parent, e.child);
      }
    }
  }

  /** One group's view after `add_parent`; `relation` holds the new row already. */
  ghost function Linked(objects: set<Id>, relation: seq<Edge>, view: View, parent: Id, child: Id, now: int): View {
    if parent in view then Granted(objects, relation, view, child, view[parent].(accessTime := now)) else view
  }

  /** Linking restores closure, even when the parent is a descendant of the child already. */
  lemma LinkCloses(objects: set<Id>, relation: seq<Edge>, view: View, parent: Id, child: Id, now: int)
    requires Graph(objects, relation).Valid() && parent in objects && child in objects
    requires Closed(relation, view)
    ensures Closed([Edge(parent, child)] + relation,
      Linked(objects, [Edge(parent, child)] + relation, view, parent, child, now))
  {
    var relation' := [Edge(parent, child)] + relation;
    assert forall e :: e in relation' <==> e == Edge(parent, child) || e in relation;
    if parent in view {
      GrantCloses(objects, relation', view, child, view[parent].(accessTime := now));
    }
  }
}
