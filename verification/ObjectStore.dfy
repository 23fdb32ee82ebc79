/**
 `give_access`, `add_parent`, `remove_parent` and `uninherit_share` of `mwdb/model/object.py`
 on the object, relation and permission tables.
 */
module ObjectStore {
  import opened Wrappers
  import opened ObjectGraph
  import opened Grant
  import opened Uninherit

  class Store {
    var objects: set<Id>
    var relation: seq<Edge>
    var shares: Shares

    ghost predicate Valid()
      reads this
    {
      && Graph(objects, relation).Valid()
      && forall g {:trigger ViewOf(shares, g)} :: ViewOf(shares, g).Keys <= objects
    }

    ghost predicate Closed()
      reads this
    {
      AllClosed(relation, shares)
    }

    /** What group `g` sees, with the objects and the relation. */
    ghost function SightOf(g: GroupId): Sight
      reads this
    {
      Sight(Graph(objects, relation), ViewOf(shares, g))
    }

    constructor ()
      ensures Valid() && Closed() && objects == {} && relation == [] && shares == map[]
    {
      objects, relation, shares := {}, [], map[];
    }

    /** A new object starts without relations and without shares. */
    method NewObject(obj: Id)
      requires Valid() && obj !in objects
      modifies this`objects
      ensures Valid() && objects == old(objects) + {obj}
    {
      objects := objects + {obj};
    }

    /** One operation; what it does to every group's view. */
    method Apply(op: Operation)
      requires Valid()
      modifies this
      ensures Valid() && (old(Closed()) ==> Closed())
      ensures forall g :: SightOf(g) == After(old(SightOf(g)), op, g)
    {
      hide Granted, Linked, Unlinked, AllClosed;
      match op
      case Create(obj) =>
        if obj !in objects {
          NewObject(obj);
        } else {
          assert objects + {obj} == objects;
        }
      case Give(obj, group, share) =>
        if obj in objects {
          GiveAccess(obj, group, share);
        }
      case Link(child, parent, now) =>
        if child in objects && parent in objects {
          var _ := AddParent(child, parent, now);
        }
      case Unlink(child, parent, now) =>
        if child in objects && parent in objects {
          var _ := RemoveParent(child, parent, now);
        }
    }

    /** `ObjectPermission.create`: True iff a share was created right now. */
    method CreatePermission(obj: Id, g: GroupId, share: Share) returns (created: bool)
      requires Valid() && obj in objects
      modifies this`shares
      ensures Valid()
      ensures created == (obj !in ViewOf(old(shares), g))
      ensures shares == if created then old(shares)[g := Written(ViewOf(old(shares), g), obj, share)] else old(shares)
    {
      created := obj !in ViewOf(shares, g);
      if created {
        ghost var was := shares;
        shares := shares[g := Written(ViewOf(shares, g), obj, share)];
        assert forall h :: h != g ==> ViewOf(shares, h) == ViewOf(was, h);
      }
    }

    /** `Object.give_access`: breadth-first, going on only below objects that were not shared yet. */
    method GiveAccess(obj: Id, g: GroupId, share: Share)
      requires Valid() && obj in objects
      modifies this`shares
      ensures Valid()
      ensures ViewOf(shares, g) == Granted(objects, relation, ViewOf(old(shares), g), obj, share)
      ensures forall h :: h != g ==> ViewOf(shares, h) == ViewOf(old(shares), h)
      ensures old(Closed()) ==> Closed()
    {
      hide Granted, AllClosed, Children;
      var visited: set<Id> := {};
      var queue := [obj];
      ghost var was := ViewOf(shares, g);
      ghost var given: set<Id> := {};
      SearchStarts(relation, was, obj, share);
      while |queue| > 0
        invariant Valid()
        invariant given <= visited <= objects
        invariant forall q :: q in queue ==> q in objects
        invariant Searching(relation, was, ViewOf(shares, g), obj, share, given, visited, queue)
        invariant forall h :: h != g ==> ViewOf(shares, h) == ViewOf(old(shares), h)
        decreases objects - visited, |queue|
      {
        var x := queue[0];
        assert queue == [x] + queue[1..];
        queue := queue[1..];
        if x in visited {
          SearchSkips(relation, was, ViewOf(shares, g), obj, share, given, visited, x, queue);
          assert visited + {x} == visited;
          continue;
        }
        ghost var before := ViewOf(shares, g);
        if x !in before {
          SearchShares(relation, was, before, obj, share, given, visited, x, queue);
        } else {
          SearchSkips(relation, was, before, obj, share, given, visited, x, queue);
        }
        var created := CreatePermission(x, g, share);
        if created {
          queue := queue + Children(relation, x);
          given := given + {x};
        }
        visited := visited + {x};
      }
      SearchEnds(objects, relation, was, ViewOf(shares, g), obj, share, given, visited);
      if old(Closed()) {
        GrantKeepsAllClosed(objects, relation, old(shares), shares, obj, g, share);
      }
    }

    /** `Object.add_parent`: insert the row, then pass every share of the parent on to the child. */
    method AddParent(child: Id, parent: Id, now: int) returns (added: bool)
      requires Valid() && child in objects && parent in objects
      modifies this`relation, this`shares
      ensures Valid()
      ensures added == (Edge(parent, child) !in old(relation))
      ensures !added ==> relation == old(relation) && shares == old(shares)
      ensures added ==> relation == [Edge(parent, child)] + old(relation)
      ensures added ==> forall g ::
          ViewOf(shares, g) == Linked(objects, relation, ViewOf(old(shares), g), parent, child, now)
      ensures old(Closed()) ==> Closed()
    {
      if Edge(parent, child) in relation {
        return false;
      }
      relation := [Edge(parent, child)] + relation;
      var permissions := shares;
      var todo := GroupsOf(shares, parent);
      ghost var done: set<GroupId> := {};
      while todo != {}
        invariant Valid()
        invariant todo + done == GroupsOf(permissions, parent)
        invariant todo !! done
        invariant relation == [Edge(parent, child)] + old(relation)
        invariant forall g :: g !in done ==> ViewOf(shares, g) == ViewOf(permissions, g)
        invariant forall g :: g in done ==>
            ViewOf(shares, g) == Linked(objects, relation, ViewOf(permissions, g), parent, child, now)
        decreases todo
      {
        var g :| g in todo;
        GiveAccess(child, g, permissions[g][parent].(accessTime := now));
        todo, done := todo - {g}, done + {g};
      }
      if old(Closed()) {
        LinkKeepsAllClosed(objects, old(relation), old(shares), shares, parent, child, now);
      }
      added := true;
    }

    /** `Object.remove_parent`: take back what came through the parent, then delete the row. */
    method RemoveParent(child: Id, parent: Id, now: int) returns (removed: bool)
      requires Valid() && child in objects && parent in objects
      modifies this`relation, this`shares
      ensures Valid()
      ensures removed == (Edge(parent, child) in old(relation))
      ensures !removed ==> relation == old(relation) && shares == old(shares)
      ensures removed ==> relation == WithoutEdge(old(relation), Edge(parent, child))
      ensures removed ==> forall g ::
          ViewOf(shares, g) == Unlinked(old(Graph(objects, relation)), ViewOf(old(shares), g), parent, child, now)
      ensures old(Closed()) ==> Closed()
    {
      if Edge(parent, child) !in relation {
        return false;
      }
      ghost var was := shares;
      ghost var graph := Graph(objects, relation);
      if parent != child {
        var todo := GroupsOf(shares, parent);
        ghost var done: set<GroupId> := {};
        while todo != {}
          invariant Valid() && relation == old(relation)
          invariant todo + done == GroupsOf(was, parent)
          invariant todo !! done
          invariant forall g :: g !in done ==> ViewOf(shares, g) == ViewOf(was, g)
          invariant forall g :: g in done ==>
              ViewOf(shares, g) == Unlinked(graph, ViewOf(was, g), parent, child, now)
          decreases todo
        {
          var g :| g in todo;
          var _ := UninheritShare(child, parent, g, None, {}, now);
          todo, done := todo - {g}, done + {g};
        }
      }
      if old(Closed()) {
        UnlinkKeepsAllClosed(graph, was, shares, parent, child, now);
      }
      relation := WithoutEdge(relation, Edge(parent, child));
      removed := true;
    }

    /** `Object._find_another_devisor` of the share that `from` has for group `g`. */
    method FindAnotherDevisor(x: Id, from: Id, g: GroupId) returns (d: Devisor)
      requires Valid() && from in ViewOf(shares, g)
      ensures d == FindDevisor(Parents(relation, x), ViewOf(shares, g), from, shares[g][from], NoDevisor)
    {
      d := NoDevisor;
      var parents := Parents(relation, x);
      var i := 0;
      while i < |parents|
        invariant 0 <= i <= |parents| && !d.Keep?
        invariant FindDevisor(parents, ViewOf(shares, g), from, shares[g][from], NoDevisor) ==
                  FindDevisor(parents[i..], ViewOf(shares, g), from, shares[g][from], d)
      {
        var p := parents[i];
        assert parents[i..][1..] == parents[i + 1..];
        i := i + 1;
        if p == from || p !in ViewOf(shares, g) {
          continue;
        }
        if Inherits(shares[g][p], shares[g][from]) {
          return Keep;
        }
        d := From(p);
      }
    }

    /** `Object.uninherit_share` of the share that `from` has for group `g`. */
    method UninheritShare(x: Id, from: Id, g: GroupId, newDevisor: Option<Id>, visited: set<Id>, now: int)
      returns (visited': set<Id>)
      requires Valid() && x in objects && visited <= objects && Ready(ViewOf(shares, g), from, newDevisor)
      modifies this`shares
      ensures Valid()
      ensures Progress(ViewOf(shares, g), visited') ==
              Uninherited(Graph(objects, relation), ViewOf(old(shares), g), visited, x, from, newDevisor, now)
      ensures forall h :: h != g ==> ViewOf(shares, h) == ViewOf(old(shares), h)
      decreases objects - visited, 0
    {
      hide Children, Parents;
      visited' := visited;
      if x in visited {
        return;
      }
      visited' := visited + {x};
      if x !in ViewOf(shares, g) || !Inherits(shares[g][x], shares[g][from]) {
        return;
      }
      var d;
      if newDevisor.Some? {
        d := From(newDevisor.value);
      } else {
        d := FindAnotherDevisor(x, from, g);
      }
      if d.Keep? {
        return;
      }
      var nd := if d.From? then Some(d.q) else None;
      visited' := UninheritChildren(x, g, nd, visited', now);
      ghost var before := shares;
      if d.NoDevisor? {
        shares := shares[g := Deleted(shares[g], x)];
        assert forall h :: h != g ==> ViewOf(shares, h) == ViewOf(before, h);
      } else {
        var share := MakeInherited(shares[g][x], shares[g][d.q], now);
        shares := shares[g := Written(shares[g], x, share)];
        assert forall h :: h != g ==> ViewOf(shares, h) == ViewOf(before, h);
      }
    }

    /** The loop of `uninherit_share` over the children of `x`. */
    method UninheritChildren(x: Id, g: GroupId, nd: Option<Id>, visited: set<Id>, now: int) returns (visited': set<Id>)
      requires Valid() && x in visited && visited <= objects && Ready(ViewOf(shares, g), x, nd)
      modifies this`shares
      ensures Valid()
      ensures Progress(ViewOf(shares, g), visited') ==
              UninheritedAll(Graph(objects, relation), ViewOf(old(shares), g), visited, Children(relation, x), x, nd,
                now)
      ensures forall h :: h != g ==> ViewOf(shares, h) == ViewOf(old(shares), h)
      decreases objects - visited, 1
    {
      hide Children, Uninherited, UninheritedAll, Inherits;
      visited' := visited;
      ghost var graph := Graph(objects, relation);
      var children := Children(relation, x);
      var i := 0;
      while i < |children|
        invariant 0 <= i <= |children|
        invariant Valid() && visited <= visited' <= objects
        invariant Ready(ViewOf(shares, g), x, nd)
        invariant forall c :: c in children[i..] ==> c in objects
        invariant UninheritedAll(graph, ViewOf(old(shares), g), visited, children, x, nd, now) ==
                  UninheritedAll(graph, ViewOf(shares, g), visited', children[i..], x, nd, now)
        invariant forall h :: h != g ==> ViewOf(shares, h) == ViewOf(old(shares), h)
      {
        NextChild(graph, ViewOf(shares, g), visited', children, i, x, nd, now);
        visited' := UninheritShare(children[i], x, g, nd, visited', now);
        i := i + 1;
      }
      NoChildLeft(graph, ViewOf(shares, g), visited', x, nd, now);
    }
  }

  lemma NextChild(graph: Graph, view: View, visited: set<Id>, children: seq<Id>, i: nat, x: Id, nd: Option<Id>,
      now: int)
    requires graph.Valid() && x in visited && visited <= graph.objects && Ready(view, x, nd)
    requires i < |children| && forall c :: c in children[i..] ==> c in graph.objects
    ensures children[i] in graph.objects && forall c :: c in children[i + 1..] ==> c in graph.objects
    ensures var r := Uninherited(graph, view, visited, children[i], x, nd, now);
      && Ready(r.view, x, nd) && visited <= r.visited <= graph.objects
      && UninheritedAll(graph, view, visited, children[i..], x, nd, now)
         == UninheritedAll(graph, r.view, r.visited, children[i + 1..], x, nd, now)
  {
    assert children[i..][0] == children[i] && children[i..][1..] == children[i + 1..];
  }

  lemma NoChildLeft(graph: Graph, view: View, visited: set<Id>, x: Id, nd: Option<Id>, now: int)
    requires graph.Valid() && x in visited && visited <= graph.objects && Ready(view, x, nd)
    ensures UninheritedAll(graph, view, visited, [], x, nd, now) == Progress(view, visited)
  {}

  lemma GrantKeepsAllClosed(objects: set<Id>, relation: seq<Edge>, was: Shares, after: Shares, obj: Id, g: GroupId,
      share: Share)
    requires Graph(objects, relation).Valid() && obj in objects
    requires AllClosed(relation, was)
    requires ViewOf(after, g) == Granted(objects, relation, ViewOf(was, g), obj, share)
    requires forall h :: h != g ==> ViewOf(after, h) == ViewOf(was, h)
    ensures AllClosed(relation, after)
  {
    GrantCloses(objects, relation, ViewOf(was, g), obj, share);
  }

  lemma LinkKeepsAllClosed(objects: set<Id>, relation: seq<Edge>, was: Shares, after: Shares, parent: Id, child: Id,
      now: int)
    requires Graph(objects, relation).Valid() && parent in objects && child in objects
    requires AllClosed(relation, was)
    requires var relation' := [Edge(parent, child)] + relation;
      forall g :: ViewOf(after, g) == Linked(objects, relation', ViewOf(was, g), parent, child, now)
    ensures AllClosed([Edge(parent, child)] + relation, after)
  {
    forall g ensures Closed([Edge(parent, child)] + relation, ViewOf(after, g)) {
      LinkCloses(objects, relation, ViewOf(was, g), parent, child, now);
    }
  }

  lemma UnlinkKeepsAllClosed(graph: Graph, was: Shares, after: Shares, parent: Id, child: Id, now: int)
    requires graph.Valid() && child in graph.objects
    requires AllClosed(graph.relation, was)
    requires forall g :: ViewOf(after, g) == Unlinked(graph, ViewOf(was, g), parent, child, now)
    ensures AllClosed(WithoutEdge(graph.relation, Edge(parent, child)), after)
  {
    forall g ensures Closed(WithoutEdge(graph.relation, Edge(parent, child)), ViewOf(after, g)) {
      UnlinkKeepsClosed(graph, ViewOf(was, g), parent, child, now);
    }
  }

  /** The groups that have a share of `x`. */
  function GroupsOf(shares: Shares, x: Id): (gs: set<GroupId>)
    ensures forall g :: g in gs <==> x in ViewOf(shares, g)
  {
    set g | g in shares && x in shares[g]
  }

  datatype Operation =
    | Create(obj: Id)
    | Give(obj: Id, group: GroupId, share: Share)
    | Link(child: Id, parent: Id, now: int)
    | Unlink(child: Id, parent: Id, now: int)

  /** What one group sees, with the objects and the relation. */
  datatype Sight = Sight(graph: Graph, view: View)

  /** What an operation does to it; an operation on objects that do not exist is not passed on. */
  ghost function After(t: Sight, op: Operation, g: GroupId): (r: Sight)
    requires t.graph.Valid()
    ensures r.graph.Valid()
  {
    var objects, relation := t.graph.objects, t.graph.relation;
    match op
    case Create(obj) => t.(graph := Graph(objects + {obj}, relation))
    case Give(obj, group, share) =>
      if obj in objects && group == g then t.(view := Granted(objects, relation, t.view, obj, share)) else t
    case Link(child, parent, now) =>
      var linked := [Edge(parent, child)] + relation;
      if child !in objects || parent !in objects || Edge(parent, child) in relation then t
      else Sight(Graph(objects, linked), Linked(objects, linked, t.view, parent, child, now))
    case Unlink(child, parent, now) =>
      if child !in objects || Edge(parent, child) !in relation then t
      else Sight(Graph(objects, WithoutEdge(relation, Edge(parent, child))),
        Unlinked(t.graph, t.view, parent, child, now))
  }

  ghost function AfterAll(ops: seq<Operation>, g: GroupId): (r: Sight)
    ensures r.graph.Valid()
  {
    if ops == [] then Sight(Graph({}, []), map[])
    else After(AfterAll(ops[..|ops| - 1], g), ops[|ops| - 1], g)
  }

  lemma AfterKeepsClosed(t: Sight, op: Operation, g: GroupId)
    requires t.graph.Valid() && Closed(t.graph.relation, t.view)
    ensures var r := After(t, op, g); Closed(r.graph.relation, r.view)
  {
    hide Granted, Linked, Unlinked;
    var objects, relation := t.graph.objects, t.graph.relation;
    match op
    case Create(_) =>
    case Give(obj, group, share) =>
      if obj in objects && group == g {
        GrantCloses(objects, relation, t.view, obj, share);
      }
    case Link(child, parent, now) =>
      if child in objects && parent in objects && Edge(parent, child) !in relation {
        LinkCloses(objects, relation, t.view, parent, child, now);
      }
    case Unlink(child, parent, now) =>
      if child in objects && Edge(parent, child) in relation {
        UnlinkKeepsClosed(t.graph, t.view, parent, child, now);
      }
  }

  /** After any operations, in any order, every group sees every child of what it sees. */
  lemma {:induction false} EveryRunIsClosed(ops: seq<Operation>, g: GroupId)
    ensures var t := AfterAll(ops, g); Closed(t.graph.relation, t.view)
    decreases |ops|
  {
    if ops != [] {
      EveryRunIsClosed(ops[..|ops| - 1], g);
      AfterKeepsClosed(AfterAll(ops[..|ops| - 1], g), ops[|ops| - 1], g);
    }
  }

  /** The operations, run on the tables: what every group sees is what they do to it, and it is closed. */
  method Run(ops: seq<Operation>) returns (store: Store)
    ensures store.Valid() && store.Closed()
    ensures forall g :: store.SightOf(g) == AfterAll(ops, g)
  {
    hide Granted, Linked, Unlinked;
    store := new Store();
    assert ops[..0] == [];
    for i := 0 to |ops|
      invariant store.Valid() && store.Closed()
      invariant forall g :: store.SightOf(g) == AfterAll(ops[..i], g)
    {
      assert ops[..i + 1][..i] == ops[..i];
      store.Apply(ops[i]);
    }
    assert ops[..|ops|] == ops;
  }
}
