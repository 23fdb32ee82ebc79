/**
 The relation table of `mwdb/model/object.py` (parent/child edges, cycles and self-loops
 allowed) and the permission table of `mwdb/model/object_permission.py` (at most one share
 per object and group), with the closure property the sharing model promises: a group that
 sees an object sees every child of it.
 */
module ObjectGraph {
  import opened Wrappers

  type Id = nat
  type GroupId = nat

  datatype Edge = Edge(parent: Id, child: Id)

  /** The provenance columns of a share, plus its timestamp. */
  datatype Share = Share(reason: string, relatedObject: Option<Id>, relatedUser: Option<int>, accessTime: int)

  /** What one group sees: the objects it has a share of, with that share. */
  type View = map<Id, Share>

  /** The permission table; its primary key is the pair (group, object). */
  type Shares = map<GroupId, View>

  function ViewOf(shares: Shares, g: GroupId): View {
    if g in shares then shares[g] else map[]
  }

  /** The view after the share of `x` is written. */
  function Written(view: View, x: Id, share: Share): View {
    view[x := share]
  }

  /** The view after the share of `x` is deleted. */
  function Deleted(view: View, x: Id): View {
    map y | y in view && y != x :: view[y]
  }

  /** `ObjectPermission.inherits`: same related object and same reason. */
  predicate Inherits(share: Share, origin: Share) {
    share.relatedObject == origin.relatedObject && share.reason == origin.reason
  }

  /** `ObjectPermission.make_inherited`: take over the devisor's provenance. */
  function MakeInherited(share: Share, devisor: Share, now: int): Share {
    share.(relatedObject := devisor.relatedObject, reason := devisor.reason, accessTime := now)
  }

  /** Objects and relation rows; rows are kept newest first, the order both queries use. */
  datatype Graph = Graph(objects: set<Id>, relation: seq<Edge>) {
    ghost predicate Valid() {
      forall e :: e in relation ==> e.parent in objects && e.child in objects
    }
  }

  function Children(relation: seq<Edge>, p: Id): (cs: seq<Id>)
    ensures forall c :: c in cs <==> Edge(p, c) in relation
  {
    if relation == [] then []
    else
      var rest := Children(relation[1..], p);
      assert relation == [relation[0]] + relation[1..];
      if relation[0].parent == p then [relation[0].child] + rest else rest
  }

  function Parents(relation: seq<Edge>, c: Id): (ps: seq<Id>)
    ensures forall p :: p in ps <==> Edge(p, c) in relation
  {
    if relation == [] then []
    else
      var rest := Parents(relation[1..], c);
      assert relation == [relation[0]] + relation[1..];
      if relation[0].child == c then [relation[0].parent] + rest else rest
  }

  /** The relation table after `DELETE ... WHERE parent_id = ... AND child_id = ...`. */
  function WithoutEdge(relation: seq<Edge>, e: Edge): (rest: seq<Edge>)
    ensures forall f :: f in rest <==> f in relation && f != e
  {
    if relation == [] then []
    else
      assert relation == [relation[0]] + relation[1..];
      var rest := WithoutEdge(relation[1..], e);
      if relation[0] == e then rest else [relation[0]] + rest
  }

  /** The group sees every child of every object it sees. */
  ghost predicate Closed(relation: seq<Edge>, view: View) {
    forall e :: e in relation && e.parent in view ==> e.child in view
  }

  ghost predicate AllClosed(relation: seq<Edge>, shares: Shares) {
    forall g :: Closed(relation, ViewOf(shares, g))
  }

  /** Closed, except perhaps along edges into `target`. */
  ghost predicate ClosedExceptInto(relation: seq<Edge>, view: View, target: Id) {
    forall e :: e in relation && e.parent in view && e.child != target ==> e.child in view
  }

  /** `path` runs from `x` to `y` along parent-to-child edges. */
  ghost predicate IsPath(relation: seq<Edge>, path: seq<Id>, x: Id, y: Id) {
    && |path| > 0 && path[0] == x && path[|path| - 1] == y
    && forall i :: 0 <= i < |path| - 1 ==> Edge(path[i], path[i + 1]) in relation
  }

  /** `y` is `x` or a descendant of `x`. */
  ghost predicate Reaches(relation: seq<Edge>, x: Id, y: Id) {
    exists path :: IsPath(relation, path, x, y)
  }

  /** Like `Reaches`, but along objects the group does not see yet. */
  ghost predicate FreshPath(relation: seq<Edge>, view: View, path: seq<Id>, x: Id, y: Id) {
    IsPath(relation, path, x, y) && forall i :: 0 <= i < |path| ==> path[i] !in view
  }

  ghost predicate FreshReaches(relation: seq<Edge>, view: View, x: Id, y: Id) {
    exists path :: FreshPath(relation, view, path, x, y)
  }

  lemma FreshReachesSelf(relation: seq<Edge>, view: View, x: Id)
    requires x !in view
    ensures FreshReaches(relation, view, x, x)
  {
    assert FreshPath(relation, view, [x], x, x);
  }

  lemma FreshReachesStep(relation: seq<Edge>, view: View, x: Id, y: Id, z: Id)
    requires FreshReaches(relation, view, x, y)
    requires Edge(y, z) in relation && z !in view
    ensures FreshReaches(relation, view, x, z)
  {
    var path :| FreshPath(relation, view, path, x, y);
    assert FreshPath(relation, view, path + [z], x, z);
  }

  /** Everything on a path that starts in a set closed under children is in that set. */
  lemma {:induction false} PathStaysIn(relation: seq<Edge>, path: seq<Id>, x: Id, y: Id, s: set<Id>)
    requires IsPath(relation, path, x, y)
    requires x in s
    requires forall e :: e in relation && e.parent in s && e.child in path ==> e.child in s
    ensures y in s
    decreases |path|
  {
    if |path| > 1 {
      assert Edge(path[0], path[1]) in relation;
      var tail := path[1..];
      forall i | 0 <= i < |tail| - 1 ensures Edge(tail[i], tail[i + 1]) in relation {
        assert Edge(path[i + 1], path[i + 2]) in relation;
      }
      assert path[1] in path;
      PathStaysIn(relation, tail, path[1], y, s);
    }
  }
}
