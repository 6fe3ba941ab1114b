/** Finite directed graphs given by their parent-child pairs: reachability along paths,
    acyclicity, and the depth that makes recursion over an acyclic graph well-founded. */
module Graph {
  import opened Collections

  type Id = int
  type Edges = set<(Id, Id)>

  /** `path` has at least one edge and every consecutive pair is a parent-child pair. */
  ghost predicate IsPath(edges: Edges, path: seq<Id>) {
    |path| >= 2 && forall k :: 0 <= k < |path| - 1 ==> (path[k], path[k + 1]) in edges
  }

  ghost predicate Joins(edges: Edges, path: seq<Id>, a: Id, b: Id) {
    IsPath(edges, path) && path[0] == a && path[|path| - 1] == b
  }

  ghost predicate Reaches(edges: Edges, a: Id, b: Id) {
    exists path :: Joins(edges, path, a, b)
  }

  ghost predicate IsClosure(edges: Edges, pairs: set<(Id, Id)>) {
    forall a, b :: (a, b) in pairs <==> Reaches(edges, a, b)
  }

  ghost predicate Acyclic(edges: Edges) {
    forall x :: !Reaches(edges, x, x)
  }

  ghost function Ancestors(edges: Edges, x: Id): set<Id> {
    set e | e in edges && Reaches(edges, e.0, x) :: e.0
  }

  /** The number of strict ancestors. It grows along every edge of an acyclic graph. */
  ghost function Depth(edges: Edges, x: Id): nat {
    |Ancestors(edges, x)|
  }

  lemma EdgeReaches(edges: Edges, a: Id, b: Id)
    requires (a, b) in edges
    ensures Reaches(edges, a, b)
  {
    assert Joins(edges, [a, b], a, b);
  }

  lemma ReachesTransitive(edges: Edges, a: Id, b: Id, c: Id)
    requires Reaches(edges, a, b) && Reaches(edges, b, c)
    ensures Reaches(edges, a, c)
  {
    var p :| Joins(edges, p, a, b);
    var q :| Joins(edges, q, b, c);
    assert Joins(edges, p + q[1..], a, c);
  }

  /** Without the edges that leave `b`, the same nodes reach `b`. */
  lemma ReachesWithoutLeaving(edges: Edges, fewer: Edges, a: Id, b: Id)
    requires Reaches(edges, a, b) && a != b && forall e :: e in edges && e.0 != b ==> e in fewer
    ensures Reaches(fewer, a, b)
  {
    var path :| Joins(edges, path, a, b);
    PathWithoutLeaving(edges, fewer, path);
  }

  lemma {:induction false} PathWithoutLeaving(edges: Edges, fewer: Edges, path: seq<Id>)
    requires IsPath(edges, path) && path[0] != path[|path| - 1]
    requires forall e :: e in edges && e.0 != path[|path| - 1] ==> e in fewer
    ensures Reaches(fewer, path[0], path[|path| - 1])
    decreases |path|
  {
    var a, next, b := path[0], path[1], path[|path| - 1];
    assert (path[0], path[0 + 1]) in edges;
    EdgeReaches(fewer, a, next);
    if next != b {
      PathWithoutLeaving(edges, fewer, path[1..]);
      ReachesTransitive(fewer, a, next, b);
    }
  }

  lemma ReachesMonotone(edges: Edges, more: Edges, a: Id, b: Id)
    requires edges <= more && Reaches(edges, a, b)
    ensures Reaches(more, a, b)
  {
    var p :| Joins(edges, p, a, b);
    assert Joins(more, p, a, b);
  }

  lemma ReachesEnds(edges: Edges, a: Id, b: Id) returns (first: Id, last: Id)
    requires Reaches(edges, a, b)
    ensures (a, first) in edges && (last, b) in edges
  {
    var p :| Joins(edges, p, a, b);
    first, last := p[1], p[|p| - 2];
    assert (p[0], p[1]) in edges && (p[|p| - 2], p[|p| - 2 + 1]) in edges;
  }

  /** Reaching `b` means entering it through one of its parents. */
  lemma ReachesThroughParent(edges: Edges, a: Id, b: Id)
    ensures Reaches(edges, a, b) <==> exists p :: (p, b) in edges && (a == p || Reaches(edges, a, p))
  {
    if Reaches(edges, a, b) {
      var path :| Joins(edges, path, a, b);
      var p := path[|path| - 2];
      assert (p, b) in edges;
      if |path| > 2 {
        assert Joins(edges, path[..|path| - 1], a, p);
      }
    }
    if exists p :: (p, b) in edges && (a == p || Reaches(edges, a, p)) {
      var p :| (p, b) in edges && (a == p || Reaches(edges, a, p));
      EdgeReaches(edges, p, b);
      if a != p {
        ReachesTransitive(edges, a, p, b);
      }
    }
  }

  /** Reaching `b` from `a` means leaving `a` through one of its children. */
  lemma ReachesThroughChild(edges: Edges, a: Id, b: Id) returns (x: Id)
    requires Reaches(edges, a, b)
    ensures (a, x) in edges && (x == b || Reaches(edges, x, b))
  {
    var path :| Joins(edges, path, a, b);
    x := path[1];
    assert (path[0], path[0 + 1]) in edges;
    if |path| > 2 {
      assert Joins(edges, path[1..], x, b);
    }
  }

  lemma DepthGrows(edges: Edges, a: Id, b: Id)
    requires Acyclic(edges) && Reaches(edges, a, b)
    ensures Depth(edges, a) < Depth(edges, b)
  {
    forall x | x in Ancestors(edges, a)
      ensures x in Ancestors(edges, b)
    {
      ReachesTransitive(edges, x, a, b);
    }
    var x, _ := ReachesEnds(edges, a, b);
    assert a in Ancestors(edges, b) by { assert (a, x).0 == a; }
    assert a !in Ancestors(edges, a);
    StrictSubsetSmaller(Ancestors(edges, a), Ancestors(edges, b));
  }

  lemma DepthBound(edges: Edges, nodes: set<Id>, x: Id)
    requires forall e :: e in edges ==> e.0 in nodes
    ensures Depth(edges, x) <= |nodes|
  {
    SubsetNotLarger(Ancestors(edges, x), nodes);
  }

  /** Every non-empty set of nodes of an acyclic graph has a node none of whose ancestors is in the set. */
  lemma MinimalNode(edges: Edges, nodes: set<Id>, start: Id) returns (m: Id)
    requires Acyclic(edges) && start in nodes
    ensures m in nodes && forall a :: a in nodes ==> !Reaches(edges, a, m)
    decreases Depth(edges, start)
  {
    if a :| a in nodes && Reaches(edges, a, start) {
      DepthGrows(edges, a, start);
      m := MinimalNode(edges, nodes, a);
    } else {
      m := start;
    }
  }

  ghost predicate HasParentIn(edges: Edges, nodes: set<Id>, x: Id) {
    exists p :: p in nodes && (p, x) in edges
  }

  /** A node that stays below parents of the same set for ever is on a cycle or below one. */
  lemma ClosedUnderParentsIsBelowCycle(edges: Edges, nodes: set<Id>, x: Id)
    requires x in nodes
    requires forall y {:trigger HasParentIn(edges, nodes, y)} :: y in nodes ==> HasParentIn(edges, nodes, y)
    ensures exists y :: y in nodes && Reaches(edges, y, y) && (y == x || Reaches(edges, y, x))
  {
    if forall y :: y in nodes && (y == x || Reaches(edges, y, x)) ==> !Reaches(edges, y, y) {
      var above := set y | y in nodes && (y == x || Reaches(edges, y, x));
      var inner := set e | e in edges && e.0 in above && e.1 in above;
      forall y
        ensures !Reaches(inner, y, y)
      {
        if Reaches(inner, y, y) {
          var _, _ := ReachesEnds(inner, y, y);
          ReachesMonotone(inner, edges, y, y);
        }
      }
      var m := MinimalNode(inner, above, x);
      assert HasParentIn(edges, nodes, m);
      var p :| p in nodes && (p, m) in edges;
      EdgeReaches(edges, p, m);
      if m != x {
        ReachesTransitive(edges, p, m, x);
      }
      EdgeReaches(inner, p, m);
      assert false;
    }
  }

  /** Adding edges out of one parent creates no cycle when none of the children reaches the parent. */
  lemma StarKeepsAcyclic(edges: Edges, parent: Id, children: set<Id>, more: Edges)
    requires Acyclic(edges)
    requires forall e :: e in more ==> e in edges || (e.0 == parent && e.1 in children)
    requires forall c :: c in children ==> c != parent && !Reaches(edges, c, parent)
    ensures Acyclic(more)
  {
    forall x
      ensures !Reaches(more, x, x)
    {
      if Reaches(more, x, x) {
        var path :| Joins(more, path, x, x);
        CyclesUseStar(edges, parent, children, more, path, x);
      }
    }
  }

  /** A cycle among the old edges and those of the star is an old one, or some child of the star reaches its parent. */
  lemma CyclesUseStar(edges: Edges, parent: Id, children: set<Id>, more: Edges, path: seq<Id>, x: Id)
    requires forall e :: e in more ==> e in edges || (e.0 == parent && e.1 in children)
    requires Joins(more, path, x, x)
    ensures Reaches(edges, x, x) || exists c :: c in children && (c == parent || Reaches(edges, c, parent))
  {
    if k :| 0 <= k < |path| - 1 && (path[k], path[k + 1]) !in edges {
      var rotated := path[k + 1..] + path[1..k + 1];
      assert (path[k], path[k + 1]) in more;
      forall j | 0 <= j < |rotated| - 1
        ensures (rotated[j], rotated[j + 1]) in more
      {
        var i := if j < |path| - k - 1 then k + 1 + j else j + k + 2 - |path|;
        assert rotated[j] == path[i];
        if i == |path| - 1 {
          assert rotated[j + 1] == path[1] && path[i] == path[0];
        } else {
          assert rotated[j + 1] == path[i + 1];
        }
      }
      assert rotated[0] == path[k + 1] && rotated[|rotated| - 1] == parent;
      var c := StarReachesParent(edges, parent, children, more, rotated);
    } else {
      assert Joins(edges, path, x, x);
    }
  }

  /** A walk from a child of the star to its parent contains one among the old edges. */
  lemma {:induction false} StarReachesParent(edges: Edges, parent: Id, children: set<Id>, more: Edges, walk: seq<Id>)
    returns (c: Id)
    requires forall e :: e in more ==> e in edges || (e.0 == parent && e.1 in children)
    requires |walk| >= 1 && walk[0] in children && walk[|walk| - 1] == parent
    requires forall k :: 0 <= k < |walk| - 1 ==> (walk[k], walk[k + 1]) in more
    ensures c in children && (c == parent || Reaches(edges, c, parent))
    decreases |walk|
  {
    if k :| 0 <= k < |walk| - 1 && (walk[k], walk[k + 1]) !in edges {
      assert (walk[k], walk[k + 1]) in more;
      c := StarReachesParent(edges, parent, children, more, walk[k + 1..]);
    } else {
      c := walk[0];
      assert |walk| > 1 ==> Joins(edges, walk, c, parent);
    }
  }

  /** Two graphs that differ only in edges into `changed` have the same ancestors for every node
      that is not in `changed` and that no changed node reaches. */
  lemma SameAncestors(edges: Edges, other: Edges, changed: set<Id>, a: Id, x: Id)
    requires forall e: (Id, Id) :: e.1 !in changed ==> (e in edges <==> e in other)
    requires x !in changed && forall c :: c in changed ==> !Reaches(other, c, x)
    ensures Reaches(edges, a, x) <==> Reaches(other, a, x)
  {
    if Reaches(edges, a, x) {
      var path :| Joins(edges, path, a, x);
      SamePaths(edges, other, changed, path);
      assert Joins(other, path, a, x);
    }
    if Reaches(other, a, x) {
      var path :| Joins(other, path, a, x);
      forall k | 0 <= k < |path| - 1
        ensures (path[k], path[k + 1]) in edges
      {
        assert (path[k], path[k + 1]) in other;
        if path[k + 1] in changed && path[k + 1] != x {
          assert Joins(other, path[k + 1..], path[k + 1], x);
        }
      }
      assert Joins(edges, path, a, x);
    }
  }

  lemma SamePaths(edges: Edges, other: Edges, changed: set<Id>, path: seq<Id>)
    requires forall e: (Id, Id) :: e.1 !in changed ==> (e in edges <==> e in other)
    requires IsPath(edges, path)
    requires var x := path[|path| - 1]; x !in changed && forall c :: c in changed ==> !Reaches(other, c, x)
    ensures IsPath(other, path)
    decreases |path|
  {
    var n := |path|;
    var x, p := path[n - 1], path[n - 2];
    assert (p, x) in other;
    if n > 2 {
      EdgeReaches(other, p, x);
      forall c | c in changed
        ensures !Reaches(other, c, p)
      {
        if Reaches(other, c, p) {
          ReachesTransitive(other, c, p, x);
        }
      }
      SamePaths(edges, other, changed, path[..n - 1]);
    }
  }
}
