/**
 * A disjoint-set (union-find) structure over the elements 0 .. N-1.
 *
 * The percolation lattice uses two such structures. Their observable contract
 * is that two elements have the same `Find` result exactly when they are joined
 * by a chain of `Union` calls. The history of union calls is kept as the ghost
 * set `Edges`, and `Connected(Edges, x, y)` says that a chain of unioned pairs
 * leads from x to y. The implementation is quick-find (every element stores
 * its component label); weighting and path compression only affect cost.
 */
module DisjointSets {

  /** One call `Union(p, q)` contributes the pair (p, q). */
  type Edge = (int, int)

  /** u and v were passed together to one union call, in either order. */
  ghost predicate Joined(edges: set<Edge>, u: int, v: int) {
    (u, v) in edges || (v, u) in edges
  }

  /** A non-empty sequence of elements, each joined to the next. */
  ghost predicate Walk(edges: set<Edge>, p: seq<int>) {
    |p| > 0 && forall i :: 0 <= i < |p| - 1 ==> Joined(edges, p[i], p[i + 1])
  }

  /** Some chain of unions leads from u to v. */
  ghost predicate Connected(edges: set<Edge>, u: int, v: int) {
    exists p :: Walk(edges, p) && p[0] == u && p[|p| - 1] == v
  }

  lemma ConnectedReflexive(edges: set<Edge>, u: int)
    ensures Connected(edges, u, u)
  {
    assert Walk(edges, [u]);
  }

  lemma JoinedConnected(edges: set<Edge>, u: int, v: int)
    requires Joined(edges, u, v)
    ensures Connected(edges, u, v)
  {
    assert Walk(edges, [u, v]);
  }

  /** Unions are undirected: a chain read backwards is a chain. */
  lemma ConnectedSymmetric(edges: set<Edge>, u: int, v: int)
    requires Connected(edges, u, v)
    ensures Connected(edges, v, u)
  {
    var p :| Walk(edges, p) && p[0] == u && p[|p| - 1] == v;
    var r := seq(|p|, i requires 0 <= i < |p| => p[|p| - 1 - i]);
    forall i | 0 <= i < |r| - 1
      ensures Joined(edges, r[i], r[i + 1])
    {
      var j := |p| - 2 - i;
      assert Joined(edges, p[j], p[j + 1]);
    }
    assert Walk(edges, r);
  }

  /** Two chains that meet make one chain. */
  lemma ConnectedTransitive(edges: set<Edge>, u: int, v: int, w: int)
    requires Connected(edges, u, v) && Connected(edges, v, w)
    ensures Connected(edges, u, w)
  {
    var p :| Walk(edges, p) && p[0] == u && p[|p| - 1] == v;
    var q :| Walk(edges, q) && q[0] == v && q[|q| - 1] == w;
    var r := p + q[1..];
    forall i | 0 <= i < |r| - 1
      ensures Joined(edges, r[i], r[i + 1])
    {
      if i < |p| - 1 {
        assert r[i] == p[i] && r[i + 1] == p[i + 1];
      } else {
        var j := i - (|p| - 1);
        assert r[i] == q[j] && r[i + 1] == q[j + 1];
      }
    }
    assert Walk(edges, r);
  }

  /** Further unions never disconnect anything. */
  lemma ConnectedMonotone(edges: set<Edge>, more: set<Edge>, u: int, v: int)
    requires edges <= more && Connected(edges, u, v)
    ensures Connected(more, u, v)
  {
    var p :| Walk(edges, p) && p[0] == u && p[|p| - 1] == v;
    forall i | 0 <= i < |p| - 1
      ensures Joined(more, p[i], p[i + 1])
    {
      assert Joined(edges, p[i], p[i + 1]);
    }
    assert Walk(more, p);
  }

  /** Before any union, every element is alone in its component. */
  lemma ConnectedWithoutUnions(u: int, v: int)
    ensures Connected({}, u, v) <==> u == v
  {
    if Connected({}, u, v) {
      var p :| Walk({}, p) && p[0] == u && p[|p| - 1] == v;
      assert |p| == 1 || Joined({}, p[0], p[1]);
    } else {
      if u == v {
        ConnectedReflexive({}, u);
      }
    }
  }

  /** What x and y can be connected through after one more union (p, q). */
  ghost predicate ConnectedVia(edges: set<Edge>, p: int, q: int, x: int, y: int) {
    || Connected(edges, x, y)
    || (Connected(edges, x, p) && Connected(edges, q, y))
    || (Connected(edges, x, q) && Connected(edges, p, y))
  }

  lemma {:induction false} WalkAfterUnion(edges: set<Edge>, p: int, q: int, w: seq<int>)
    requires Walk(edges + {(p, q)}, w)
    ensures ConnectedVia(edges, p, q, w[0], w[|w| - 1])
    decreases |w|
  {
    var x, y := w[0], w[|w| - 1];
    if |w| == 1 {
      ConnectedReflexive(edges, x);
    } else {
      var w' := w[..|w| - 1];
      var z := w'[|w'| - 1];
      assert Walk(edges + {(p, q)}, w') by {
        forall i | 0 <= i < |w'| - 1
          ensures Joined(edges + {(p, q)}, w'[i], w'[i + 1])
        {
          assert w'[i] == w[i] && w'[i + 1] == w[i + 1];
        }
      }
      WalkAfterUnion(edges, p, q, w');
      assert Joined(edges + {(p, q)}, z, y) by {
        assert z == w[|w| - 2];
      }
      if Joined(edges, z, y) {
        JoinedConnected(edges, z, y);
        if Connected(edges, x, z) {
          ConnectedTransitive(edges, x, z, y);
        } else if Connected(edges, x, p) && Connected(edges, q, z) {
          ConnectedTransitive(edges, q, z, y);
        } else {
          ConnectedTransitive(edges, p, z, y);
        }
      } else if z == p && y == q {
        ConnectedReflexive(edges, q);
        if Connected(edges, x, q) && Connected(edges, p, z) && !Connected(edges, x, z) {
          assert Connected(edges, x, y);
        }
      } else {
        assert z == q && y == p;
        ConnectedReflexive(edges, p);
      }
    }
  }

  /**
   * After the union (p, q), x and y are connected exactly when they already
   * were, or one of them reaches p and the other reaches q.
   */
  lemma UnionConnected(edges: set<Edge>, p: int, q: int, x: int, y: int)
    ensures Connected(edges + {(p, q)}, x, y) <==> ConnectedVia(edges, p, q, x, y)
  {
    var more := edges + {(p, q)};
    if Connected(more, x, y) {
      var w :| Walk(more, w) && w[0] == x && w[|w| - 1] == y;
      WalkAfterUnion(edges, p, q, w);
    }
    if ConnectedVia(edges, p, q, x, y) {
      JoinedConnected(more, p, q);
      ConnectedSymmetric(more, p, q);
      if Connected(edges, x, y) {
        ConnectedMonotone(edges, more, x, y);
      } else if Connected(edges, x, p) && Connected(edges, q, y) {
        ConnectedMonotone(edges, more, x, p);
        ConnectedMonotone(edges, more, q, y);
        ConnectedTransitive(more, x, p, q);
        ConnectedTransitive(more, x, q, y);
      } else {
        ConnectedMonotone(edges, more, x, q);
        ConnectedMonotone(edges, more, p, y);
        ConnectedTransitive(more, x, q, p);
        ConnectedTransitive(more, x, p, y);
      }
    }
  }

  /** Component labels `labels` describe the connectivity of `edges`. */
  ghost predicate LabelsMatch(labels: seq<int>, edges: set<Edge>) {
    forall x, y :: 0 <= x < |labels| && 0 <= y < |labels| ==>
      (labels[x] == labels[y] <==> Connected(edges, x, y))
  }

  /**
   * Quick-find union: relabelling every member of p's component with q's
   * label yields labels that describe the connectivity after the union (p, q).
   */
  lemma RelabelMatchesUnion(labels: seq<int>, relabelled: seq<int>, edges: set<Edge>, p: int, q: int)
    requires 0 <= p < |labels| && 0 <= q < |labels| && |relabelled| == |labels|
    requires LabelsMatch(labels, edges)
    requires forall k :: 0 <= k < |labels| ==>
      relabelled[k] == if labels[k] == labels[p] then labels[q] else labels[k]
    ensures LabelsMatch(relabelled, edges + {(p, q)})
  {
    forall x, y | 0 <= x < |labels| && 0 <= y < |labels|
      ensures relabelled[x] == relabelled[y] <==> Connected(edges + {(p, q)}, x, y)
    {
      UnionConnected(edges, p, q, x, y);
      assert labels[x] == labels[y] <==> Connected(edges, x, y);
      assert labels[x] == labels[p] <==> Connected(edges, x, p);
      assert labels[x] == labels[q] <==> Connected(edges, x, q);
      assert labels[p] == labels[y] <==> Connected(edges, p, y);
      assert labels[q] == labels[y] <==> Connected(edges, q, y);
    }
  }

  class UnionFind {
    /** id[x] is the label of x's component. */
    const id: array<int>
    /** Every union performed so far. */
    ghost var Edges: set<Edge>

    ghost predicate Valid()
      reads this, id
    {
      LabelsMatch(id[..], Edges)
    }

    /** N singleton components 0 .. N-1. */
    constructor (n: nat)
      ensures Valid() && fresh(id)
      ensures id.Length == n && Edges == {}
    {
      id := new int[n](i => i);
      Edges := {};
      new;
      forall x, y | 0 <= x < n && 0 <= y < n
        ensures id[..][x] == id[..][y] <==> Connected({}, x, y)
      {
        ConnectedWithoutUnions(x, y);
      }
    }

    /**
     * The component label of x: it is the label of exactly the elements
     * that unions have connected to x.
     */
    method Find(x: int) returns (root: int)
      requires Valid() && 0 <= x < id.Length
      ensures forall y :: 0 <= y < id.Length ==> (root == id[y] <==> Connected(Edges, x, y))
    {
      root := id[x];
      assert forall y :: 0 <= y < id.Length ==> id[..][y] == id[y];
    }

    /** Merges the components of p and q. */
    method Union(p: int, q: int)
      requires Valid() && 0 <= p < id.Length && 0 <= q < id.Length
      modifies this, id
      ensures Valid() && Edges == old(Edges) + {(p, q)}
    {
      ghost var labels := id[..];
      var pid := id[p];
      var qid := id[q];
      var i := 0;
      while i < id.Length
        invariant 0 <= i <= id.Length && Edges == old(Edges)
        invariant forall k :: 0 <= k < i ==> id[k] == if labels[k] == pid then qid else labels[k]
        invariant forall k :: i <= k < id.Length ==> id[k] == labels[k]
      {
        if id[i] == pid {
          id[i] := qid;
        }
        i := i + 1;
      }
      RelabelMatchesUnion(labels, id[..], Edges, p, q);
      Edges := Edges + {(p, q)};
    }
  }
}
