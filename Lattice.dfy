/**
 * The n-by-n site lattice as values: coordinates, the flattening of a site
 * to a union-find element, the graph whose edges are the unions the lattice
 * performs, and what "full" and "percolates" mean in terms of open paths.
 *
 * Rows and columns are 1-based. Site (row, col) is element
 * (row - 1) * n + col - 1; element n*n is the virtual top node and
 * element n*n + 1 the virtual bottom node.
 */
module Lattice {
  import opened DisjointSets

  datatype Cell = Cell(row: int, col: int)

  /** (row, col) lies on the n-by-n lattice, which then has at least one site. */
  predicate OnSite(n: int, c: Cell): (b: bool)
    ensures b ==> 0 < n
  {
    0 < c.row && 0 < c.col && c.row <= n && c.col <= n
  }

  /** The element of a site: it lies in [0, n*n), below both virtual nodes. */
  function FlattenedIndex(n: int, c: Cell): (k: int)
    ensures OnSite(n, c) ==> 0 <= k < VirtualTop(n)
  {
    assert OnSite(n, c) ==> (c.row - 1) * n <= (n - 1) * n;
    (c.row - 1) * n + c.col - 1
  }

  function VirtualTop(n: int): int {
    n * n
  }

  function VirtualBottom(n: int): int {
    n * n + 1
  }

  /** What a union-find element stands for. */
  datatype Vertex = Site(cell: Cell) | Top | Bottom | Outside

  /** The inverse of the flattening, extended to the two virtual nodes. */
  function Node(n: int, k: int): Vertex {
    if 0 < n && 0 <= k < n * n then Site(Cell(k / n + 1, k % n + 1))
    else if k == VirtualTop(n) then Top
    else if k == VirtualBottom(n) then Bottom
    else Outside
  }

  lemma NextMultiple(a: int, b: int, n: int)
    requires a < b && 0 < n
    ensures a * n + n <= b * n
  {
    var d := b - a - 1;
    assert b * n == a * n + n + d * n;
    assert 0 <= d * n;
  }

  lemma DivModUnique(k: int, n: int, q: int, m: int)
    requires 0 < n && 0 <= m < n && k == q * n + m
    ensures k / n == q && k % n == m
  {
    var q', m' := k / n, k % n;
    assert k == q' * n + m';
    if q' < q {
      NextMultiple(q', q, n);
    } else if q < q' {
      NextMultiple(q, q', n);
    }
  }

  /** Decoding a site's element gives the site back. */
  lemma NodeOfIndex(n: int, c: Cell)
    requires OnSite(n, c)
    ensures Node(n, FlattenedIndex(n, c)) == Site(c)
  {
    DivModUnique(FlattenedIndex(n, c), n, c.row - 1, c.col - 1);
  }

  /** Every element below n*n is the element of exactly one site. */
  lemma IndexOfNode(n: int, k: int)
    requires 0 < n && 0 <= k < n * n
    ensures Node(n, k).Site? && OnSite(n, Node(n, k).cell)
    ensures FlattenedIndex(n, Node(n, k).cell) == k
  {
    var r, m := k / n, k % n;
    assert k == r * n + m;
    if n <= r {
      NextMultiple(n - 1, r, n);
    }
  }

  /** Distinct sites never share an element. */
  lemma FlattenedIndexInjective(n: int, c: Cell, d: Cell)
    requires OnSite(n, c) && OnSite(n, d)
    ensures FlattenedIndex(n, c) == FlattenedIndex(n, d) ==> c == d
  {
    NodeOfIndex(n, c);
    NodeOfIndex(n, d);
  }

  /** 4-adjacency: left, right, up or down. */
  predicate Neighbours(a: Cell, b: Cell) {
    || (a.row == b.row && (a.col == b.col + 1 || b.col == a.col + 1))
    || (a.col == b.col && (a.row == b.row + 1 || b.row == a.row + 1))
  }

  /**
   * u and v are connected by one edge of the lattice's graph: two open
   * adjacent sites, an open top-row site and the virtual top, or (only when
   * `withBottom`) an open bottom-row site and the virtual bottom.
   */
  predicate Link(n: int, open: set<Cell>, withBottom: bool, u: int, v: int) {
    match (Node(n, u), Node(n, v))
    case (Site(a), Site(b)) => a in open && b in open && Neighbours(a, b)
    case (Top, Site(b)) => b in open && b.row == 1
    case (Site(a), Top) => a in open && a.row == 1
    case (Bottom, Site(b)) => withBottom && b in open && b.row == n
    case (Site(a), Bottom) => withBottom && a in open && a.row == n
    case _ => false
  }

  ghost predicate EdgesAreLinks(n: int, open: set<Cell>, withBottom: bool, edges: set<Edge>) {
    forall u, v :: (u, v) in edges ==> Link(n, open, withBottom, u, v)
  }

  ghost predicate LinksConnected(n: int, open: set<Cell>, withBottom: bool, edges: set<Edge>) {
    forall u, v :: Link(n, open, withBottom, u, v) ==> Connected(edges, u, v)
  }

  /**
   * The unions `edges` describe the open sites: only links were unioned, and
   * every link is connected by the unions.
   */
  ghost predicate UnionsMatch(n: int, open: set<Cell>, withBottom: bool, edges: set<Edge>) {
    EdgesAreLinks(n, open, withBottom, edges) && LinksConnected(n, open, withBottom, edges)
  }

  /** Without the bottom node, no union ever involves the virtual bottom. */
  lemma NoBottomUnions(n: int, open: set<Cell>, edges: set<Edge>, u: int, v: int)
    requires 0 < n && EdgesAreLinks(n, open, false, edges) && (u, v) in edges
    ensures u != VirtualBottom(n) && v != VirtualBottom(n)
  {
    assert Link(n, open, false, u, v);
  }

  /** A non-empty chain of open, 4-adjacent sites of the lattice. */
  ghost predicate OpenPath(n: int, open: set<Cell>, q: seq<Cell>) {
    && |q| > 0
    && (forall i :: 0 <= i < |q| ==> OnSite(n, q[i]) && q[i] in open)
    && (forall i :: 0 <= i < |q| - 1 ==> Neighbours(q[i], q[i + 1]))
  }

  /** c is full: an open path runs from an open top-row site to c. */
  ghost predicate ReachesFromTop(n: int, open: set<Cell>, c: Cell) {
    exists q: seq<Cell> :: OpenPath(n, open, q) && q[0].row == 1 && q[|q| - 1] == c
  }

  /** The system percolates: an open path runs from the top row to the bottom row. */
  ghost predicate Percolating(n: int, open: set<Cell>) {
    exists q: seq<Cell> :: OpenPath(n, open, q) && q[0].row == 1 && q[|q| - 1].row == n
  }

  /** The union joining newly opened c to d, if d exists and is open. */
  function NeighbourUnion(n: int, open: set<Cell>, c: Cell, d: Cell): set<Edge> {
    if OnSite(n, d) && d in open then {(FlattenedIndex(n, c), FlattenedIndex(n, d))} else {}
  }

  /**
   * The unions performed when the blocked site c opens: with the virtual top
   * if c is in the top row, with the virtual bottom if c is in the bottom row
   * (only in the structure that has one), and with each open neighbour.
   */
  function OpeningUnions(n: int, open: set<Cell>, withBottom: bool, c: Cell): set<Edge> {
    VirtualUnions(n, withBottom, c)
    + NeighbourUnion(n, open, c, Cell(c.row, c.col - 1))
    + NeighbourUnion(n, open, c, Cell(c.row, c.col + 1))
    + NeighbourUnion(n, open, c, Cell(c.row - 1, c.col))
    + NeighbourUnion(n, open, c, Cell(c.row + 1, c.col))
  }

  /** The unions of an opened site with the virtual nodes. */
  function VirtualUnions(n: int, withBottom: bool, c: Cell): set<Edge> {
    var index := FlattenedIndex(n, c);
    (if c.row == 1 then {(VirtualTop(n), index)} else {})
    + (if withBottom && c.row == n then {(VirtualBottom(n), index)} else {})
  }

  /**
   * Proof step for the caller that adds the five union sets one at a time:
   * the accumulated sets equal the opening unions.
   */
  lemma OpeningUnionsInOrder(e0: set<Edge>, n: int, open: set<Cell>, withBottom: bool, c: Cell)
    ensures e0 + VirtualUnions(n, withBottom, c)
      + NeighbourUnion(n, open, c, Cell(c.row, c.col - 1))
      + NeighbourUnion(n, open, c, Cell(c.row, c.col + 1))
      + NeighbourUnion(n, open, c, Cell(c.row - 1, c.col))
      + NeighbourUnion(n, open, c, Cell(c.row + 1, c.col))
      == e0 + OpeningUnions(n, open, withBottom, c)
  {
  }

  lemma OpenPathStart(n: int, open: set<Cell>, q: seq<Cell>)
    requires |q| > 0
    ensures OpenPath(n, open, q) ==> q[0] in open
  {
  }

  /** A fresh lattice: nothing open, nothing unioned, and the two agree. */
  lemma FreshLatticeMatches(n: int, withBottom: bool)
    requires 0 < n
    ensures UnionsMatch(n, {}, withBottom, {})
    ensures !Percolating(n, {})
    ensures forall c :: !ReachesFromTop(n, {}, c)
  {
    forall u, v
      ensures !Link(n, {}, withBottom, u, v)
    {
    }
    forall q: seq<Cell>
      ensures !OpenPath(n, {}, q)
    {
      if |q| > 0 {
        OpenPathStart(n, {}, q);
      }
    }
  }

  /** A link that exists only once c is open is one of the unions of opening c. */
  lemma NewLinkIsOpeningUnion(n: int, open: set<Cell>, withBottom: bool, c: Cell, u: int, v: int)
    requires 0 < n && OnSite(n, c) && c !in open
    requires Link(n, open + {c}, withBottom, u, v) && !Link(n, open, withBottom, u, v)
    ensures Joined(OpeningUnions(n, open, withBottom, c), u, v)
  {
    var unions := OpeningUnions(n, open, withBottom, c);
    var index := FlattenedIndex(n, c);
    if Node(n, u).Site? && Node(n, v).Site? {
      IndexOfNode(n, u);
      IndexOfNode(n, v);
      var a, b := Node(n, u).cell, Node(n, v).cell;
      if a == c {
        assert b in open && u == index;
        assert NeighbourUnion(n, open, c, b) == {(u, v)};
        assert (u, v) in unions;
      } else {
        assert b == c && a in open && v == index;
        assert NeighbourUnion(n, open, c, a) == {(v, u)};
        assert (v, u) in unions;
      }
    } else if Node(n, u).Site? {
      IndexOfNode(n, u);
      assert Node(n, u).cell == c && u == index;
      if Node(n, v).Top? {
        assert (VirtualTop(n), index) in unions;
      } else {
        assert Node(n, v).Bottom?;
        assert (VirtualBottom(n), index) in unions;
      }
    } else {
      IndexOfNode(n, v);
      assert Node(n, v).cell == c && v == index;
      if Node(n, u).Top? {
        assert (VirtualTop(n), index) in unions;
      } else {
        assert Node(n, u).Bottom?;
        assert (VirtualBottom(n), index) in unions;
      }
    }
  }

  /** A union of opening c is a link once c is open. */
  lemma OpeningUnionIsLink(n: int, open: set<Cell>, withBottom: bool, c: Cell, u: int, v: int)
    requires 0 < n && OnSite(n, c)
    requires (u, v) in OpeningUnions(n, open, withBottom, c)
    ensures Link(n, open + {c}, withBottom, u, v)
  {
    NodeOfIndex(n, c);
    var index := FlattenedIndex(n, c);
    if u == index {
      var d :| d in [Cell(c.row, c.col - 1), Cell(c.row, c.col + 1), Cell(c.row - 1, c.col), Cell(c.row + 1, c.col)]
        && OnSite(n, d) && d in open && v == FlattenedIndex(n, d);
      NodeOfIndex(n, d);
    } else {
      assert u == VirtualTop(n) || u == VirtualBottom(n);
    }
  }

  /**
   * Opening the blocked site c and performing exactly its opening unions keeps
   * the unions in step with the open sites.
   */
  lemma OpeningPreservesMatch(n: int, open: set<Cell>, withBottom: bool, edges: set<Edge>, c: Cell)
    requires 0 < n && OnSite(n, c) && c !in open
    requires UnionsMatch(n, open, withBottom, edges)
    ensures UnionsMatch(n, open + {c}, withBottom, edges + OpeningUnions(n, open, withBottom, c))
  {
    var widened := open + {c};
    var unions := OpeningUnions(n, open, withBottom, c);
    var more := edges + unions;
    forall u, v | (u, v) in more
      ensures Link(n, widened, withBottom, u, v)
    {
      if (u, v) in edges {
        assert Link(n, widened, withBottom, u, v);
      } else {
        OpeningUnionIsLink(n, open, withBottom, c, u, v);
      }
    }
    forall u, v | Link(n, widened, withBottom, u, v)
      ensures Connected(more, u, v)
    {
      if Link(n, open, withBottom, u, v) {
        ConnectedMonotone(edges, more, u, v);
      } else {
        NewLinkIsOpeningUnion(n, open, withBottom, c, u, v);
        JoinedConnected(more, u, v);
      }
    }
  }

  lemma ExtendOpenPath(n: int, open: set<Cell>, q: seq<Cell>, b: Cell)
    requires OpenPath(n, open, q) && OnSite(n, b) && b in open && Neighbours(q[|q| - 1], b)
    ensures OpenPath(n, open, q + [b]) && (q + [b])[0] == q[0]
  {
    var r := q + [b];
    forall i | 0 <= i < |r| - 1
      ensures Neighbours(r[i], r[i + 1])
    {
      if i < |q| - 1 {
        assert r[i] == q[i] && r[i + 1] == q[i + 1];
      }
    }
  }

  /**
   * Where a chain of unions from the virtual top can end: at a site that an
   * open path reaches from the top row, or (through the virtual bottom, in the
   * structure that has one) anywhere once the system percolates.
   */
  lemma {:induction false} WalkFromTop(n: int, open: set<Cell>, withBottom: bool, edges: set<Edge>, p: seq<int>)
    requires 0 < n && EdgesAreLinks(n, open, withBottom, edges)
    requires Walk(edges, p) && p[0] == VirtualTop(n)
    ensures Node(n, p[|p| - 1]).Site? ==>
      ReachesFromTop(n, open, Node(n, p[|p| - 1]).cell) || (withBottom && Percolating(n, open))
    ensures Node(n, p[|p| - 1]).Bottom? ==> withBottom && Percolating(n, open)
    decreases |p|
  {
    if |p| > 1 {
      var p' := p[..|p| - 1];
      assert Walk(edges, p') by {
        forall i | 0 <= i < |p'| - 1
          ensures Joined(edges, p'[i], p'[i + 1])
        {
          assert p'[i] == p[i] && p'[i + 1] == p[i + 1];
        }
      }
      WalkFromTop(n, open, withBottom, edges, p');
      var x, y := p[|p| - 2], p[|p| - 1];
      assert p'[|p'| - 1] == x;
      assert Joined(edges, x, y);
      assert Link(n, open, withBottom, x, y) || Link(n, open, withBottom, y, x);
      if Node(n, y).Site? {
        IndexOfNode(n, y);
        var b := Node(n, y).cell;
        if Node(n, x).Top? {
          assert OpenPath(n, open, [b]);
        } else if Node(n, x).Site? {
          var a := Node(n, x).cell;
          if ReachesFromTop(n, open, a) {
            var q: seq<Cell> :| OpenPath(n, open, q) && q[0].row == 1 && q[|q| - 1] == a;
            ExtendOpenPath(n, open, q, b);
          }
        }
      } else if Node(n, y).Bottom? {
        assert Node(n, x).Site?;
        var a := Node(n, x).cell;
        if ReachesFromTop(n, open, a) {
          var q: seq<Cell> :| OpenPath(n, open, q) && q[0].row == 1 && q[|q| - 1] == a;
          assert a.row == n;
        }
      }
    }
  }

  /** An open path from the top row is a chain of unions from the virtual top. */
  lemma {:induction false} OpenPathConnected(n: int, open: set<Cell>, withBottom: bool, edges: set<Edge>, q: seq<Cell>)
    requires 0 < n && LinksConnected(n, open, withBottom, edges)
    requires OpenPath(n, open, q) && q[0].row == 1
    ensures Connected(edges, VirtualTop(n), FlattenedIndex(n, q[|q| - 1]))
    decreases |q|
  {
    var last := q[|q| - 1];
    NodeOfIndex(n, last);
    if |q| == 1 {
      assert Link(n, open, withBottom, VirtualTop(n), FlattenedIndex(n, last));
    } else {
      var q' := q[..|q| - 1];
      assert OpenPath(n, open, q') by {
        forall i | 0 <= i < |q'| - 1
          ensures Neighbours(q'[i], q'[i + 1])
        {
          assert q'[i] == q[i] && q'[i + 1] == q[i + 1];
        }
      }
      OpenPathConnected(n, open, withBottom, edges, q');
      var prev := q'[|q'| - 1];
      assert prev == q[|q| - 2];
      NodeOfIndex(n, prev);
      assert Link(n, open, withBottom, FlattenedIndex(n, prev), FlattenedIndex(n, last));
      ConnectedTransitive(edges, VirtualTop(n), FlattenedIndex(n, prev), FlattenedIndex(n, last));
    }
  }

  /**
   * In the structure without a virtual bottom, a site is connected to the
   * virtual top exactly when an open path runs to it from the top row.
   */
  lemma FullIff(n: int, open: set<Cell>, edges: set<Edge>, c: Cell)
    requires 0 < n && OnSite(n, c) && UnionsMatch(n, open, false, edges)
    ensures Connected(edges, VirtualTop(n), FlattenedIndex(n, c)) <==> ReachesFromTop(n, open, c)
  {
    NodeOfIndex(n, c);
    if Connected(edges, VirtualTop(n), FlattenedIndex(n, c)) {
      var p :| Walk(edges, p) && p[0] == VirtualTop(n) && p[|p| - 1] == FlattenedIndex(n, c);
      WalkFromTop(n, open, false, edges, p);
    }
    if ReachesFromTop(n, open, c) {
      var q: seq<Cell> :| OpenPath(n, open, q) && q[0].row == 1 && q[|q| - 1] == c;
      OpenPathConnected(n, open, false, edges, q);
    }
  }

  /**
   * In the structure with both virtual nodes, top and bottom are connected
   * exactly when an open path runs from the top row to the bottom row.
   */
  lemma PercolatesIff(n: int, open: set<Cell>, edges: set<Edge>)
    requires 0 < n && UnionsMatch(n, open, true, edges)
    ensures Connected(edges, VirtualTop(n), VirtualBottom(n)) <==> Percolating(n, open)
  {
    assert Node(n, VirtualBottom(n)).Bottom?;
    if Connected(edges, VirtualTop(n), VirtualBottom(n)) {
      var p :| Walk(edges, p) && p[0] == VirtualTop(n) && p[|p| - 1] == VirtualBottom(n);
      WalkFromTop(n, open, true, edges, p);
    }
    if Percolating(n, open) {
      var q: seq<Cell> :| OpenPath(n, open, q) && q[0].row == 1 && q[|q| - 1].row == n;
      var last := q[|q| - 1];
      OpenPathConnected(n, open, true, edges, q);
      NodeOfIndex(n, last);
      assert Link(n, open, true, FlattenedIndex(n, last), VirtualBottom(n));
      ConnectedTransitive(edges, VirtualTop(n), FlattenedIndex(n, last), VirtualBottom(n));
    }
  }

  /** A full site is open. */
  lemma FullSiteIsOpen(n: int, open: set<Cell>, c: Cell)
    requires ReachesFromTop(n, open, c)
    ensures c in open && OnSite(n, c)
  {
    var q: seq<Cell> :| OpenPath(n, open, q) && q[0].row == 1 && q[|q| - 1] == c;
    assert q[|q| - 1] in open;
  }

  /** Opening more sites never makes a full site stop being full. */
  lemma ReachesMonotone(n: int, open: set<Cell>, more: set<Cell>, c: Cell)
    requires open <= more && ReachesFromTop(n, open, c)
    ensures ReachesFromTop(n, more, c)
  {
    var q: seq<Cell> :| OpenPath(n, open, q) && q[0].row == 1 && q[|q| - 1] == c;
    assert OpenPath(n, more, q);
  }

  /** Opening more sites never makes a percolating system stop percolating. */
  lemma PercolatingMonotone(n: int, open: set<Cell>, more: set<Cell>)
    requires open <= more && Percolating(n, open)
    ensures Percolating(n, more)
  {
    var q: seq<Cell> :| OpenPath(n, open, q) && q[0].row == 1 && q[|q| - 1].row == n;
    assert OpenPath(n, more, q);
  }

  /** A 3-by-3 lattice with column 1 open and the isolated site (3, 3). */
  const BackwashSites: set<Cell> := {Cell(1, 1), Cell(2, 1), Cell(3, 1), Cell(3, 3)}

  lemma IsolatedSite(d: Cell)
    requires d in BackwashSites
    ensures !Neighbours(d, Cell(3, 3))
  {
  }

  /**
   * The backwash case: the system percolates, and (3, 3) is not full, yet in
   * a structure with a virtual bottom (3, 3) is connected to the virtual top
   * through it; in the structure without one it is not.
   */
  lemma Backwash(top: set<Edge>, full: set<Edge>)
    requires UnionsMatch(3, BackwashSites, false, top)
    requires UnionsMatch(3, BackwashSites, true, full)
    ensures Percolating(3, BackwashSites)
    ensures !ReachesFromTop(3, BackwashSites, Cell(3, 3))
    ensures Connected(full, VirtualTop(3), FlattenedIndex(3, Cell(3, 3)))
    ensures !Connected(top, VirtualTop(3), FlattenedIndex(3, Cell(3, 3)))
  {
    var open := BackwashSites;
    assert OpenPath(3, open, [Cell(1, 1), Cell(2, 1), Cell(3, 1)]);
    forall q: seq<Cell> | OpenPath(3, open, q) && q[|q| - 1] == Cell(3, 3)
      ensures q == [Cell(3, 3)]
    {
      if |q| > 1 {
        IsolatedSite(q[|q| - 2]);
      }
    }
    FullIff(3, open, top, Cell(3, 3));
    PercolatesIff(3, open, full);
    assert Node(3, 8) == Site(Cell(3, 3));
    assert Link(3, open, true, VirtualBottom(3), 8);
    ConnectedTransitive(full, VirtualTop(3), VirtualBottom(3), 8);
  }
}
