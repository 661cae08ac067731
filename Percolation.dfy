/**
 * The percolation lattice: an n-by-n grid of sites, each blocked or open,
 * with two disjoint-set structures answering connectivity queries.
 *
 * `wquFull` holds every site plus a virtual top and a virtual bottom node and
 * answers whether the system percolates. `wquTop` holds every site plus the
 * virtual top only and answers whether a site is full; keeping the bottom
 * node out of it is what stops backwash.
 */
module Percolation {
  import opened Errors
  import opened DisjointSets
  import opened Lattice

  /** The largest side for which n * n + 2 fits in a Java int. */
  const MaxSide: int := 46340

  class Percolation {
    const grid: array2<bool>
    const gridSide: int
    const wquFull: UnionFind
    const wquTop: UnionFind
    const virtualTop: int
    const virtualBottom: int
    var openSites: int
    /** The open sites, as 1-based coordinates. */
    ghost var OpenCells: set<Cell>

    ghost function Repr(): set<object> {
      {this, grid, wquFull, wquFull.id, wquTop, wquTop.id}
    }

    /** The grid has side n and records exactly the open sites. */
    ghost predicate GridValid()
      reads this, grid
    {
      && 0 < gridSide
      && grid.Length0 == gridSide && grid.Length1 == gridSide
      && (forall c :: c in OpenCells ==> OnSite(gridSide, c))
      && (forall r, c :: 0 <= r < gridSide && 0 <= c < gridSide ==>
            (grid[r, c] <==> Cell(r + 1, c + 1) in OpenCells))
    }

    /** The two disjoint-set structures are separate and sized for the lattice. */
    ghost predicate StructuresValid()
      reads Repr()
    {
      && wquFull != wquTop && wquFull.id != wquTop.id
      && wquFull.id.Length == gridSide * gridSide + 2
      && wquTop.id.Length == gridSide * gridSide + 1
      && wquFull.Valid() && wquTop.Valid()
    }

    ghost predicate Valid()
      reads Repr()
    {
      && GridValid()
      && StructuresValid()
      && virtualTop == VirtualTop(gridSide) && virtualBottom == VirtualBottom(gridSide)
      && openSites == |OpenCells|
      && UnionsMatch(gridSide, OpenCells, false, wquTop.Edges)
      && UnionsMatch(gridSide, OpenCells, true, wquFull.Edges)
    }

    /** The constructor past its argument check: all n * n sites blocked. */
    constructor (n: int)
      requires 0 < n
      ensures Valid() && fresh(Repr())
      ensures gridSide == n && OpenCells == {} && openSites == 0
      ensures wquTop.Edges == {} && wquFull.Edges == {}
    {
      gridSide := n;
      var gridArea := n * n;
      grid := new bool[n, n]((r, c) => false);
      wquFull := new UnionFind(gridArea + 2);
      wquTop := new UnionFind(gridArea + 1);
      virtualTop := gridArea;
      virtualBottom := gridArea + 1;
      openSites := 0;
      OpenCells := {};
      new;
      FreshLatticeMatches(n, false);
      FreshLatticeMatches(n, true);
    }

    /**
     * Creates an n-by-n lattice with every site blocked, or fails with an
     * invalid-argument error when n is not positive. A fresh lattice has no
     * full site and does not percolate.
     */
    static method Create(n: int) returns (r: Result<Percolation>)
      requires n <= MaxSide
      ensures r.Failure? <==> n <= 0
      ensures r.Failure? ==> r.error == IllegalArgument(SideMessage)
      ensures r.Success? ==> fresh(r.value.Repr()) && r.value.Valid() && r.value.gridSide == n
      ensures r.Success? ==> r.value.OpenCells == {} && r.value.openSites == 0
      ensures r.Success? ==> !Percolating(n, r.value.OpenCells)
      ensures r.Success? ==> forall c :: !ReachesFromTop(n, r.value.OpenCells, c)
    {
      if n <= 0 {
        return Failure(IllegalArgument(SideMessage));
      }
      var p := new Percolation(n);
      FreshLatticeMatches(n, false);
      r := Success(p);
    }

    /** Fails, before anything is read or changed, unless (row, col) is on the lattice. */
    function ValidateSite(row: int, col: int): (v: Outcome)
      ensures v.Pass? <==> OnSite(gridSide, Cell(row, col))
      ensures v.Fail? ==> v.error == IllegalArgument(BoundsMessage)
    {
      if OnSite(gridSide, Cell(row, col)) then Pass else Fail(IllegalArgument(BoundsMessage))
    }

    /** Whether (row, col) is open; an error if it is off the lattice. */
    function IsOpen(row: int, col: int): (r: Result<bool>)
      reads this, grid
      requires GridValid()
      ensures r == if OnSite(gridSide, Cell(row, col))
        then Success(Cell(row, col) in OpenCells)
        else Failure(IllegalArgument(BoundsMessage))
    {
      var v := ValidateSite(row, col);
      if v.Fail? then Failure(v.error) else Success(grid[row - 1, col - 1])
    }

    /** The number of open sites. */
    function NumberOfOpenSites(): (count: int)
      reads Repr()
      requires Valid()
      ensures count == |OpenCells|
    {
      openSites
    }

    /**
     * Opens (row, col) if it is not open already. Off the lattice it fails and
     * changes nothing; on an open site it changes nothing. Opening a blocked
     * site sets exactly its grid cell, adds one to the count and performs its
     * opening unions in both structures (the virtual bottom one in `wquFull`
     * only).
     */
    method Open(row: int, col: int) returns (outcome: Outcome)
      requires Valid()
      modifies Repr()
      ensures Valid()
      ensures outcome == ValidateSite(row, col)
      ensures outcome.Fail? || old(Cell(row, col) in OpenCells) ==>
        && OpenCells == old(OpenCells) && openSites == old(openSites)
        && wquTop.Edges == old(wquTop.Edges) && wquFull.Edges == old(wquFull.Edges)
        && unchanged(grid, wquTop.id, wquFull.id)
      ensures outcome.Pass? && old(Cell(row, col) !in OpenCells) ==>
        && OpenCells == old(OpenCells) + {Cell(row, col)}
        && openSites == old(openSites) + 1
        && wquTop.Edges == old(wquTop.Edges) + OpeningUnions(gridSide, old(OpenCells), false, Cell(row, col))
        && wquFull.Edges == old(wquFull.Edges) + OpeningUnions(gridSide, old(OpenCells), true, Cell(row, col))
        && grid[row - 1, col - 1]
        && forall r, c :: 0 <= r < gridSide && 0 <= c < gridSide && (r, c) != (row - 1, col - 1) ==>
             grid[r, c] == old(grid[r, c])
      ensures old(Percolating(gridSide, OpenCells)) ==> Percolating(gridSide, OpenCells)
    {
      outcome := ValidateSite(row, col);
      if outcome.Fail? {
        return;
      }
      if IsOpen(row, col).value {
        return;
      }
      var cell := Cell(row, col);
      ghost var before := OpenCells;
      MarkOpen(cell);
      UnionOpened(cell, before);
      OpeningPreservesMatch(gridSide, before, false, old(wquTop.Edges), cell);
      OpeningPreservesMatch(gridSide, before, true, old(wquFull.Edges), cell);
      if Percolating(gridSide, before) {
        PercolatingMonotone(gridSide, before, OpenCells);
      }
    }

    /** The first half of opening a blocked site: the grid cell and the count. */
    method MarkOpen(cell: Cell)
      requires GridValid() && OnSite(gridSide, cell) && cell !in OpenCells
      modifies this, grid
      ensures GridValid()
      ensures OpenCells == old(OpenCells) + {cell} && openSites == old(openSites) + 1
      ensures grid[cell.row - 1, cell.col - 1]
      ensures forall r, c :: 0 <= r < gridSide && 0 <= c < gridSide && (r, c) != (cell.row - 1, cell.col - 1) ==>
        grid[r, c] == old(grid[r, c])
    {
      grid[cell.row - 1, cell.col - 1] := true;
      openSites := openSites + 1;
      OpenCells := OpenCells + {cell};
    }

    /**
     * The second half of opening a blocked site: the unions with the virtual
     * nodes and with every open neighbour.
     */
    method UnionOpened(cell: Cell, ghost before: set<Cell>)
      requires GridValid() && StructuresValid() && OnSite(gridSide, cell)
      requires virtualTop == VirtualTop(gridSide) && virtualBottom == VirtualBottom(gridSide)
      requires OpenCells == before + {cell} && cell !in before
      modifies wquFull, wquFull.id, wquTop, wquTop.id
      ensures StructuresValid()
      ensures wquTop.Edges == old(wquTop.Edges) + OpeningUnions(gridSide, before, false, cell)
      ensures wquFull.Edges == old(wquFull.Edges) + OpeningUnions(gridSide, before, true, cell)
    {
      var row, col := cell.row, cell.col;
      UnionWithVirtualNodes(cell);
      UnionIfOpen(cell, Cell(row, col - 1), before);
      UnionIfOpen(cell, Cell(row, col + 1), before);
      UnionIfOpen(cell, Cell(row - 1, col), before);
      UnionIfOpen(cell, Cell(row + 1, col), before);
      OpeningUnionsInOrder(old(wquTop.Edges), gridSide, before, false, cell);
      OpeningUnionsInOrder(old(wquFull.Edges), gridSide, before, true, cell);
    }

    /**
     * Unions the newly opened cell with the virtual top in both structures if
     * it is in the top row, and with the virtual bottom in `wquFull` if it is
     * in the bottom row.
     */
    method UnionWithVirtualNodes(cell: Cell)
      requires StructuresValid() && OnSite(gridSide, cell)
      requires virtualTop == VirtualTop(gridSide) && virtualBottom == VirtualBottom(gridSide)
      modifies wquFull, wquFull.id, wquTop, wquTop.id
      ensures StructuresValid()
      ensures wquTop.Edges == old(wquTop.Edges) + VirtualUnions(gridSide, false, cell)
      ensures wquFull.Edges == old(wquFull.Edges) + VirtualUnions(gridSide, true, cell)
    {
      var index := FlattenedIndex(gridSide, cell);
      if cell.row == 1 {
        wquFull.Union(virtualTop, index);
        wquTop.Union(virtualTop, index);
      }
      if cell.row == gridSide {
        wquFull.Union(virtualBottom, index);
      }
    }

    /**
     * If d is on the lattice and open, unions the newly opened cell with it in
     * both structures.
     */
    method UnionIfOpen(cell: Cell, d: Cell, ghost before: set<Cell>)
      requires GridValid() && StructuresValid() && OnSite(gridSide, cell)
      requires OpenCells == before + {cell} && d != cell
      modifies wquFull, wquFull.id, wquTop, wquTop.id
      ensures StructuresValid()
      ensures wquFull.Edges == old(wquFull.Edges) + NeighbourUnion(gridSide, before, cell, d)
      ensures wquTop.Edges == old(wquTop.Edges) + NeighbourUnion(gridSide, before, cell, d)
    {
      if OnSite(gridSide, d) && IsOpen(d.row, d.col).value {
        var index := FlattenedIndex(gridSide, cell);
        var neighbour := FlattenedIndex(gridSide, d);
        wquFull.Union(index, neighbour);
        wquTop.Union(index, neighbour);
      }
    }

    /**
     * Whether (row, col) is full: an open path runs to it from an open site
     * of the top row. An error if it is off the lattice. A full site is open.
     */
    method IsFull(row: int, col: int) returns (r: Result<bool>)
      requires Valid()
      ensures r == if OnSite(gridSide, Cell(row, col))
        then Success(ReachesFromTop(gridSide, OpenCells, Cell(row, col)))
        else Failure(IllegalArgument(BoundsMessage))
      ensures r == Success(true) ==> Cell(row, col) in OpenCells
    {
      var v := ValidateSite(row, col);
      if v.Fail? {
        return Failure(v.error);
      }
      var cell := Cell(row, col);
      var index := FlattenedIndex(gridSide, cell);
      var top := wquTop.Find(virtualTop);
      var site := wquTop.Find(index);
      ConnectedReflexive(wquTop.Edges, index);
      FullIff(gridSide, OpenCells, wquTop.Edges, cell);
      r := Success(top == site);
      if top == site {
        FullSiteIsOpen(gridSide, OpenCells, cell);
      }
    }

    /** Whether an open path runs from the top row to the bottom row. */
    method Percolates() returns (b: bool)
      requires Valid()
      ensures b == Percolating(gridSide, OpenCells)
    {
      var top := wquFull.Find(virtualTop);
      var bottom := wquFull.Find(virtualBottom);
      ConnectedReflexive(wquFull.Edges, virtualBottom);
      PercolatesIff(gridSide, OpenCells, wquFull.Edges);
      b := top == bottom;
    }
  }

  /** Opens a blocked site of a lattice; the client's view of `Open`. */
  method OpenBlocked(p: Percolation, c: Cell)
    requires p.Valid() && OnSite(p.gridSide, c) && c !in p.OpenCells
    modifies p.Repr()
    ensures p.Valid() && p.OpenCells == old(p.OpenCells) + {c}
  {
    var _ := p.Open(c.row, c.col);
  }

  /** The first column and the bottom-right corner of a 3-by-3 lattice open. */
  method BackwashLattice() returns (p: Percolation)
    ensures fresh(p.Repr()) && p.Valid() && p.gridSide == 3 && p.OpenCells == BackwashSites
  {
    var created := Percolation.Create(3);
    p := created.value;
    OpenBlocked(p, Cell(1, 1));
    OpenBlocked(p, Cell(2, 1));
    OpenBlocked(p, Cell(3, 1));
    OpenBlocked(p, Cell(3, 3));
  }

  /**
   * The backwash case: once column 1 and the isolated corner (3, 3) are open
   * the system percolates, and the corner is still not full.
   */
  method BackwashScenario() returns (percolates: bool, cornerFull: Result<bool>)
    ensures percolates && cornerFull == Success(false)
  {
    var p := BackwashLattice();
    Backwash(p.wquTop.Edges, p.wquFull.Edges);
    percolates := p.Percolates();
    cornerFull := p.IsFull(3, 3);
  }
}
