# Percolation lattice

A model of the Java class `Percolation`. It is an n-by-n grid of sites, each
blocked or open, with two disjoint-set (union-find) structures:

- `wquFull` has n*n + 2 elements: every site, a virtual top node and a virtual
  bottom node. It answers whether the system percolates.
- `wquTop` has n*n + 1 elements: every site and the virtual top only. It
  answers whether a site is full; because it has no bottom node, a site never
  turns full through the bottom row ("backwash").

Files:

- `Errors.dfy`: the `IllegalArgumentException`s as values (`Result`, `Outcome`)
  with the source's two messages.
- `DisjointSets.dfy`: a union-find class over an `array<int>` (quick-find). Its
  ghost field `Edges` records every pair passed to `Union`. The contract the
  lattice relies on: `Find(x) == Find(y)` exactly when a chain of unioned pairs
  leads from x to y (`Connected`).
- `Lattice.dfy`: the lattice as values: 1-based coordinates, the flattening of
  a site to an element, and the graph whose edges are the unions `open`
  performs. Here "full" means an open 4-adjacent path from the top row, and
  "percolates" means an open path from the top row to the bottom row. The
  lemmas say that connectivity in each structure is exactly that path
  property.
- `Percolation.dfy`: the class itself, with the grid as an `array2<bool>`, the
  count and the two structures as fields. `Open` changes them in place. The
  class invariant `Valid` ties the grid, the count and each structure's unions
  to the ghost set of open sites.

## Model

| member | source | states |
|---|---|---|
| Percolation.Percolation.constructor | Percolation.java:18-25 | a lattice of side n with no open site, count 0, no unions in either structure, and structures of n*n+2 and n*n+1 elements |
| Percolation.Percolation.Create | Percolation.java:14-26 | fails with the side message exactly when n <= 0; otherwise returns a fresh valid lattice with nothing open, count 0, no full site and no percolation |
| Percolation.Percolation.ValidateSite | Percolation.java:85-93 | passes exactly when (row, col) lies in [1,n]x[1,n], otherwise fails with the bounds message |
| Percolation.Percolation.IsOpen | Percolation.java:64-67 | the site's open state when it is on the lattice, the bounds error otherwise |
| Percolation.Percolation.Open | Percolation.java:29-61 | validates first; off the lattice or on an open site nothing changes (grid, count, both structures); a blocked site has exactly its own grid cell set, the count grows by one, each structure gains exactly the opening unions, and the invariant is kept; percolation is never lost |
| Percolation.Percolation.MarkOpen | Percolation.java:34-35 | sets exactly the opened site's cell and adds one to the count |
| Percolation.Percolation.UnionOpened | Percolation.java:37-60 | the two structures gain exactly the opening unions of the site (the body keeps the source's order) |
| Percolation.Percolation.UnionWithVirtualNodes | Percolation.java:38-44 | a top-row site is unioned with the virtual top in both structures; a bottom-row site is unioned with the virtual bottom only in `wquFull` |
| Percolation.Percolation.UnionIfOpen | Percolation.java:45-60 | the site is unioned with one neighbour in both structures exactly when that neighbour is on the lattice and open |
| Percolation.Percolation.IsFull | Percolation.java:70-73 | on the lattice, true exactly when an open path runs from the top row to the site; the bounds error otherwise; a full site is open |
| Percolation.Percolation.NumberOfOpenSites | Percolation.java:76-78 | the count equals the number of open sites |
| Percolation.Percolation.Percolates | Percolation.java:81-83 | true exactly when an open path runs from the top row to the bottom row |
| Percolation.BackwashScenario | Percolation.java:22 | in the 3-by-3 lattice with column 1 and corner (3, 3) open, the system percolates and the corner is not full |
| Lattice.OnSite | Percolation.java:91-93 | true exactly when 1 <= row <= n and 1 <= col <= n; a site exists only on a lattice with n > 0 |
| Lattice.FlattenedIndex | Percolation.java:95-97 | the element (row - 1) * n + col - 1 of a site; for a site on the lattice it lies in [0, n*n), below the virtual top n*n and the virtual bottom n*n + 1 |
| Lattice.NodeOfIndex | Percolation.java:95-97 | decoding the element of a site gives that site back |
| Lattice.IndexOfNode | Percolation.java:95-97 | every element in [0, n*n) is the element of a site on the lattice |
| Lattice.FlattenedIndexInjective | Percolation.java:95-97 | distinct sites have distinct elements |
| Lattice.FreshLatticeMatches | Percolation.java:19-25 | with nothing open and no unions, the unions match the lattice, nothing is full and nothing percolates |
| Lattice.NewLinkIsOpeningUnion | Percolation.java:37-60 | every graph edge that opening a site creates is one of the unions `open` performs |
| Lattice.OpeningUnionIsLink | Percolation.java:37-60 | every union `open` performs joins open neighbours, or a top-row or bottom-row site with its virtual node |
| Lattice.OpeningPreservesMatch | Percolation.java:34-60 | after opening a blocked site and performing its unions, only links were unioned and every link is connected |
| Lattice.NoBottomUnions | Percolation.java:22 | no union in `wquTop` involves the virtual bottom |
| Lattice.WalkFromTop | Percolation.java:72 | a chain of unions from the virtual top ends at a full site or, in the structure with a virtual bottom, the system percolates; it reaches the virtual bottom only in that structure and only when the system percolates |
| Lattice.OpenPathConnected | Percolation.java:37-60 | an open path from the top row connects the virtual top with the path's last site |
| Lattice.FullIff | Percolation.java:72 | in `wquTop`, a site is connected to the virtual top exactly when an open path from the top row reaches it |
| Lattice.PercolatesIff | Percolation.java:82 | in `wquFull`, the virtual top and bottom are connected exactly when an open path runs from the top row to the bottom row |
| Lattice.FullSiteIsOpen | Percolation.java:72 | a full site is open and on the lattice |
| Lattice.ReachesMonotone | Percolation.java:29-61 | opening more sites never makes a full site not full |
| Lattice.PercolatingMonotone | Percolation.java:29-61 | opening more sites never stops percolation |
| Lattice.Backwash | Percolation.java:21-22 | with column 1 and corner (3, 3) open, `wquFull` connects the corner to the virtual top through the bottom, while `wquTop` does not and the corner is not full |
| DisjointSets.UnionFind.constructor | Percolation.java:21-22 | N singleton components, with no unions recorded |
| DisjointSets.UnionFind.Find | Percolation.java:72 | the label of x, which equals the label of y exactly when unions connect x and y |
| DisjointSets.UnionFind.Union | Percolation.java:39 | records the pair (p, q) and keeps labels matching connectivity |
| DisjointSets.RelabelMatchesUnion | Percolation.java:39 | relabelling p's component with q's label matches the connectivity after the union (p, q) |
| DisjointSets.UnionConnected | Percolation.java:39 | after a union (p, q), x and y are connected exactly when they were, or one reaches p and the other q |
| DisjointSets.ConnectedWithoutUnions | Percolation.java:21-22 | before any union, an element is connected only to itself |
| DisjointSets.ConnectedTransitive | Percolation.java:72 | connectivity is transitive |
| DisjointSets.ConnectedSymmetric | Percolation.java:72 | connectivity is symmetric |

## Left out

- `PercolationStats` is not part of this model. It draws random sites, computes floating-point statistics and prints to standard output.
- `WeightedQuickUnionUF` is an external library whose source is not available. It is replaced by a quick-find structure with the same observable contract. Weighting and path compression change only cost, so they are not modelled.
- Percolation.Percolation.Create: requires n <= 46340, the largest side for which n * n + 2 fits in a Java `int`. The wrap-around of `gridSide * gridSide` for larger n is not modelled.
- Percolation.Percolation.Open: its body is split into `MarkOpen`, `UnionWithVirtualNodes`, `UnionIfOpen` and `UnionOpened`. They perform the same writes and unions in the same order.
- Calls the source makes on an invalid site end with an exception; here they return `Fail`/`Failure` with the same message, and nothing is changed.
