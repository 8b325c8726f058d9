# Cells, paper sizes and fill geometry — a Dafny model

This project models the algorithmic core of a generative-art repository written in Rust:

- **`cells`** (`cells/src/main.rs`): a `Grid` holds the unclaimed cells of a `w` x `h` board. The
  carving loop of `model` takes the cells in chains. It draws a length cap in [4, 13), a direction
  and an unclaimed start cell at random. Then it walks in that direction, claiming cells until it
  leaves the board, meets a claimed cell, or the chain is longer than the cap. This repeats until
  the board is empty. `Grid` is a Dafny class whose `available` field is a `set` that `TakeCell`
  updates in place. The carving loop is two `while` loops with invariants. Random draws are
  nondeterministic choices (`:|`).
- **`cells` paper sizes** (`cells/src/paper.rs`): `Paper::from_iso216` works out the ISO 216
  A-series size in millimetres. It starts from A0 = 841 x 1189 and halves `n` times with integer
  division. Landscape swaps width and height. It is a method with the halving loop, proved equal
  to a recursive specification function.
- **`fills`** (`fills/src/lib.rs`): a lattice of points over a rectangle, the same lattice
  shuffled, and a rectangle cut into triangles by repeated four-way subdivision. Coordinates are
  reals. nannou's `Rect::subdivisions` and `Rect::triangles_iter` are not part of this model, so
  they are function parameters. Their result types (four rectangles, two triangles) fix the counts.

Modules: `Wrappers` (Option, Result), `PaperSizes`, `Cells`, `Fills`.

Edge cases, as the code handles them:
- `subtriangles` does not reject a negative `levels`. The range `0..levels` is then empty, so the
  result is the same as for `levels = 0`.
- `evenly_distributed_grid` does not reject a negative density. It gives a negative spacing, and the
  lattice follows from the rounding (often empty). Only density 0 is excluded here, because real
  division by zero is undefined.
- The carving peeks at a random cell, checks that it is untaken, then takes it, as three separate
  grid calls.

## Model

| member | source | states |
|---|---|---|
| `PaperSizes.FromIso216` | cells/src/paper.rs:45-81 | the halving loop's result equals `Lookup`: parse errors first, then `Halvings(n)` oriented |
| `PaperSizes.Name` | cells/src/paper.rs:31-35 | a size's display text has length 2 and starts with 'A' |
| `PaperSizes.ParseDigit` | cells/src/paper.rs:54 | a one-character string parses iff it is a decimal digit, to the value whose digit is that character |
| `PaperSizes.SheetNumber` | cells/src/paper.rs:49-56 | `BadLenErr` iff the name's length is not 2; `ParseIntErr` iff length 2 and a non-digit second character; otherwise the digit's value |
| `PaperSizes.HalvingsOrdered` | cells/src/paper.rs:58-64 | every halving step keeps 0 <= shortest <= longest <= 2 * shortest + 1 |
| `PaperSizes.MatchesIsoTable` | cells/src/paper.rs:58-64 | n halvings of 841 x 1189 give the ISO 216 table A0 to A8, down to 52 x 74 |
| `PaperSizes.LookupSucceeds` | cells/src/paper.rs:49-80 | every variant A0 to A8 yields `Ok`, keeps the input size, and has the sides of `Halvings(index)` |
| `PaperSizes.LandscapeSwapsPortrait` | cells/src/paper.rs:66-77 | landscape equals portrait with w and h swapped, and portrait w <= h |
| `PaperSizes.TestedSizes` | cells/src/paper.rs:96-116 | A0 to A4 portrait and A0 landscape have the millimetre sizes the unit test expects |
| `Cells.Grid.constructor` | cells/src/main.rs:439-449 | a new grid holds exactly the cells (i, j) with 0 <= i < w and 0 <= j < h |
| `Cells.AllCellsSize` | cells/src/main.rs:439-449 | that cell set has w * h members |
| `Cells.Grid.PeekRandom` | cells/src/main.rs:451-456 | returns `Some` member of the set iff the set is non-empty; changes nothing |
| `Cells.Grid.CellTaken` | cells/src/main.rs:458-460 | a cell outside the board always counts as taken |
| `Cells.Grid.TakeCell` | cells/src/main.rs:462-468 | returns `Some(c)` iff c was available, removes exactly c, changes nothing else, and keeps the grid within the board |
| `Cells.Grid.HasCells` | cells/src/main.rs:470-472 | true iff some cell is not taken |
| `Cells.Grid.AdjacentCellCoordinates` | cells/src/main.rs:474-488 | `Some(cell + delta)` iff that cell is on the board, else `None`; it reads no occupancy |
| `Cells.AdjacentRoundTrip` | cells/src/main.rs:474-488 | stepping back the opposite way from an on-board neighbour returns to the cell |
| `Cells.BoundaryNeighbours` | cells/src/main.rs:474-488 | no neighbour left of or below (0, 0), none right of or above (w-1, h-1); interior cells have all four |
| `Cells.TestedNeighbours` | cells/src/main.rs:511-536 | the neighbours of (9, 9) and (0, 0) on a 10 x 10 board that the unit tests expect |
| `Cells.TakeCellTwice` | cells/src/main.rs:494-509 | on a fresh 20 x 20 board (1, 1) starts untaken; the first claim returns it, drops the size from 400 to 399 and leaves it taken; a second claim returns `None` |
| `Cells.TakeRandomCells` | cells/src/main.rs:538-552 | peeking and taking until nothing is left claims exactly w * h cells |
| `Cells.ChooseWeighted` | cells/src/main.rs:395-398 | a weighted draw returns an entry whose weight is positive |
| `Cells.RandomDirection` | cells/src/main.rs:351-362 | a direction from the four-entry table |
| `Cells.FromCells` | cells/src/main.rs:386-400 | keeps the cells; colour and fill type are drawable entries of their tables |
| `Cells.ExtendChain` | cells/src/main.rs:152-170 | the walk is a straight run in its direction, at most cap + 1 long; the claimed cells and the grid still partition the board; it stopped because it is cap + 1 long, or its next cell is off the board, or an earlier chain holds that cell |
| `Cells.BlockedByClaimed` | cells/src/main.rs:155-163 | when the next cell is on the board but no longer available, an earlier chain holds it |
| `Cells.WalkNeverReturns` | cells/src/main.rs:152-159 | the cell after a straight walk's last cell is none of the walk's own cells |
| `Cells.CarveChains` | cells/src/main.rs:139-174 | after the loop the chains' cells, without repeats, are exactly the board; each chain is a straight run with a cap in [4, 13) and drawn attributes; chain k stopped at cap + 1 cells, at the board edge, or before a cell of chains 0 to k - 1 |
| `Cells.CarvedChainsPartitionGrid` | cells/src/main.rs:139-174 | the chains are pairwise disjoint, cover every board cell, and hold w * h cells in all |
| `Cells.ChainsDisjoint` | cells/src/main.rs:139-174 | chains whose concatenation has no repeated cell share no cell |
| `Cells.CarvedRunShape` | cells/src/main.rs:140-169 | a carved chain has 1 to 13 cells and keeps its column (up or down) or its row (left or right) |
| `Cells.StraightWalkAt` | cells/src/main.rs:152-159 | cell i of a chain is i direction steps from its first cell |
| `Fills.Round` | fills/src/lib.rs:10-11 | `round` gives the nearest integer, a tie going away from zero |
| `Fills.SaturateI32` | fills/src/lib.rs:10-11 | `as i32` gives the i32 value nearest to the rounded count |
| `Fills.RangeLenCounts` | fills/src/lib.rs:13-15 | `RangeLen(n)` is the number of integers in `0..=n`: n + 1, or none when n is negative |
| `Fills.EvenlyDistributedGrid` | fills/src/lib.rs:6-28 | the lattice has `RangeLen(x_intervals) * RangeLen(y_intervals)` points, one per pair (i, j); `GridPointAt` gives the position of each |
| `Fills.GridSize` | fills/src/lib.rs:8-26 | with non-negative interval counts that is (x_intervals + 1) * (y_intervals + 1) |
| `Fills.GridPointAt` | fills/src/lib.rs:13-21 | the point at i * (y_intervals + 1) + j is (left + i d, bottom + j d), with one spacing d = 100 / density for both axes |
| `Fills.TestedGrid` | fills/src/lib.rs:79-83 | a 10 x 10 rectangle at density 10 gives exactly its four corners |
| `Fills.RandomlyOrderedGridOfPoints` | fills/src/lib.rs:36-41 | the result is a permutation of the lattice: same length and same multiset |
| `Fills.Shuffle` | fills/src/lib.rs:39 | the in-place shuffle keeps the array's multiset |
| `Fills.SubdivideAll` | fills/src/lib.rs:47-50 | one pass gives four rectangles per rectangle |
| `Fills.SubdivideAllAt` | fills/src/lib.rs:47-50 | part m of rectangle k lands at position 4k + m |
| `Fills.Leaves` | fills/src/lib.rs:45-51 | the seeding pass plus n more passes give 4^(n+1) rectangles |
| `Fills.TrianglesOf` | fills/src/lib.rs:52-55 | two triangles per rectangle |
| `Fills.TrianglesOfAt` | fills/src/lib.rs:52-55 | rectangle k's two triangles sit at positions 2k and 2k + 1, in order |
| `Fills.TrianglePoints` | fills/src/lib.rs:56-66 | chaining a triangle's vertices with themselves and keeping three gives its vertices once |
| `Fills.Subtriangles` | fills/src/lib.rs:44-70 | 2 * 4^(max(levels, 0) + 1) triangles (8 for levels <= 0, 32 for levels = 1), each the three vertices of the matching leaf triangle |

## Left out

- Rendering plumbing (cells/src/main.rs:61-125, 191-323, 364-369): window, GPU texture, renderer, frame capture and PNG export are I/O.
- `build_chain_rect` (cells/src/main.rs:325-349): f32 screen layout with margin and padding.
- Weighted probabilities: `choose_weighted` is modelled as "some entry with a positive weight". Frequencies cannot be stated in this model.
- `offset_point_randomly` (fills/src/lib.rs:30-34): random f32 jitter; nothing to state beyond the draw itself.
- `Paper::pixel_dimensions` (cells/src/paper.rs:83-88): f64 rounding. Its test expects 2480 x 3408 for A4 at 300 dpi, while round(inches) x dpi gives 2400 x 3600, so the test is no usable reference.
- The `long_chain_cell_fetching` test (cells/src/main.rs:555-605): its loop differs from `model`. Its board is one column wide, so walking right ends each chain after one cell, and its assertion of length 5 does not hold. No property is taken from it.
- tenthousand/src/main.rs and mesh/src/main.rs are not part of this model. They hold noise, trigonometry, a float sort and a foreign convex-hull call. tenthousand's `subtriangles` is the algorithm modelled in `Fills`.
- nannou's `Rect::subdivisions`, `Rect::triangles_iter` and `Rect` accessors are not part of this model. The first two are parameters; a `Rect` is given by its left and bottom edges, width and height.
- Floating point: f32 coordinates and spacing are exact reals. `100.0 / 0.0` (infinite spacing) is excluded by `density != 0`.
- Integer widths in `Grid`: cell coordinates are unbounded integers. The `u32`-to-`i32` casts of the board size and the i32 overflow of a step past `i32::MAX` are not modelled; they agree with the model for boards below 2^31 cells on a side.
- `Fills.Shuffle`: models the Fisher-Yates swaps with an arbitrary earlier index; uniformity of the resulting order is not stated.
- Logging (`debug!`) and the `Display` impl are left out, except that the display text of a size is its variant name.
