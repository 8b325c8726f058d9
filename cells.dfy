/**
 * The grid partitioner of `cells/src/main.rs`.
 *
 * A `Grid` holds the set of still-unclaimed cells of a `w` x `h` board.  The
 * carving loop of `model` repeatedly picks an unclaimed start cell, claims
 * it, and walks in one direction claiming cells until it leaves the board,
 * meets a claimed cell or exceeds a length cap.  Every random draw of the
 * source (`random_range`, `random_direction`, `peek_random`,
 * `choose_weighted`) is a nondeterministic choice here.
 */
module Cells {
  import opened Wrappers

  /** A cell `(x, y)` of the board (`type Cell = (i32, i32)`). */
  type Cell = (int, int)

  datatype Direction = Up | Down | Left | Right

  datatype FillType = Dots | Triangles | Solid | Mesh | Empty

  /** An sRGB colour with 8-bit channels. */
  datatype Rgb = Rgb(r: int, g: int, b: int)

  /** A carved run of cells with the colour and fill type drawn for it. */
  datatype Chain = Chain(cells: seq<Cell>, color: Rgb, fillType: FillType)

  /** Bounds of the chain-length cap: `random_range(CHAIN_MIN, CHAIN_MAX)`. */
  const ChainMin: int := 4
  const ChainMax: int := 13

  const WeightedColors: seq<(Rgb, real)> := [
    (Rgb(0x97, 0xBD, 0xC2), 0.05),
    (Rgb(0x45, 0x86, 0x8F), 0.4),
    (Rgb(0xD7, 0xF5, 0xE8), 0.15),
    (Rgb(0xFA, 0x7A, 0x7A), 0.2),
    (Rgb(0xC2, 0x97, 0xAC), 0.10),
    (Rgb(0x00, 0x00, 0x00), 0.10)
  ]

  const WeightedFillTypes: seq<(FillType, real)> := [
    (Dots, 0.2), (Triangles, 0.2), (Solid, 0.2), (Mesh, 0.2), (Empty, 0.2)
  ]

  const WeightedDirections: seq<(Direction, real)> := [
    (Up, 0.25), (Down, 0.25), (Left, 0.25), (Right, 0.25)
  ]

  /** The coordinate offset of one step in a direction. */
  function Delta(d: Direction): Cell
  {
    match d
    case Up => (0, 1)
    case Down => (0, -1)
    case Left => (-1, 0)
    case Right => (1, 0)
  }

  function Step(c: Cell, d: Direction): Cell
  {
    (c.0 + Delta(d).0, c.1 + Delta(d).1)
  }

  function Opposite(d: Direction): Direction
  {
    match d
    case Up => Down
    case Down => Up
    case Left => Right
    case Right => Left
  }

  predicate InGrid(w: nat, h: nat, c: Cell)
  {
    0 <= c.0 < w && 0 <= c.1 < h
  }

  /** Every cell of a `w` x `h` board. */
  ghost function AllCells(w: nat, h: nat): set<Cell>
  {
    set i, j | 0 <= i < w && 0 <= j < h :: (i, j)
  }

  /** The cells of column `x`, from row 0 up to row `h - 1`. */
  ghost function Column(x: int, h: nat): set<Cell>
  {
    set j | 0 <= j < h :: (x, j)
  }

  /** The set of elements of a sequence. */
  ghost function Elems<T>(s: seq<T>): set<T>
  {
    set x | x in s
  }

  ghost predicate NoDuplicates<T>(s: seq<T>)
  {
    forall i, j :: 0 <= i < j < |s| ==> s[i] != s[j]
  }

  /** All cells of all chains, chain after chain. */
  function ChainCells(chains: seq<Chain>): seq<Cell>
  {
    if chains == [] then [] else ChainCells(chains[..|chains| - 1]) + chains[|chains| - 1].cells
  }

  /**
   * `cells` is a straight walk in `direction`: non-empty, each cell one step
   * on from the one before, and at most `cap + 1` long for a cap drawn from
   * [ChainMin, ChainMax).
   */
  ghost predicate CarvedRun(cells: seq<Cell>, direction: Direction, cap: int)
  {
    ChainMin <= cap < ChainMax && 1 <= |cells| <= cap + 1 && StraightWalk(cells, direction)
  }

  /** Each cell of `cells` is one step in `direction` from the one before. */
  ghost predicate StraightWalk(cells: seq<Cell>, direction: Direction)
  {
    forall i :: 0 <= i < |cells| - 1 ==> cells[i + 1] == Step(cells[i], direction)
  }

  /**
   * The walk `cells` stopped for one of the source's three reasons: it grew
   * longer than its cap, its next cell is off the board, or that next cell
   * was already in `taken`.
   */
  ghost predicate Stopped(cells: seq<Cell>, direction: Direction, cap: int, w: nat, h: nat, taken: set<Cell>)
  {
    |cells| >= 1 &&
    var next := Step(cells[|cells| - 1], direction);
    |cells| == cap + 1 || !InGrid(w, h, next) || next in taken
  }

  /** `x` is an entry of `table` that a weighted draw can return: one with a positive weight. */
  ghost predicate Drawable<T>(table: seq<(T, real)>, x: T)
  {
    exists i :: 0 <= i < |table| && table[i].0 == x && table[i].1 > 0.0
  }

  /** `choose_weighted`: some entry whose weight is positive (it fails when there is none). */
  method ChooseWeighted<T>(table: seq<(T, real)>) returns (x: T)
    requires exists i :: 0 <= i < |table| && table[i].1 > 0.0
    ensures Drawable(table, x)
  {
    var i :| 0 <= i < |table| && table[i].1 > 0.0;
    x := table[i].0;
  }

  /** `random_direction`: one of the four directions, all weighted 0.25. */
  method RandomDirection() returns (d: Direction)
    ensures Drawable(WeightedDirections, d)
  {
    assert WeightedDirections[0].1 > 0.0;
    d := ChooseWeighted(WeightedDirections);
  }

  /** `Chain::from_cells`: keeps the cells and draws a colour and a fill type from the tables. */
  method FromCells(cells: seq<Cell>) returns (chain: Chain)
    ensures chain.cells == cells
    ensures Drawable(WeightedColors, chain.color)
    ensures Drawable(WeightedFillTypes, chain.fillType)
  {
    assert WeightedColors[0].1 > 0.0;
    var color := ChooseWeighted(WeightedColors);
    assert WeightedFillTypes[0].1 > 0.0;
    var fillType := ChooseWeighted(WeightedFillTypes);
    chain := Chain(cells, color, fillType);
  }

  class Grid {
    /** `available_cells`: the cells nobody has claimed yet. */
    var available: set<Cell>
    const w: nat
    const h: nat

    /** Only cells of the board are ever available. */
    ghost predicate Valid()
      reads this
    {
      available <= AllCells(w, h)
    }

    /** `Grid::new`: every cell of the board starts unclaimed. */
    constructor (w: nat, h: nat)
      ensures this.w == w && this.h == h
      ensures available == AllCells(w, h)
      ensures Valid()
    {
      this.w := w;
      this.h := h;
      available := set i, j | 0 <= i < w && 0 <= j < h :: (i, j);
    }

    /** `peek_random`: some unclaimed cell, or None exactly when none is left; claims nothing. */
    method PeekRandom() returns (r: Option<Cell>)
      ensures r.Some? <==> available != {}
      ensures r.Some? ==> r.value in available
    {
      if available == {} {
        r := None;
      } else {
        var c :| c in available;
        r := Some(c);
      }
    }

    /** `cell_taken`: claimed, or never on the board. */
    function CellTaken(c: Cell): (taken: bool)
      reads this
      ensures Valid() && !InGrid(w, h, c) ==> taken
    {
      c !in available
    }

    /** `take_cell`: claims `c` if it is still available, and reports whether it did. */
    method TakeCell(c: Cell) returns (r: Option<Cell>)
      requires Valid()
      modifies this`available
      ensures Valid()
      ensures r == if c in old(available) then Some(c) else None
      ensures available == old(available) - {c}
    {
      if CellTaken(c) {
        r := None;
      } else {
        r := Some(c);
        available := available - {c};
      }
    }

    /** `has_cells`: some cell is not taken. */
    function HasCells(): (b: bool)
      reads this
      ensures b <==> exists c :: !CellTaken(c)
    {
      if available == {} then false
      else
        var c :| c in available;
        assert !CellTaken(c);
        true
    }

    /**
     * `adjacent_cell_coordinates`: the neighbour one step away, when it is on
     * the board.  It reads no field but the dimensions, so occupancy never
     * matters.
     */
    function AdjacentCellCoordinates(c: Cell, d: Direction): (r: Option<Cell>)
      ensures r.Some? <==> InGrid(w, h, Step(c, d))
      ensures r.Some? ==> r.value == Step(c, d)
    {
      var diff := Delta(d);
      var adj := (c.0 + diff.0, c.1 + diff.1);
      if adj.0 < 0 || adj.0 >= w || adj.1 < 0 || adj.1 >= h then None
      else Some(adj)
    }
  }

  /** A column of `h` rows has `h` cells. */
  lemma {:induction false} ColumnSize(x: int, h: nat)
    ensures |Column(x, h)| == h
  {
    if h > 0 {
      ColumnSize(x, h - 1);
      assert Column(x, h) == Column(x, h - 1) + {(x, h - 1)};
    } else {
      assert Column(x, h) == {};
    }
  }

  /** A board one column wider is the narrower board plus its new last column. */
  lemma AddColumn(w: nat, h: nat)
    ensures AllCells(w + 1, h) == AllCells(w, h) + Column(w, h)
    ensures AllCells(w, h) !! Column(w, h)
  {
    forall c | c in AllCells(w + 1, h)
      ensures c in AllCells(w, h) || c in Column(w, h)
    {
      if c.0 < w {
        assert c in AllCells(w, h);
      } else {
        assert c in Column(w, h);
      }
    }
  }

  /** Arithmetic step of the size count, kept apart so the solver sees it alone. */
  lemma MulSucc(a: nat, b: nat)
    ensures a * b + b == (a + 1) * b
  {
  }

  /** A fresh `Grid::new(w, h)` holds `w * h` cells. */
  lemma {:induction false} AllCellsSize(w: nat, h: nat)
    ensures |AllCells(w, h)| == w * h
  {
    if w > 0 {
      AllCellsSize(w - 1, h);
      ColumnSize(w - 1, h);
      AddColumn(w - 1, h);
      calc {
        |AllCells(w, h)|;
        |AllCells(w - 1, h)| + |Column(w - 1, h)|;
        (w - 1) * h + h;
        { MulSucc(w - 1, h); }
        w * h;
      }
    } else {
      assert forall c :: c !in AllCells(w, h);
    }
  }

  lemma ChainCellsAppend(chains: seq<Chain>, c: Chain)
    ensures ChainCells(chains + [c]) == ChainCells(chains) + c.cells
  {
    assert (chains + [c])[..|chains|] == chains;
  }

  lemma WalkAppend(cells: seq<Cell>, direction: Direction, c: Cell)
    requires StraightWalk(cells, direction) && |cells| >= 1
    requires c == Step(cells[|cells| - 1], direction)
    ensures StraightWalk(cells + [c], direction)
  {
  }

  /** `claimed` (without repeats) and `available` split `all` between them. */
  ghost predicate Partition(claimed: seq<Cell>, available: set<Cell>, all: set<Cell>)
  {
    NoDuplicates(claimed) && Elems(claimed) !! available && Elems(claimed) + available == all
  }

  /** Claiming an available cell moves it from the available set to the end of the claimed sequence. */
  lemma {:induction false} ClaimMovesCell(claimed: seq<Cell>, available: set<Cell>, all: set<Cell>, c: Cell)
    requires Partition(claimed, available, all)
    requires c in available
    ensures Partition(claimed + [c], available - {c}, all)
  {
    assert Elems(claimed + [c]) == Elems(claimed) + {c};
    assert c !in Elems(claimed);
  }

  /** Claiming the next cell of a straight walk extends the walk and keeps the partition. */
  lemma ExtendStep(claimed: seq<Cell>, chain: seq<Cell>, available: set<Cell>, all: set<Cell>, direction: Direction)
    requires |chain| >= 1 && StraightWalk(chain, direction)
    requires Partition(claimed + chain, available, all)
    requires Step(chain[|chain| - 1], direction) in available
    ensures var next := Step(chain[|chain| - 1], direction);
            StraightWalk(chain + [next], direction) &&
            Partition(claimed + (chain + [next]), available - {next}, all)
  {
    var next := Step(chain[|chain| - 1], direction);
    ClaimMovesCell(claimed + chain, available, all, next);
    assert claimed + chain + [next] == claimed + (chain + [next]);
    WalkAppend(chain, direction, next);
  }

  /**
   * When the next cell of a walk is on the board but no longer available,
   * a chain carved earlier holds it: the walk itself never reaches it.
   */
  lemma BlockedByClaimed(claimed: seq<Cell>, chain: seq<Cell>, available: set<Cell>, w: nat, h: nat,
                         direction: Direction)
    requires |chain| >= 1 && StraightWalk(chain, direction)
    requires Partition(claimed + chain, available, AllCells(w, h))
    requires var next := Step(chain[|chain| - 1], direction); InGrid(w, h, next) && next !in available
    ensures Step(chain[|chain| - 1], direction) in Elems(claimed)
  {
    var next := Step(chain[|chain| - 1], direction);
    WalkNeverReturns(chain, direction);
    assert next in AllCells(w, h);
    assert next in Elems(claimed + chain);
  }

  /**
   * The inner loop of the carving: from the claimed cell `start`, claim the
   * next cell in `direction` until the board ends, the next cell is taken,
   * or the chain is longer than `chainLen`.
   */
  method ExtendChain(grid: Grid, start: Cell, direction: Direction, chainLen: int,
                     ghost claimed: seq<Cell>)
    returns (chain: seq<Cell>)
    requires grid.Valid() && ChainMin <= chainLen < ChainMax
    requires start !in grid.available && Partition(claimed + [start], grid.available, AllCells(grid.w, grid.h))
    modifies grid
    ensures grid.Valid() && |grid.available| <= old(|grid.available|)
    ensures CarvedRun(chain, direction, chainLen) && chain[0] == start
    ensures Partition(claimed + chain, grid.available, AllCells(grid.w, grid.h))
    ensures Stopped(chain, direction, chainLen, grid.w, grid.h, Elems(claimed))
  {
    ghost var all := AllCells(grid.w, grid.h);
    chain := [start];
    var (x, y) := start;
    while true
      invariant grid.Valid()
      invariant |grid.available| <= old(|grid.available|)
      invariant 1 <= |chain| <= chainLen && chain[0] == start && chain[|chain| - 1] == (x, y)
      invariant StraightWalk(chain, direction)
      invariant Partition(claimed + chain, grid.available, all)
      decreases |grid.available|
    {
      var nextCellCoordinates := grid.AdjacentCellCoordinates((x, y), direction);
      if nextCellCoordinates.None? {
        break;
      }
      var next := nextCellCoordinates.value;
      ghost var before := grid.available;
      var nextCell := grid.TakeCell(next);
      if nextCell.None? {
        BlockedByClaimed(claimed, chain, before, grid.w, grid.h, direction);
        break;
      }
      ExtendStep(claimed, chain, before, all, direction);
      chain := chain + [nextCell.value];
      x, y := nextCell.value.0, nextCell.value.1;

      if |chain| > chainLen {
        break;
      }
    }
  }

  /**
   * Chain `k` was carved as a straight run in `directions[k]` under cap
   * `caps[k]`, and its colour and fill type are entries of their tables.
   */
  ghost predicate WellCarved(chains: seq<Chain>, directions: seq<Direction>, caps: seq<int>)
  {
    |directions| == |chains| && |caps| == |chains| &&
    forall k :: 0 <= k < |chains| ==>
      CarvedRun(chains[k].cells, directions[k], caps[k]) &&
      Drawable(WeightedColors, chains[k].color) && Drawable(WeightedFillTypes, chains[k].fillType)
  }

  /**
   * Chain `k` stopped for one of the source's reasons, where the cells
   * already taken are those of the chains carved before it.
   */
  ghost predicate AllStopped(chains: seq<Chain>, directions: seq<Direction>, caps: seq<int>, w: nat, h: nat)
  {
    |directions| == |chains| && |caps| == |chains| &&
    forall k :: 0 <= k < |chains| ==>
      Stopped(chains[k].cells, directions[k], caps[k], w, h, Elems(ChainCells(chains[..k])))
  }

  lemma AllStoppedAppend(chains: seq<Chain>, directions: seq<Direction>, caps: seq<int>, w: nat, h: nat,
                         c: Chain, d: Direction, cap: int)
    requires AllStopped(chains, directions, caps, w, h)
    requires Stopped(c.cells, d, cap, w, h, Elems(ChainCells(chains)))
    ensures AllStopped(chains + [c], directions + [d], caps + [cap], w, h)
  {
    var chains', directions', caps' := chains + [c], directions + [d], caps + [cap];
    forall k | 0 <= k < |chains'|
      ensures Stopped(chains'[k].cells, directions'[k], caps'[k], w, h, Elems(ChainCells(chains'[..k])))
    {
      if k < |chains| {
        assert chains'[..k] == chains[..k];
      } else {
        assert chains'[..k] == chains;
      }
    }
  }

  lemma WellCarvedAppend(chains: seq<Chain>, directions: seq<Direction>, caps: seq<int>,
                         c: Chain, d: Direction, cap: int)
    requires WellCarved(chains, directions, caps)
    requires CarvedRun(c.cells, d, cap) && Drawable(WeightedColors, c.color) && Drawable(WeightedFillTypes, c.fillType)
    ensures WellCarved(chains + [c], directions + [d], caps + [cap])
  {
  }

  /**
   * The carving loop of `model` (run on a fresh `Grid::new(columns, rows)`),
   * drawing the length cap, the direction and the start cell at random.
   * The ghost results record the direction and cap each chain was carved with.
   */
  method CarveChains(columns: nat, rows: nat)
    returns (chains: seq<Chain>, ghost directions: seq<Direction>, ghost caps: seq<int>)
    ensures Partition(ChainCells(chains), {}, AllCells(columns, rows))
    ensures WellCarved(chains, directions, caps)
    ensures AllStopped(chains, directions, caps, columns, rows)
  {
    var grid := new Grid(columns, rows);
    chains, directions, caps := [], [], [];
    assert Elems(ChainCells(chains)) == {};
    while grid.HasCells()
      invariant grid.w == columns && grid.h == rows && grid.Valid()
      invariant Partition(ChainCells(chains), grid.available, AllCells(columns, rows))
      invariant WellCarved(chains, directions, caps)
      invariant AllStopped(chains, directions, caps, columns, rows)
      decreases |grid.available|
    {
      var chainLen :| ChainMin <= chainLen < ChainMax;
      var chainDirection := RandomDirection();

      var peeked := grid.PeekRandom();
      var (x, y) := peeked.value;

      if !grid.CellTaken((x, y)) {
        ClaimMovesCell(ChainCells(chains), grid.available, AllCells(columns, rows), (x, y));
        var startingCell := grid.TakeCell((x, y));
        var chain := ExtendChain(grid, startingCell.value, chainDirection, chainLen, ChainCells(chains));
        var carved := FromCells(chain);
        ChainCellsAppend(chains, carved);
        WellCarvedAppend(chains, directions, caps, carved, chainDirection, chainLen);
        AllStoppedAppend(chains, directions, caps, columns, rows, carved, chainDirection, chainLen);
        chains, directions, caps := chains + [carved], directions + [chainDirection], caps + [chainLen];
      }
    }
    assert grid.available == {};
  }

  /** A cell is in the concatenation exactly when it is in one of the chains. */
  lemma {:induction false} InChainCells(chains: seq<Chain>, c: Cell)
    ensures c in ChainCells(chains) <==> exists k :: 0 <= k < |chains| && c in chains[k].cells
  {
    if chains != [] {
      var init := chains[..|chains| - 1];
      InChainCells(init, c);
      if c in ChainCells(init) {
        var k :| 0 <= k < |init| && c in init[k].cells;
        assert chains[k] == init[k];
      }
      if k :| 0 <= k < |chains| - 1 && c in chains[k].cells {
        assert init[k] == chains[k];
      }
    }
  }

  /** Splitting a sequence without repeats leaves two disjoint halves without repeats. */
  lemma NoDuplicatesSplit(a: seq<Cell>, b: seq<Cell>)
    requires NoDuplicates(a + b)
    ensures NoDuplicates(a) && NoDuplicates(b) && Elems(a) !! Elems(b)
  {
    forall i, j | 0 <= i < |a| && 0 <= j < |b|
      ensures a[i] != b[j]
    {
      assert (a + b)[i] == a[i] && (a + b)[|a| + j] == b[j];
    }
    forall i, j | 0 <= i < j < |a|
      ensures a[i] != a[j]
    {
      assert (a + b)[i] == a[i] && (a + b)[j] == a[j];
    }
    forall i, j | 0 <= i < j < |b|
      ensures b[i] != b[j]
    {
      assert (a + b)[|a| + i] == b[i] && (a + b)[|a| + j] == b[j];
    }
  }

  /** A sequence without repeats has as many distinct elements as positions. */
  lemma {:induction false} NoDuplicatesSize(s: seq<Cell>)
    requires NoDuplicates(s)
    ensures |Elems(s)| == |s|
  {
    if s != [] {
      var init := s[..|s| - 1];
      assert s == init + [s[|s| - 1]];
      NoDuplicatesSplit(init, [s[|s| - 1]]);
      NoDuplicatesSize(init);
      assert Elems(s) == Elems(init) + {s[|s| - 1]};
    }
  }

  /** Chains whose concatenation has no repeats share no cell. */
  lemma {:induction false} ChainsDisjoint(chains: seq<Chain>)
    requires NoDuplicates(ChainCells(chains))
    ensures forall i, j :: 0 <= i < j < |chains| ==> Elems(chains[i].cells) !! Elems(chains[j].cells)
  {
    if chains != [] {
      var init, last := chains[..|chains| - 1], chains[|chains| - 1];
      NoDuplicatesSplit(ChainCells(init), last.cells);
      ChainsDisjoint(init);
      forall i, j | 0 <= i < j < |chains|
        ensures Elems(chains[i].cells) !! Elems(chains[j].cells)
      {
        assert chains[i] == init[i];
        if j == |chains| - 1 {
          forall c | c in Elems(chains[i].cells)
            ensures c in Elems(ChainCells(init))
          {
            InChainCells(init, c);
          }
        } else {
          assert chains[j] == init[j];
        }
      }
    }
  }

  /**
   * When the carving stops, its chains partition the board: they are
   * pairwise disjoint, every cell of the board lies in one of them, no other
   * cell does, and together they hold `columns * rows` cells.
   */
  lemma CarvedChainsPartitionGrid(chains: seq<Chain>, columns: nat, rows: nat)
    requires Partition(ChainCells(chains), {}, AllCells(columns, rows))
    ensures |ChainCells(chains)| == columns * rows
    ensures forall i, j :: 0 <= i < j < |chains| ==> Elems(chains[i].cells) !! Elems(chains[j].cells)
    ensures forall c :: c in AllCells(columns, rows) <==> exists k :: 0 <= k < |chains| && c in chains[k].cells
  {
    NoDuplicatesSize(ChainCells(chains));
    AllCellsSize(columns, rows);
    ChainsDisjoint(chains);
    forall c
      ensures c in AllCells(columns, rows) <==> exists k :: 0 <= k < |chains| && c in chains[k].cells
    {
      InChainCells(chains, c);
    }
  }

  /** The `i`-th cell of a straight walk lies `i` steps from its first cell. */
  lemma {:induction false} StraightWalkAt(cells: seq<Cell>, direction: Direction, i: nat)
    requires StraightWalk(cells, direction) && i < |cells|
    ensures cells[i] == (cells[0].0 + i * Delta(direction).0, cells[0].1 + i * Delta(direction).1)
  {
    if i > 0 {
      StraightWalkAt(cells, direction, i - 1);
    }
  }

  /** A straight walk never comes back: the cell after its last one is none of its cells. */
  lemma WalkNeverReturns(cells: seq<Cell>, direction: Direction)
    requires StraightWalk(cells, direction) && |cells| >= 1
    ensures Step(cells[|cells| - 1], direction) !in Elems(cells)
  {
    var n := |cells|;
    var delta := Delta(direction);
    StraightWalkAt(cells, direction, n - 1);
    var next := Step(cells[n - 1], direction);
    assert next == (cells[0].0 + n * delta.0, cells[0].1 + n * delta.1);
    forall i | 0 <= i < n
      ensures cells[i] != next
    {
      StraightWalkAt(cells, direction, i);
      assert delta.0 != 0 || delta.1 != 0;
    }
  }

  /**
   * A carved chain is non-empty, at most ChainMax = 13 cells long, and runs
   * along one axis: moving up or down keeps its column, left or right its row.
   */
  lemma CarvedRunShape(cells: seq<Cell>, direction: Direction, cap: int)
    requires CarvedRun(cells, direction, cap)
    ensures 1 <= |cells| <= ChainMax
    ensures direction in {Up, Down} ==> forall i :: 0 <= i < |cells| ==> cells[i].0 == cells[0].0
    ensures direction in {Left, Right} ==> forall i :: 0 <= i < |cells| ==> cells[i].1 == cells[0].1
  {
    forall i | 0 <= i < |cells|
      ensures cells[i] == (cells[0].0 + i * Delta(direction).0, cells[0].1 + i * Delta(direction).1)
    {
      StraightWalkAt(cells, direction, i);
    }
  }

  /** Stepping back the opposite way from an on-board neighbour returns to the cell. */
  lemma AdjacentRoundTrip(grid: Grid, c: Cell, d: Direction)
    requires InGrid(grid.w, grid.h, c) && grid.AdjacentCellCoordinates(c, d).Some?
    ensures grid.AdjacentCellCoordinates(grid.AdjacentCellCoordinates(c, d).value, Opposite(d)) == Some(c)
  {
  }

  /**
   * Neighbours at the edges of the board: the corner (0, 0) has none to the
   * left or below, the corner (w - 1, h - 1) none to the right or above, and
   * a cell off the edges has all four.
   */
  lemma BoundaryNeighbours(grid: Grid)
    requires grid.w > 0 && grid.h > 0
    ensures grid.AdjacentCellCoordinates((0, 0), Left) == None
    ensures grid.AdjacentCellCoordinates((0, 0), Down) == None
    ensures grid.AdjacentCellCoordinates((grid.w - 1, grid.h - 1), Right) == None
    ensures grid.AdjacentCellCoordinates((grid.w - 1, grid.h - 1), Up) == None
    ensures forall c: Cell, d: Direction :: 0 < c.0 < grid.w - 1 && 0 < c.1 < grid.h - 1 ==>
              grid.AdjacentCellCoordinates(c, d) == Some(Step(c, d))
  {
  }

  /** The neighbours the unit tests check on a 10 x 10 board. */
  lemma TestedNeighbours(grid: Grid)
    requires grid.w == 10 && grid.h == 10
    ensures grid.AdjacentCellCoordinates((9, 9), Down) == Some((9, 8))
    ensures grid.AdjacentCellCoordinates((9, 9), Up) == None
    ensures grid.AdjacentCellCoordinates((9, 9), Left) == Some((8, 9))
    ensures grid.AdjacentCellCoordinates((9, 9), Right) == None
    ensures grid.AdjacentCellCoordinates((0, 0), Down) == None
    ensures grid.AdjacentCellCoordinates((0, 0), Left) == None
  {
  }

  /**
   * The take-cell scenario of the unit tests on a fresh 20 x 20 board:
   * (1, 1) starts untaken, the first claim returns it, removes exactly one
   * cell and leaves (1, 1) taken, and a second claim of the same cell
   * returns None.
   */
  method TakeCellTwice()
    returns (takenBefore: bool, first: Option<Cell>, takenAfter: bool, second: Option<Cell>,
             sizeBefore: nat, sizeAfter: nat)
    ensures !takenBefore && takenAfter
    ensures first == Some((1, 1)) && second == None
    ensures sizeBefore == 400 && sizeAfter == sizeBefore - 1
  {
    var grid := new Grid(20, 20);
    AllCellsSize(20, 20);
    sizeBefore := |grid.available|;
    assert (1, 1) in AllCells(20, 20);
    takenBefore := grid.CellTaken((1, 1));
    first := grid.TakeCell((1, 1));
    sizeAfter := |grid.available|;
    takenAfter := grid.CellTaken((1, 1));
    second := grid.TakeCell((1, 1));
  }

  /**
   * The peek-then-take loop of the unit tests: peeking and claiming until
   * nothing is left claims every one of the `w * h` cells, each claim
   * returning the peeked cell.
   */
  method TakeRandomCells(w: nat, h: nat) returns (countTaken: nat)
    ensures countTaken == w * h
  {
    var grid := new Grid(w, h);
    AllCellsSize(w, h);
    countTaken := 0;
    while true
      invariant grid.Valid()
      invariant countTaken + |grid.available| == w * h
      decreases |grid.available|
    {
      var cell := grid.PeekRandom();
      if cell.None? {
        break;
      }
      var taken := grid.TakeCell(cell.value);
      if taken.Some? {
        assert taken.value == cell.value;
        countTaken := countTaken + 1;
      } else {
        break;
      }
    }
  }
}
