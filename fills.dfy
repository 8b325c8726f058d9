/**
 * Fill geometry of `fills/src/lib.rs`: a lattice of points over a
 * rectangle, the same lattice shuffled, and a rectangle cut into triangles
 * by repeated four-way subdivision.
 *
 * Coordinates are reals.  nannou's `Rect::subdivisions` (four sub-rectangles)
 * and `Rect::triangles_iter` (two triangles) are parameters whose result
 * types fix those counts; what the rectangles and triangles are is up to the
 * caller.
 */
module Fills {

  /** A point or vector (`Vec2`). */
  datatype Point = Point(x: real, y: real)

  /** An axis-aligned rectangle given by its left and bottom edges and its width and height. */
  datatype Rect = Rect(left: real, bottom: real, w: real, h: real)

  /** A triangle (`Tri<[f32; 2]>`) with its three vertices in order. */
  datatype Tri = Tri(a: Point, b: Point, c: Point)

  /** The four parts `Rect::subdivisions` returns (`[Rect; 4]`). */
  type Quad = (Rect, Rect, Rect, Rect)

  /** The two triangles `Rect::triangles_iter` yields. */
  type TriPair = (Tri, Tri)

  const I32Min: int := -0x8000_0000
  const I32Max: int := 0x7fff_ffff

  /** `f32::round`: the nearest integer, a tie going away from zero. */
  function Round(v: real): (n: int)
    ensures -0.5 <= v - n as real <= 0.5
    ensures v - n as real == 0.5 ==> v < 0.0
    ensures v - n as real == -0.5 ==> v > 0.0
  {
    if v >= 0.0 then (v + 0.5).Floor else -((-v + 0.5).Floor)
  }

  predicate IsI32(m: int)
  {
    I32Min <= m <= I32Max
  }

  /** The distance between two integers. */
  function Dist(a: int, b: int): nat
  {
    if a <= b then b - a else a - b
  }

  /** A float-to-`i32` cast, which saturates: the `i32` value nearest to `n`. */
  function SaturateI32(n: int): (r: int)
    ensures IsI32(r)
    ensures forall m :: IsI32(m) ==> Dist(r, n) <= Dist(m, n)
  {
    if n < I32Min then I32Min else if n > I32Max then I32Max else n
  }

  /** Lattice spacing for a density: `100.0 / density`, used on both axes. */
  function Spacing(density: real): real
    requires density != 0.0
  {
    100.0 / density
  }

  /** How many intervals of `spacing` span `length`: `(length / spacing).round() as i32`. */
  function Intervals(length: real, spacing: real): int
    requires spacing != 0.0
  {
    SaturateI32(Round(length / spacing))
  }

  /** `i` is a value of the inclusive range `0..=n` (named, so the set below has a trigger). */
  predicate InRange(i: int, n: int)
  {
    0 <= i <= n
  }

  /** The values of the inclusive range `0..=n`. */
  ghost function InclusiveRange(n: int): set<int>
  {
    set i | 0 <= i <= n && InRange(i, n)
  }

  /** The number of values in the inclusive range `0..=n`: none when `n` is negative. */
  function RangeLen(n: int): nat
  {
    if n < 0 then 0 else n + 1
  }

  /** `RangeLen(n)` counts the values of `0..=n`. */
  lemma {:induction false} RangeLenCounts(n: int)
    ensures |InclusiveRange(n)| == RangeLen(n)
  {
    if n >= 0 {
      RangeLenCounts(n - 1);
      assert InclusiveRange(n) == InclusiveRange(n - 1) + {n};
    } else {
      assert InclusiveRange(n) == {};
    }
  }

  /** Concatenation of a sequence of sequences (`flatten`). */
  function Flatten<T>(rows: seq<seq<T>>): seq<T>
  {
    if rows == [] then [] else rows[0] + Flatten(rows[1..])
  }

  /**
   * `evenly_distributed_grid`: a column of points for each x step, x outer
   * and y inner, so one point per pair (i, j) with i in 0..=x_intervals and
   * j in 0..=y_intervals.
   */
  function EvenlyDistributedGrid(rect: Rect, density: real): (points: seq<Point>)
    requires density != 0.0
    ensures |points| ==
            RangeLen(Intervals(rect.w, Spacing(density))) * RangeLen(Intervals(rect.h, Spacing(density)))
  {
    var d := Spacing(density);
    var columns := RangeLen(Intervals(rect.w, d));
    var rows := RangeLen(Intervals(rect.h, d));
    var lattice := seq(columns, i => LatticeColumn(rect, d, i, rows));
    FlattenLength(lattice, rows);
    Flatten(lattice)
  }

  /** The point `i` steps right and `j` steps up from the bottom-left corner, `d` apart. */
  function LatticePoint(rect: Rect, d: real, i: int, j: int): Point
  {
    Point(rect.left + i as real * d, rect.bottom + j as real * d)
  }

  /** The `rows` points of lattice column `i`, bottom to top. */
  function LatticeColumn(rect: Rect, d: real, i: int, rows: nat): seq<Point>
  {
    seq(rows, j => LatticePoint(rect, d, i, j))
  }

  /** Flattening rows that all have length `n` gives `|rows| * n` elements. */
  lemma {:induction false} FlattenLength<T>(rows: seq<seq<T>>, n: nat)
    requires forall i :: 0 <= i < |rows| ==> |rows[i]| == n
    ensures |Flatten(rows)| == |rows| * n
  {
    if rows != [] {
      FlattenLength(rows[1..], n);
      assert (|rows| - 1) * n + n == |rows| * n;
    }
  }

  /** Flattening rows of one length `n` puts row `i`, column `j` at position `i * n + j`. */
  lemma {:induction false} FlattenAt<T>(rows: seq<seq<T>>, n: nat, i: nat, j: nat)
    requires forall k :: 0 <= k < |rows| ==> |rows[k]| == n
    requires i < |rows| && j < n
    ensures i * n + j < |Flatten(rows)| && Flatten(rows)[i * n + j] == rows[i][j]
  {
    FlattenLength(rows, n);
    if i > 0 {
      var rest := rows[1..];
      FlattenAt(rest, n, i - 1, j);
      FlattenLength(rest, n);
      assert i * n + j == n + ((i - 1) * n + j);
      assert rest[i - 1] == rows[i];
    }
  }

  /**
   * With x outer and y inner, the point at index i * (y_intervals + 1) + j is
   * (left + i * d, bottom + j * d), for the same spacing d on both axes.
   */
  lemma GridPointAt(rect: Rect, density: real, i: nat, j: nat)
    requires density != 0.0
    requires i < RangeLen(Intervals(rect.w, Spacing(density))) && j < RangeLen(Intervals(rect.h, Spacing(density)))
    ensures var rows := RangeLen(Intervals(rect.h, Spacing(density)));
            i * rows + j < |EvenlyDistributedGrid(rect, density)| &&
            EvenlyDistributedGrid(rect, density)[i * rows + j] ==
              Point(rect.left + i as real * Spacing(density), rect.bottom + j as real * Spacing(density))
  {
    var d := Spacing(density);
    var rows := RangeLen(Intervals(rect.h, d));
    var cols := seq(RangeLen(Intervals(rect.w, d)), i => LatticeColumn(rect, d, i, rows));
    FlattenAt(cols, rows, i, j);
    assert cols[i] == LatticeColumn(rect, d, i, rows);
  }

  /** When both interval counts are non-negative the lattice has (x_intervals + 1) * (y_intervals + 1) points. */
  lemma GridSize(rect: Rect, density: real)
    requires density != 0.0
    requires Intervals(rect.w, Spacing(density)) >= 0 && Intervals(rect.h, Spacing(density)) >= 0
    ensures |EvenlyDistributedGrid(rect, density)| ==
            (Intervals(rect.w, Spacing(density)) + 1) * (Intervals(rect.h, Spacing(density)) + 1)
  {
  }

  /** A 10 x 10 rectangle centred on the origin at density 10 gets exactly its four corners. */
  lemma TestedGrid()
    ensures EvenlyDistributedGrid(Rect(-5.0, -5.0, 10.0, 10.0), 10.0) ==
            [Point(-5.0, -5.0), Point(-5.0, 5.0), Point(5.0, -5.0), Point(5.0, 5.0)]
  {
    var rect := Rect(-5.0, -5.0, 10.0, 10.0);
    assert Spacing(10.0) == 10.0;
    assert Round(1.0) == 1;
    assert Intervals(10.0, 10.0) == 1;
    GridPointAt(rect, 10.0, 0, 0);
    GridPointAt(rect, 10.0, 0, 1);
    GridPointAt(rect, 10.0, 1, 0);
    GridPointAt(rect, 10.0, 1, 1);
  }

  /** `SliceRandom::shuffle`: a Fisher-Yates pass from the back, swapping each slot with a random earlier one. */
  method Shuffle<T>(a: array<T>)
    modifies a
    ensures multiset(a[..]) == old(multiset(a[..]))
  {
    var i := a.Length - 1;
    while i >= 1
      invariant -1 <= i < a.Length
      invariant multiset(a[..]) == old(multiset(a[..]))
    {
      var j :| 0 <= j <= i;
      a[i], a[j] := a[j], a[i];
      i := i - 1;
    }
  }

  /** `randomly_ordered_grid_of_points`: the lattice, shuffled in place. */
  method RandomlyOrderedGridOfPoints(rect: Rect, density: real) returns (points: seq<Point>)
    requires density != 0.0
    ensures multiset(points) == multiset(EvenlyDistributedGrid(rect, density))
    ensures |points| == |EvenlyDistributedGrid(rect, density)|
  {
    var pointGrid := EvenlyDistributedGrid(rect, density);
    var a := new Point[|pointGrid|](i requires 0 <= i < |pointGrid| => pointGrid[i]);
    assert a[..] == pointGrid;
    Shuffle(a);
    points := a[..];
    assert |multiset(points)| == |multiset(pointGrid)|;
  }

  /** The four parts of a subdivision, in the order nannou returns them. */
  function QuadSeq(q: Quad): seq<Rect>
  {
    [q.0, q.1, q.2, q.3]
  }

  /** One subdivision pass over a list: `flat_map(|sub| sub.subdivisions())`. */
  function SubdivideAll(rects: seq<Rect>, subdivisions: Rect -> Quad): (r: seq<Rect>)
    ensures |r| == 4 * |rects|
  {
    FlattenLength(SubdivisionsOf(rects, subdivisions), 4);
    Flatten(SubdivisionsOf(rects, subdivisions))
  }

  /** The four parts of each rectangle, rectangle by rectangle (the `map` before the flattening). */
  function SubdivisionsOf(rects: seq<Rect>, subdivisions: Rect -> Quad): (parts: seq<seq<Rect>>)
    ensures |parts| == |rects|
    ensures forall k :: 0 <= k < |rects| ==> parts[k] == QuadSeq(subdivisions(rects[k]))
  {
    seq(|rects|, k requires 0 <= k < |rects| => QuadSeq(subdivisions(rects[k])))
  }

  /** The rectangles after the seeding pass and `passes` further passes. */
  function Leaves(rect: Rect, passes: nat, subdivisions: Rect -> Quad): (r: seq<Rect>)
    ensures |r| == Pow4(passes + 1)
  {
    if passes == 0 then QuadSeq(subdivisions(rect))
    else SubdivideAll(Leaves(rect, passes - 1, subdivisions), subdivisions)
  }

  /** Two triangles per rectangle, in order: `flat_map(|sub| sub.triangles_iter())`. */
  function TrianglesOf(rects: seq<Rect>, trianglesIter: Rect -> TriPair): (r: seq<Tri>)
    ensures |r| == 2 * |rects|
  {
    FlattenLength(TrianglePairsOf(rects, trianglesIter), 2);
    Flatten(TrianglePairsOf(rects, trianglesIter))
  }

  /** The two triangles of each rectangle, rectangle by rectangle (the `map` before the flattening). */
  function TrianglePairsOf(rects: seq<Rect>, trianglesIter: Rect -> TriPair): (pairs: seq<seq<Tri>>)
    ensures |pairs| == |rects|
    ensures forall k :: 0 <= k < |rects| ==> pairs[k] == [trianglesIter(rects[k]).0, trianglesIter(rects[k]).1]
  {
    seq(|rects|, k requires 0 <= k < |rects| => [trianglesIter(rects[k]).0, trianglesIter(rects[k]).1])
  }

  function Vertices(t: Tri): seq<Point>
  {
    [t.a, t.b, t.c]
  }

  /** A triangle's vertices chained with themselves and cut to three: exactly its vertices, once. */
  function TrianglePoints(t: Tri): (points: seq<Point>)
    ensures points == Vertices(t)
  {
    (Vertices(t) + Vertices(t))[..3]
  }

  function Pow4(n: nat): nat
  {
    if n == 0 then 1 else 4 * Pow4(n - 1)
  }

  /** The number of further passes `for _ in 0..levels` makes: none when `levels` is not positive. */
  function Passes(levels: int): nat
  {
    if levels < 0 then 0 else levels
  }

  /** A pass replaces every rectangle by its four parts, in order: part m of rectangle k lands at 4 * k + m. */
  lemma SubdivideAllAt(rects: seq<Rect>, subdivisions: Rect -> Quad, k: nat, m: nat)
    requires k < |rects| && m < 4
    ensures k * 4 + m < |SubdivideAll(rects, subdivisions)|
    ensures SubdivideAll(rects, subdivisions)[k * 4 + m] == QuadSeq(subdivisions(rects[k]))[m]
  {
    var parts := SubdivisionsOf(rects, subdivisions);
    FlattenAt(parts, 4, k, m);
    assert parts[k] == QuadSeq(subdivisions(rects[k]));
  }

  /** Rectangle k contributes triangles 2 * k and 2 * k + 1, the two `triangles_iter` yields, in order. */
  lemma TrianglesOfAt(rects: seq<Rect>, trianglesIter: Rect -> TriPair, k: nat)
    requires k < |rects|
    ensures TrianglesOf(rects, trianglesIter)[k * 2] == trianglesIter(rects[k]).0
    ensures TrianglesOf(rects, trianglesIter)[k * 2 + 1] == trianglesIter(rects[k]).1
  {
    var pairs := TrianglePairsOf(rects, trianglesIter);
    FlattenAt(pairs, 2, k, 0);
    FlattenAt(pairs, 2, k, 1);
    assert pairs[k] == [trianglesIter(rects[k]).0, trianglesIter(rects[k]).1];
  }

  /**
   * `subtriangles`: one seeding subdivision, `levels` more passes, two
   * triangles per resulting rectangle, each given as its three vertices.
   */
  method Subtriangles(rect: Rect, levels: int, subdivisions: Rect -> Quad, trianglesIter: Rect -> TriPair)
    returns (trianglePoints: seq<seq<Point>>)
    ensures |trianglePoints| == 2 * Pow4(Passes(levels) + 1)
    ensures levels <= 0 ==> |trianglePoints| == 8
    ensures levels == 1 ==> |trianglePoints| == 32
    ensures forall k :: 0 <= k < |trianglePoints| ==> |trianglePoints[k]| == 3
    ensures forall k :: 0 <= k < |trianglePoints| ==>
              trianglePoints[k] == Vertices(TrianglesOf(Leaves(rect, Passes(levels), subdivisions), trianglesIter)[k])
  {
    var subs := QuadSeq(subdivisions(rect));
    var i := 0;
    while i < levels
      invariant 0 <= i <= Passes(levels)
      invariant subs == Leaves(rect, i, subdivisions)
    {
      subs := SubdivideAll(subs, subdivisions);
      i := i + 1;
    }
    var triangles := TrianglesOf(subs, trianglesIter);
    trianglePoints := seq(|triangles|, k requires 0 <= k < |triangles| => TrianglePoints(triangles[k]));
  }
}
