/** The square grid of the archived population builder
    (analysis/archive/04_build_population_grid.py, `make_grid_over_boundary`):
    500-metre cells laid over the bounding box of the projected boundary,
    row by row from the bottom-left corner. The projection, the clip to the
    boundary and the random population are left to the libraries. */
module PopulationGrid {
  import opened Common

  const CELL_SIZE_METERS: real := 500.0

  /** A grid cell, given by its lower-left corner. */
  datatype Square = Square(x: real, y: real)

  /** The ring of a cell: corner, right, top-right, top, as the script
      builds the polygon. */
  function Ring(c: Square): (ring: seq<(real, real)>)
    ensures |ring| == 4 && ring[0] == (c.x, c.y)
    ensures ring[1].0 - ring[0].0 == CELL_SIZE_METERS && ring[1].1 == ring[0].1
    ensures ring[2].1 - ring[1].1 == CELL_SIZE_METERS && ring[2].0 == ring[1].0
    ensures ring[2].0 - ring[3].0 == CELL_SIZE_METERS && ring[3].1 == ring[2].1
    ensures ring[3].1 - ring[0].1 == CELL_SIZE_METERS && ring[3].0 == ring[0].0
  {
    [(c.x, c.y), (c.x + CELL_SIZE_METERS, c.y), (c.x + CELL_SIZE_METERS, c.y + CELL_SIZE_METERS),
     (c.x, c.y + CELL_SIZE_METERS)]
  }

  /** The coordinate `i` cells along from `lo`. */
  function Offset(lo: real, i: nat): real {
    lo + CELL_SIZE_METERS * i as real
  }

  /** How many steps of one cell a loop `v = lo; while v < hi: v += 500`
      makes. */
  function Steps(lo: real, hi: real): (n: nat)
    ensures hi <= lo ==> n == 0
    ensures hi > lo ==> n == Ceil((hi - lo) / CELL_SIZE_METERS)
    ensures forall i: nat :: i < n ==> Offset(lo, i) < hi
    ensures Offset(lo, n) >= hi
  {
    if hi <= lo then 0
    else
      var n := Ceil((hi - lo) / CELL_SIZE_METERS);
      assert (hi - lo) / CELL_SIZE_METERS * CELL_SIZE_METERS == hi - lo;
      assert forall i: nat :: i < n ==> Offset(lo, i) < hi by {
        forall i: nat | i < n
          ensures Offset(lo, i) < hi
        {
          assert i as real <= n as real - 1.0;
          assert i as real < (hi - lo) / CELL_SIZE_METERS;
        }
      }
      n
  }

  /** One row of the grid at height `y`: `n` cells from `minx` rightwards. */
  function Row(minx: real, n: nat, y: real): (row: seq<Square>)
    ensures |row| == n
    ensures forall i :: 0 <= i < n ==> row[i] == Square(Offset(minx, i), y)
  {
    seq(n, i requires 0 <= i < n => Square(Offset(minx, i), y))
  }

  /** The first `rows` rows of `cols` cells each, bottom row first. */
  function Rows(minx: real, cols: nat, miny: real, rows: nat): (g: seq<Square>)
    ensures |g| == rows * cols
  {
    if rows == 0 then []
    else Rows(minx, cols, miny, rows - 1) + Row(minx, cols, Offset(miny, rows - 1))
  }

  /** The cells of the bounding box, in the script's order. */
  function Grid(minx: real, miny: real, maxx: real, maxy: real): (g: seq<Square>)
    ensures |g| == Steps(minx, maxx) * Steps(miny, maxy)
  {
    Rows(minx, Steps(minx, maxx), miny, Steps(miny, maxy))
  }

  /** Cell `j * cols + i` is the `i`-th of row `j`: the grid is produced
      row by row, bottom to top and left to right within a row. */
  lemma {:induction false} RowsIndex(minx: real, cols: nat, miny: real, rows: nat, i: nat, j: nat)
    requires i < cols && j < rows
    ensures j * cols + i < |Rows(minx, cols, miny, rows)|
    ensures Rows(minx, cols, miny, rows)[j * cols + i]
         == Square(Offset(minx, i), Offset(miny, j))
    decreases rows
  {
    var prev := Rows(minx, cols, miny, rows - 1);
    assert |prev| == (rows - 1) * cols;
    assert (j + 1) * cols == j * cols + cols;
    MulLe(j + 1, rows, cols);
    MulLe(j + 1, rows - 1, cols);
    if j < rows - 1 {
      RowsIndex(minx, cols, miny, rows - 1, i, j);
    }
  }

  /** The number of cells: the ceiling of the width over 500 times the
      ceiling of the height over 500, and none for a box without width or
      height. */
  lemma GridCount(minx: real, miny: real, maxx: real, maxy: real)
    ensures var n := |Grid(minx, miny, maxx, maxy)|;
      && (maxx <= minx || maxy <= miny ==> n == 0)
      && (maxx > minx && maxy > miny ==>
            n == Ceil((maxx - minx) / CELL_SIZE_METERS) * Ceil((maxy - miny) / CELL_SIZE_METERS))
  {
  }

  /** Multiplying by a natural number keeps an ordering. */
  lemma MulLe(a: int, b: int, c: nat)
    ensures a <= b ==> a * c <= b * c
  {
    assert (b - a) * c == b * c - a * c;
  }

  /** A position below `rows * cols` splits into a row and a column. */
  lemma Decompose(k: nat, cols: nat, rows: nat)
    requires k < rows * cols
    ensures cols > 0 && k % cols < cols && k / cols < rows && k == (k / cols) * cols + k % cols
  {
    assert rows * 0 == 0;
    MulLe(rows, k / cols, cols);
  }

  /** Row-major positions compare by row first, then by column. */
  lemma RowMajor(i1: nat, j1: nat, i2: nat, j2: nat, cols: nat)
    requires i1 < cols && i2 < cols && j1 * cols + i1 < j2 * cols + i2
    ensures j1 < j2 || (j1 == j2 && i1 < i2)
  {
    MulLe(j2 + 1, j1, cols);
  }

  /** Every cell has the form (minx + 500 i, miny + 500 j) with its corner
      strictly inside the box's upper bounds. */
  lemma {:induction false} GridCorners(minx: real, miny: real, maxx: real, maxy: real, k: nat)
    requires k < |Grid(minx, miny, maxx, maxy)|
    ensures var cols := Steps(minx, maxx);
      var c := Grid(minx, miny, maxx, maxy)[k];
      && cols > 0
      && c == Square(Offset(minx, k % cols), Offset(miny, k / cols))
      && minx <= c.x < maxx && miny <= c.y < maxy
  {
    var cols := Steps(minx, maxx);
    var rows := Steps(miny, maxy);
    Decompose(k, cols, rows);
    RowsIndex(minx, cols, miny, rows, k % cols, k / cols);
  }

  /** Cells come in row-major order: later cells lie higher, or in the same
      row further right. */
  lemma {:induction false} GridOrder(minx: real, miny: real, maxx: real, maxy: real, k1: nat, k2: nat)
    requires k1 < k2 < |Grid(minx, miny, maxx, maxy)|
    ensures var g := Grid(minx, miny, maxx, maxy);
      g[k1].y < g[k2].y || (g[k1].y == g[k2].y && g[k1].x < g[k2].x)
  {
    var cols := Steps(minx, maxx);
    GridCorners(minx, miny, maxx, maxy, k1);
    GridCorners(minx, miny, maxx, maxy, k2);
    Decompose(k1, cols, Steps(miny, maxy));
    Decompose(k2, cols, Steps(miny, maxy));
    RowMajor(k1 % cols, k1 / cols, k2 % cols, k2 / cols, cols);
  }

  /** Whether a point lies in a cell (boundary included). */
  predicate Covers(c: Square, px: real, py: real) {
    c.x <= px <= c.x + CELL_SIZE_METERS && c.y <= py <= c.y + CELL_SIZE_METERS
  }

  /** The step of a loop from `lo` whose cell holds `p`. */
  function CellIndex(lo: real, hi: real, p: real): (i: nat)
    requires lo < hi && lo <= p <= hi
    ensures i < Steps(lo, hi)
    ensures Offset(lo, i) <= p <= Offset(lo, i + 1)
  {
    var n := Steps(lo, hi);
    var f := ((p - lo) / CELL_SIZE_METERS).Floor;
    assert (p - lo) / CELL_SIZE_METERS * CELL_SIZE_METERS == p - lo;
    assert f >= 0;
    if f < n then
      assert f as real <= (p - lo) / CELL_SIZE_METERS < f as real + 1.0;
      f
    else
      assert (n - 1) as real <= (p - lo) / CELL_SIZE_METERS;
      n - 1
  }

  /** The cells cover the whole bounding box. */
  lemma {:induction false} GridCoversBox(minx: real, miny: real, maxx: real, maxy: real, px: real, py: real)
    requires minx < maxx && miny < maxy
    requires minx <= px <= maxx && miny <= py <= maxy
    ensures exists k :: 0 <= k < |Grid(minx, miny, maxx, maxy)| && Covers(Grid(minx, miny, maxx, maxy)[k], px, py)
  {
    var cols := Steps(minx, maxx);
    var rows := Steps(miny, maxy);
    var i := CellIndex(minx, maxx, px);
    var j := CellIndex(miny, maxy, py);
    RowsIndex(minx, cols, miny, rows, i, j);
    var k := j * cols + i;
    assert Covers(Grid(minx, miny, maxx, maxy)[k], px, py);
  }

  /** The nested loops of `make_grid_over_boundary`. */
  method MakeGrid(minx: real, miny: real, maxx: real, maxy: real) returns (polygons: seq<Square>)
    ensures polygons == Grid(minx, miny, maxx, maxy)
  {
    var cols := Steps(minx, maxx);
    var rows := Steps(miny, maxy);
    polygons := [];
    var y := miny;
    ghost var j: nat := 0;
    while y < maxy
      invariant j <= rows && y == Offset(miny, j)
      invariant polygons == Rows(minx, cols, miny, j)
      decreases rows - j
    {
      var x := minx;
      ghost var i: nat := 0;
      ghost var start := polygons;
      while x < maxx
        invariant i <= cols && x == Offset(minx, i)
        invariant polygons == start + Row(minx, i, y)
        decreases cols - i
      {
        polygons := polygons + [Square(x, y)];
        assert Row(minx, i, y) + [Square(x, y)] == Row(minx, i + 1, y);
        x := x + CELL_SIZE_METERS;
        i := i + 1;
      }
      y := y + CELL_SIZE_METERS;
      j := j + 1;
    }
  }
}
