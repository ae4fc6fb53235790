/** Grid geometry and the two neighbour counts that both cave generators use.
    A count is taken over a grid of marks: `true` where the cell holds the tile
    the implementation counts. Grids are indexed [row][column]. */
module Neighbourhood {

  /** The contents of a two-dimensional array, row by row. */
  function Cells<T>(a: array2<T>): (g: seq<seq<T>>)
    reads a
    ensures |g| == a.Length0
    ensures forall i :: 0 <= i < |g| ==> |g[i]| == a.Length1
    ensures forall i, j :: 0 <= i < a.Length0 && 0 <= j < a.Length1 ==> g[i][j] == a[i, j]
  {
    seq(a.Length0, i requires 0 <= i < a.Length0 reads a =>
      seq(a.Length1, j requires 0 <= j < a.Length1 reads a => a[i, j]))
  }

  /** An array holds grid g when it has g's shape and agrees with g cell by cell. */
  lemma CellsAre<T>(a: array2<T>, g: seq<seq<T>>)
    requires IsGrid(g, a.Length1, a.Length0)
    requires forall i, j :: 0 <= i < a.Length0 && 0 <= j < a.Length1 ==> a[i, j] == g[i][j]
    ensures Cells(a) == g
  {
    var c := Cells(a);
    forall i | 0 <= i < a.Length0
      ensures c[i] == g[i]
    {
    }
  }

  /** g has `height` rows of `width` cells each. */
  predicate IsGrid<T>(g: seq<seq<T>>, width: int, height: int) {
    |g| == height && forall i :: 0 <= i < |g| ==> |g[i]| == width
  }

  /** g and h have the same number of rows, and matching rows have the same length. */
  predicate SameShape<T, U>(g: seq<seq<T>>, h: seq<seq<U>>) {
    |g| == |h| && forall i :: 0 <= i < |g| ==> |g[i]| == |h[i]|
  }

  /** (i, j) is a cell of g. */
  predicate InGrid<T>(g: seq<seq<T>>, i: int, j: int) {
    0 <= i < |g| && 0 <= j < |g[i]|
  }

  /** (i, j) is off the border ring: neither the first or last row nor the
      first or last column. */
  predicate Interior<T>(g: seq<seq<T>>, i: int, j: int) {
    1 <= i < |g| - 1 && 1 <= j < |g[i]| - 1
  }

  /** Number of interior cells of a width-by-height grid: one random draw each. */
  function InteriorCount(width: int, height: int): nat {
    if width <= 2 || height <= 2 then 0 else (width - 2) * (height - 2)
  }

  /** Position of the draw for interior cell (i, j) when the interior is
      visited row by row. */
  function DrawIndex(width: int, height: int, i: int, j: int): (k: nat)
    requires 1 <= i < height - 1 && 1 <= j < width - 1
    ensures k < InteriorCount(width, height)
  {
    DrawIndexBound(width - 2, height - 2, i - 1, j - 1);
    (i - 1) * (width - 2) + (j - 1)
  }

  /** Row by row, the draw for interior cell (i, j) comes after all draws of
      the rows above it and the j - 1 draws to its left. */
  lemma DrawIndexAfterRows(width: int, height: int, i: int, j: int)
    requires 1 <= i < height - 1 && 1 <= j < width - 1
    ensures DrawIndex(width, height, i, j) == InteriorCount(width, i + 1) + (j - 1)
  {
  }

  /** One more full interior row adds width - 2 draws. */
  lemma InteriorCountNextRow(width: int, i: int)
    requires i >= 1
    ensures InteriorCount(width, i + 2) == InteriorCount(width, i + 1) + (if width > 2 then width - 2 else 0)
  {
    if width > 2 {
      assert (width - 2) * i == (width - 2) * (i - 1) + (width - 2);
    }
  }

  /** Row-major position r*w + c of a cell of an h-by-w block lies in [0, h*w). */
  lemma DrawIndexBound(w: int, h: int, r: int, c: int)
    requires 0 <= r < h && 0 <= c < w
    ensures 0 <= r * w + c < h * w
  {
    assert r * w <= (h - 1) * w;
    assert (h - 1) * w + w == h * w;
  }

  /** Cell (i, j) exists and is marked. Cells outside the grid are never counted. */
  predicate Marked(g: seq<seq<bool>>, i: int, j: int) {
    InGrid(g, i, j) && g[i][j]
  }

  function Abs(n: int): nat {
    if n < 0 then -n else n
  }

  /** (i, j) is one of the four corners of the 5x5 window centred on (y, x). */
  predicate IsR2Corner(y: int, x: int, i: int, j: int) {
    Abs(i - y) == 2 && Abs(j - x) == 2
  }

  /** Marked cells (i, j) of row i with lo <= j < hi. */
  function SpanCount(g: seq<seq<bool>>, i: int, lo: int, hi: int): nat
    decreases hi - lo
  {
    if hi <= lo then 0
    else SpanCount(g, i, lo, hi - 1) + (if Marked(g, i, hi - 1) then 1 else 0)
  }

  /** Marked cells of the 3x3 window at (y, x) in rows y-1 .. iEnd-1. */
  function R1Rows(g: seq<seq<bool>>, y: int, x: int, iEnd: int): nat
    decreases iEnd - y
  {
    if iEnd <= y - 1 then 0
    else R1Rows(g, y, x, iEnd - 1) + SpanCount(g, iEnd - 1, x - 1, x + 2)
  }

  /** The radius-1 count: marked cells of the 3x3 window centred on (y, x),
      the centre included. */
  function CountR1(g: seq<seq<bool>>, y: int, x: int): (c: nat)
    ensures c <= 9
  {
    R1RowsBound(g, y, x, y + 2);
    R1Rows(g, y, x, y + 2)
  }

  /** Cell (i, j) counts towards the radius-2 count at (y, x): not a corner of
      the 5x5 window, inside the grid, and marked. */
  predicate R2Counted(g: seq<seq<bool>>, y: int, x: int, i: int, j: int) {
    !IsR2Corner(y, x, i, j) && Marked(g, i, j)
  }

  /** Cells (i, j) with x-2 <= j < jEnd that count towards the radius-2 count at (y, x). */
  function R2Span(g: seq<seq<bool>>, y: int, x: int, i: int, jEnd: int): nat
    decreases jEnd - x + 2
  {
    if jEnd <= x - 2 then 0
    else R2Span(g, y, x, i, jEnd - 1) + (if R2Counted(g, y, x, i, jEnd - 1) then 1 else 0)
  }

  /** Radius-2 contributions of rows y-2 .. iEnd-1. */
  function R2Rows(g: seq<seq<bool>>, y: int, x: int, iEnd: int): nat
    decreases iEnd - y + 2
  {
    if iEnd <= y - 2 then 0
    else R2Rows(g, y, x, iEnd - 1) + R2Span(g, y, x, iEnd - 1, x + 3)
  }

  /** The radius-2 count: marked in-grid cells of the 5x5 window centred on
      (y, x) minus its four corners (21 positions at most). */
  function CountR2(g: seq<seq<bool>>, y: int, x: int): (c: nat)
    ensures c <= 21
  {
    R2RowsBound(g, y, x);
    R2Rows(g, y, x, y + 3)
  }

  /** A span of n positions holds at most n marked cells. */
  lemma {:induction false} SpanCountBound(g: seq<seq<bool>>, i: int, lo: int, hi: int)
    ensures SpanCount(g, i, lo, hi) <= if hi <= lo then 0 else hi - lo
    decreases hi - lo
  {
    if hi > lo {
      SpanCountBound(g, i, lo, hi - 1);
    }
  }

  lemma {:induction false} R1RowsBound(g: seq<seq<bool>>, y: int, x: int, iEnd: int)
    ensures R1Rows(g, y, x, iEnd) <= if iEnd <= y - 1 then 0 else 3 * (iEnd - y + 1)
    decreases iEnd - y
  {
    if iEnd > y - 1 {
      R1RowsBound(g, y, x, iEnd - 1);
      SpanCountBound(g, iEnd - 1, x - 1, x + 2);
    }
  }

  /** A row of the 5x5 window contributes at most 5 cells, and at most 3 when it
      is the top or bottom row (its two end cells are corners). */
  lemma R2RowBound(g: seq<seq<bool>>, y: int, x: int, i: int)
    ensures R2Span(g, y, x, i, x + 3) <= if Abs(i - y) == 2 then 3 else 5
  {
    assert R2Span(g, y, x, i, x - 2) == 0;
    assert R2Span(g, y, x, i, x - 1) <= if Abs(i - y) == 2 then 0 else 1;
    assert R2Span(g, y, x, i, x) <= R2Span(g, y, x, i, x - 1) + 1;
    assert R2Span(g, y, x, i, x + 1) <= R2Span(g, y, x, i, x) + 1;
    assert R2Span(g, y, x, i, x + 2) <= R2Span(g, y, x, i, x + 1) + 1;
    assert R2Span(g, y, x, i, x + 3) <= R2Span(g, y, x, i, x + 2) + if Abs(i - y) == 2 then 0 else 1;
  }

  lemma R2RowsBound(g: seq<seq<bool>>, y: int, x: int)
    ensures R2Rows(g, y, x, y + 3) <= 21
  {
    R2RowBound(g, y, x, y - 2);
    R2RowBound(g, y, x, y - 1);
    R2RowBound(g, y, x, y);
    R2RowBound(g, y, x, y + 1);
    R2RowBound(g, y, x, y + 2);
    assert R2Rows(g, y, x, y - 2) == 0;
    assert R2Rows(g, y, x, y - 1) <= 3;
    assert R2Rows(g, y, x, y) <= 8;
    assert R2Rows(g, y, x, y + 1) <= 13;
    assert R2Rows(g, y, x, y + 2) <= 18;
  }

  /** The grid with every cell flipped. */
  function Negate(g: seq<seq<bool>>): (n: seq<seq<bool>>)
    ensures SameShape(n, g)
    ensures forall i, j :: InGrid(g, i, j) ==> n[i][j] == !g[i][j]
  {
    seq(|g|, i requires 0 <= i < |g| => seq(|g[i]|, j requires 0 <= j < |g[i]| => !g[i][j]))
  }

  /** Inside the grid every position of a span is marked in g or in Negate(g). */
  lemma {:induction false} SpanComplement(g: seq<seq<bool>>, i: int, lo: int, hi: int)
    requires 0 <= i < |g| && 0 <= lo <= hi <= |g[i]|
    ensures SpanCount(g, i, lo, hi) + SpanCount(Negate(g), i, lo, hi) == hi - lo
    decreases hi - lo
  {
    if hi > lo {
      SpanComplement(g, i, lo, hi - 1);
      assert Marked(Negate(g), i, hi - 1) == !Marked(g, i, hi - 1);
    }
  }

  /** At an interior cell of a rectangular grid the 3x3 window lies inside the
      grid, so the radius-1 counts of g and of its negation add up to 9. */
  lemma R1Complement(g: seq<seq<bool>>, width: int, y: int, x: int)
    requires IsGrid(g, width, |g|) && Interior(g, y, x)
    ensures CountR1(g, y, x) + CountR1(Negate(g), y, x) == 9
  {
    SpanComplement(g, y - 1, x - 1, x + 2);
    SpanComplement(g, y, x - 1, x + 2);
    SpanComplement(g, y + 1, x - 1, x + 2);
    var n := Negate(g);
    assert R1Rows(g, y, x, y) + R1Rows(n, y, x, y) == 3;
    assert R1Rows(g, y, x, y + 1) + R1Rows(n, y, x, y + 1) == 6;
    assert R1Rows(g, y, x, y + 2) + R1Rows(n, y, x, y + 2) == 9;
  }

  /** The grid with every cell marked: its counts are the numbers of in-grid positions. */
  function Filled(g: seq<seq<bool>>): (f: seq<seq<bool>>)
    ensures SameShape(f, g)
    ensures forall i, j :: InGrid(g, i, j) ==> f[i][j]
  {
    seq(|g|, i requires 0 <= i < |g| => seq(|g[i]|, j requires 0 <= j < |g[i]| => true))
  }

  /** Every in-grid non-corner position of a radius-2 row is counted in g or in Negate(g). */
  lemma {:induction false} R2SpanComplement(g: seq<seq<bool>>, y: int, x: int, i: int, jEnd: int)
    ensures R2Span(g, y, x, i, jEnd) + R2Span(Negate(g), y, x, i, jEnd) == R2Span(Filled(g), y, x, i, jEnd)
    decreases jEnd - x + 2
  {
    if jEnd > x - 2 {
      R2SpanComplement(g, y, x, i, jEnd - 1);
      var j := jEnd - 1;
      assert (if R2Counted(g, y, x, i, j) then 1 else 0) + (if R2Counted(Negate(g), y, x, i, j) then 1 else 0)
        == (if R2Counted(Filled(g), y, x, i, j) then 1 else 0);
    }
  }

  lemma {:induction false} R2RowsComplement(g: seq<seq<bool>>, y: int, x: int, iEnd: int)
    ensures R2Rows(g, y, x, iEnd) + R2Rows(Negate(g), y, x, iEnd) == R2Rows(Filled(g), y, x, iEnd)
    decreases iEnd - y + 2
  {
    if iEnd > y - 2 {
      R2RowsComplement(g, y, x, iEnd - 1);
      R2SpanComplement(g, y, x, iEnd - 1, x + 3);
    }
  }

  /** The radius-2 counts of g and of its negation add up to the number of
      in-grid positions of the 5x5 window without its corners. */
  lemma R2Complement(g: seq<seq<bool>>, y: int, x: int)
    ensures CountR2(g, y, x) + CountR2(Negate(g), y, x) == CountR2(Filled(g), y, x)
  {
    R2RowsComplement(g, y, x, y + 3);
  }

  /** A row of the radius-2 window that lies inside the grid has 5 positions,
      3 when it is the top or bottom row. */
  lemma R2FullRow(g: seq<seq<bool>>, width: int, y: int, x: int, i: int)
    requires IsGrid(g, width, |g|) && 0 <= i < |g| && 2 <= x < width - 2
    ensures R2Span(Filled(g), y, x, i, x + 3) == if Abs(i - y) == 2 then 3 else 5
  {
    var f := Filled(g);
    assert R2Span(f, y, x, i, x - 2) == 0;
    assert R2Span(f, y, x, i, x - 1) == if Abs(i - y) == 2 then 0 else 1;
    assert R2Span(f, y, x, i, x) == R2Span(f, y, x, i, x - 1) + 1;
    assert R2Span(f, y, x, i, x + 1) == R2Span(f, y, x, i, x) + 1;
    assert R2Span(f, y, x, i, x + 2) == R2Span(f, y, x, i, x + 1) + 1;
  }

  /** Two cells or more away from the border the radius-2 window has all its 21 positions. */
  lemma R2FullWindow(g: seq<seq<bool>>, width: int, y: int, x: int)
    requires IsGrid(g, width, |g|) && 2 <= y < |g| - 2 && 2 <= x < width - 2
    ensures CountR2(Filled(g), y, x) == 21
  {
    var f := Filled(g);
    R2FullRow(g, width, y, x, y - 2);
    R2FullRow(g, width, y, x, y - 1);
    R2FullRow(g, width, y, x, y);
    R2FullRow(g, width, y, x, y + 1);
    R2FullRow(g, width, y, x, y + 2);
    assert R2Rows(f, y, x, y - 2) == 0;
    assert R2Rows(f, y, x, y - 1) == 3;
    assert R2Rows(f, y, x, y) == 8;
    assert R2Rows(f, y, x, y + 1) == 13;
    assert R2Rows(f, y, x, y + 2) == 18;
  }
}
