/** Values shared by both diffusion steppers: the grid (a field of exact
    real cell values, stored row by row), its total, the iteration count
    of a `for` loop over `range(n)`, and the seeded initial condition. */
module Grids {

  /** A grid is a sequence of rows; `g[i][j]` is the cell in row i, column j. */
  type Grid = seq<seq<real>>

  /** The value written into every cell of the initial block. */
  const Seed: real := 0.005

  /** `g` has exactly `rows` rows of `cols` cells each. */
  predicate IsShape(g: Grid, rows: nat, cols: nat)
  {
    |g| == rows && forall i :: 0 <= i < rows ==> |g[i]| == cols
  }

  /** The length of the first row, or 0 for a grid without rows. */
  function Width(g: Grid): nat
  {
    if |g| == 0 then 0 else |g[0]|
  }

  /** Every row has the length of the first: the shape of an ndarray. */
  predicate Rectangular(g: Grid)
  {
    IsShape(g, |g|, Width(g))
  }

  lemma ShapeIsRectangular(g: Grid, rows: nat, cols: nat)
    requires IsShape(g, rows, cols)
    ensures Rectangular(g) && (rows > 0 ==> Width(g) == cols)
  {
  }

  /** Element i of a sequence. The sum lemmas state their cell-by-cell
      hypotheses through `Elem`, so that those hypotheses are used where a
      proof names a cell and not wherever a row is indexed. */
  function Elem<T>(s: seq<T>, i: int): T
    requires 0 <= i < |s|
  {
    s[i]
  }

  /** Euclidean division is unique: Python's `%` (Dafny's, for a positive
      divisor) gives the one remainder in [0, n). */
  lemma ModUnique(x: int, n: int, q: int, r: int)
    requires n > 0 && 0 <= r < n && x == q * n + r
    ensures x % n == r
  {
    var q', r' := x / n, x % n;
    assert x == q' * n + r';
    assert (q - q') * n == r' - r;
    if q - q' >= 1 {
      assert false;
    } else if q - q' <= -1 {
      assert false;
    }
  }

  /** The sum of the cells of a row from cell k to its end. */
  function SumFrom(s: seq<real>, k: nat): real
    requires k <= |s|
    decreases |s| - k
  {
    if k == |s| then 0.0 else s[k] + SumFrom(s, k + 1)
  }

  /** The sum of a row, added from the first cell on. */
  function Sum(s: seq<real>): real
  {
    SumFrom(s, 0)
  }

  /** Rows that agree from cell k on have equal sums from there. */
  lemma {:induction false} SumFromEqual(x: seq<real>, y: seq<real>, k: nat)
    requires |x| == |y| && k <= |x|
    requires forall j :: k <= j < |x| ==> x[j] == y[j]
    ensures SumFrom(x, k) == SumFrom(y, k)
    decreases |x| - k
  {
    if k < |x| {
      SumFromEqual(x, y, k + 1);
    }
  }

  /** Summing cell by cell: when each cell of r is the sum of the cells of
      x and y, the sum of r is the sum of x plus the sum of y. */
  lemma {:induction false} SumFromAdd(r: seq<real>, x: seq<real>, y: seq<real>, k: nat)
    requires |r| == |x| == |y| && k <= |r|
    requires forall j {:trigger Elem(r, j)} :: k <= j < |r| ==> Elem(r, j) == Elem(x, j) + Elem(y, j)
    ensures SumFrom(r, k) == SumFrom(x, k) + SumFrom(y, k)
    decreases |r| - k
  {
    if k < |r| {
      SumFromAdd(r, x, y, k + 1);
      assert Elem(r, k) == Elem(x, k) + Elem(y, k);
    }
  }

  /** The same for a difference of cells. */
  lemma {:induction false} SumFromSub(r: seq<real>, x: seq<real>, y: seq<real>, k: nat)
    requires |r| == |x| == |y| && k <= |r|
    requires forall j {:trigger Elem(r, j)} :: k <= j < |r| ==> Elem(r, j) == Elem(x, j) - Elem(y, j)
    ensures SumFrom(r, k) == SumFrom(x, k) - SumFrom(y, k)
    decreases |r| - k
  {
    if k < |r| {
      SumFromSub(r, x, y, k + 1);
      assert Elem(r, k) == Elem(x, k) - Elem(y, k);
    }
  }

  /** The same for cells multiplied by one factor c. */
  lemma {:induction false} SumFromScale(r: seq<real>, c: real, x: seq<real>, k: nat)
    requires |r| == |x| && k <= |r|
    requires forall j {:trigger Elem(r, j)} :: k <= j < |r| ==> Elem(r, j) == c * Elem(x, j)
    ensures SumFrom(r, k) == c * SumFrom(x, k)
    decreases |r| - k
  {
    if k < |r| {
      SumFromScale(r, c, x, k + 1);
      assert Elem(r, k) == c * Elem(x, k);
      assert SumFrom(r, k) == c * x[k] + c * SumFrom(x, k + 1);
    }
  }

  /** The tail of a concatenation that lies in its second part. */
  lemma {:induction false} SumFromSecond(a: seq<real>, b: seq<real>, m: nat)
    requires m <= |b|
    ensures SumFrom(a + b, |a| + m) == SumFrom(b, m)
    decreases |b| - m
  {
    if m < |b| {
      SumFromSecond(a, b, m + 1);
    }
  }

  /** The sum of a concatenation from a cell of its first part. */
  lemma {:induction false} SumFromConcat(a: seq<real>, b: seq<real>, k: nat)
    requires k <= |a|
    ensures SumFrom(a + b, k) == SumFrom(a, k) + Sum(b)
    decreases |a| - k
  {
    if k == |a| {
      SumFromSecond(a, b, 0);
    } else {
      SumFromConcat(a, b, k + 1);
    }
  }

  lemma SumConcat(a: seq<real>, b: seq<real>)
    ensures Sum(a + b) == Sum(a) + Sum(b)
  {
    SumFromConcat(a, b, 0);
  }

  /** The sum of every row. */
  function RowSums(g: Grid): (r: seq<real>)
    ensures |r| == |g|
  {
    seq(|g|, i requires 0 <= i < |g| => Sum(g[i]))
  }

  /** The total quantity held by the grid: the sum of all its cells. */
  function Total(g: Grid): real
  {
    Sum(RowSums(g))
  }

  /** Grids whose rows have equal sums have equal totals. */
  lemma EqualRowSums(a: Grid, b: Grid)
    requires |a| == |b|
    requires forall i :: 0 <= i < |a| ==> Sum(a[i]) == Sum(b[i])
    ensures Total(a) == Total(b)
  {
    SumFromEqual(RowSums(a), RowSums(b), 0);
  }

  /** The number of iterations of `for _ in range(n)`: none when n <= 0. */
  function Iterations(n: int): (k: nat)
    ensures n >= 0 ==> k == n
    ensures n < 0 ==> k == 0
  {
    if n < 0 then 0 else n
  }

  /** `int(rows * 0.4)`: the first row (and column) of the seeded block.
      The double nearest 0.4 lies above 2/5, so the product never rounds
      below an integer it reaches and truncation gives floor(2 * rows / 5). */
  function BlockLow(rows: nat): nat
  {
    rows * 2 / 5
  }

  /** `int(rows * 0.5)`: one past the last row (and column) of the block. */
  function BlockHigh(rows: nat): nat
  {
    rows / 2
  }

  lemma BlockWithinRows(rows: nat)
    ensures BlockLow(rows) <= BlockHigh(rows) <= rows
  {
  }

  /** Both axes of the block use the bounds computed from the row count. */
  predicate InBlock(rows: nat, k: int)
  {
    BlockLow(rows) <= k < BlockHigh(rows)
  }

  /** The seeded field: `Seed` on the block, zero everywhere else. */
  function InitialGrid(rows: nat, cols: nat): (g: Grid)
    ensures IsShape(g, rows, cols)
  {
    seq(rows, i => seq(cols, j => if InBlock(rows, i) && InBlock(rows, j) then Seed else 0.0))
  }

  /** How many of 0, 1, ..., n - 1 lie in [lo, hi). */
  function Overlap(n: nat, lo: nat, hi: nat): nat
  {
    if hi <= lo || n <= lo then 0 else if n < hi then n - lo else hi - lo
  }

  /** The cells from k on of a row holding `v` on [lo, hi) and zero
      elsewhere sum to `v` times the number of them inside [lo, hi). */
  lemma {:induction false} IndicatorSumFrom(s: seq<real>, lo: nat, hi: nat, v: real, k: nat)
    requires k <= |s|
    requires forall j :: 0 <= j < |s| ==> s[j] == if lo <= j < hi then v else 0.0
    ensures SumFrom(s, k) + v * Overlap(k, lo, hi) as real == v * Overlap(|s|, lo, hi) as real
    decreases |s| - k
  {
    if k < |s| {
      IndicatorSumFrom(s, lo, hi, v, k + 1);
    }
  }

  /** A row holding `v` on [lo, hi) and zero elsewhere sums to `v` times
      the number of its cells inside [lo, hi). */
  lemma IndicatorSum(n: nat, lo: nat, hi: nat, v: real)
    ensures Sum(seq(n, j => if lo <= j < hi then v else 0.0)) == v * Overlap(n, lo, hi) as real
  {
    IndicatorSumFrom(seq(n, j => if lo <= j < hi then v else 0.0), lo, hi, v, 0);
  }

  /** A row of the initial grid holds `Seed` on the block's columns
      when the row is in the block, and nothing otherwise. */
  lemma InitialRowSum(rows: nat, cols: nat, i: nat)
    requires i < rows
    ensures Sum(InitialGrid(rows, cols)[i])
         == if InBlock(rows, i) then Seed * Overlap(cols, BlockLow(rows), BlockHigh(rows)) as real else 0.0
  {
    var lo, hi := BlockLow(rows), BlockHigh(rows);
    var row := InitialGrid(rows, cols)[i];
    if InBlock(rows, i) {
      assert row == seq(cols, j => if lo <= j < hi then Seed else 0.0);
      IndicatorSum(cols, lo, hi, Seed);
    } else {
      assert row == seq(cols, j => if lo <= j < hi then 0.0 else 0.0);
      IndicatorSum(cols, lo, hi, 0.0);
    }
  }

  /** The row sums of the initial grid: `Seed` times the block's columns
      on the block's rows, zero on the others. */
  lemma InitialRowSums(rows: nat, cols: nat)
    ensures RowSums(InitialGrid(rows, cols))
         == seq(rows, i => if BlockLow(rows) <= i < BlockHigh(rows)
                           then Seed * Overlap(cols, BlockLow(rows), BlockHigh(rows)) as real else 0.0)
  {
    forall i | 0 <= i < rows {
      InitialRowSum(rows, cols, i);
    }
  }

  /** The total quantity seeded by the initial condition: `Seed` times the
      block's rows times the block's columns that fit inside the grid. */
  lemma InitialMass(rows: nat, cols: nat)
    ensures Total(InitialGrid(rows, cols))
         == Seed * (BlockHigh(rows) - BlockLow(rows)) as real
                 * Overlap(cols, BlockLow(rows), BlockHigh(rows)) as real
  {
    var lo, hi := BlockLow(rows), BlockHigh(rows);
    var rowMass := Seed * Overlap(cols, lo, hi) as real;
    InitialRowSums(rows, cols);
    IndicatorSum(rows, lo, hi, rowMass);
    BlockWithinRows(rows);
    assert Overlap(rows, lo, hi) == hi - lo;
  }
}
