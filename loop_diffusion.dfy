/** The explicit-loop diffusion stepper: a fresh grid is filled cell by
    cell from the second differences along both axes, with indices that
    wrap around the edges of the grid. */
module LoopDiffusion {
  import opened Grids

  /** The cells of a two-dimensional array as a grid value. */
  function Matrix(a: array2<real>): (g: Grid)
    reads a
    ensures IsShape(g, a.Length0, a.Length1)
  {
    seq(a.Length0, i requires 0 <= i < a.Length0 reads a =>
      seq(a.Length1, j requires 0 <= j < a.Length1 reads a => a[i, j]))
  }

  /** The new value of cell (i, j): the cell plus `D * (grid_xx + grid_yy) * dt`,
      where each term is the second difference along one axis with the
      neighbours taken modulo the grid's extent. */
  function Cell(g: Grid, i: nat, j: nat, dt: real, D: real): real
    requires Rectangular(g) && i < |g| && j < Width(g)
  {
    var xmax, ymax := |g|, Width(g);
    var gridXX := g[(i + 1) % xmax][j] + g[(i - 1) % xmax][j] - 2.0 * g[i][j];
    var gridYY := g[i][(j + 1) % ymax] + g[i][(j - 1) % ymax] - 2.0 * g[i][j];
    g[i][j] + D * (gridXX + gridYY) * dt
  }

  /** The grid one call of `evolve` returns. */
  function Step(g: Grid, dt: real, D: real): (r: Grid)
    requires Rectangular(g)
    ensures IsShape(r, |g|, Width(g))
  {
    seq(|g|, i requires 0 <= i < |g| =>
      seq(Width(g), j requires 0 <= j < Width(g) => Cell(g, i, j, dt, D)))
  }

  /** `n` calls of `evolve`, each on the grid the one before returned. */
  function Iterate(g: Grid, n: nat, dt: real, D: real): (r: Grid)
    requires Rectangular(g)
    ensures IsShape(r, |g|, Width(g))
  {
    if n == 0 then g else Step(Iterate(g, n - 1, dt, D), dt, D)
  }

  /** `evolve(grid, dt, D)`: allocates a zero grid of the same shape and
      fills it row by row; the input grid is only read. */
  method Evolve(grid: array2<real>, dt: real, D: real) returns (newGrid: array2<real>)
    ensures fresh(newGrid)
    ensures newGrid.Length0 == grid.Length0 && newGrid.Length1 == grid.Length1
    ensures Matrix(newGrid) == Step(Matrix(grid), dt, D)
  {
    var xmax, ymax := grid.Length0, grid.Length1;
    ghost var g := Matrix(grid);
    newGrid := new real[xmax, ymax]((x, y) => 0.0);
    for i := 0 to xmax
      invariant g == Matrix(grid)
      invariant forall x: nat, y: nat :: x < i && y < ymax ==> RowsAgree(newGrid, g, x, y, dt, D)
    {
      label BeforeRow:
      EvolveRow(grid, newGrid, g, i, dt, D);
      forall x: nat, y: nat | x < i && y < ymax
        ensures RowsAgree(newGrid, g, x, y, dt, D)
      {
        assert old@BeforeRow(RowsAgree(newGrid, g, x, y, dt, D));
      }
    }
    ghost var r, s := Matrix(newGrid), Step(g, dt, D);
    forall x | 0 <= x < xmax
      ensures r[x] == s[x]
    {
      forall y | 0 <= y < ymax
        ensures r[x][y] == s[x][y]
      {
        assert RowsAgree(newGrid, g, x, y, dt, D);
      }
    }
  }

  /** Cell (x, y) of `newGrid` holds the stepped value of `g` there. */
  predicate RowsAgree(newGrid: array2<real>, g: Grid, x: nat, y: nat, dt: real, D: real)
    reads newGrid
  {
    Rectangular(g) && x < |g| && y < Width(g) && x < newGrid.Length0 && y < newGrid.Length1
    && newGrid[x, y] == Cell(g, x, y, dt, D)
  }

  /** The inner loop of `evolve`: fills row i of `newGrid`. */
  method EvolveRow(grid: array2<real>, newGrid: array2<real>, ghost g: Grid, i: nat, dt: real, D: real)
    requires newGrid != grid && g == Matrix(grid) && i < grid.Length0
    requires newGrid.Length0 == grid.Length0 && newGrid.Length1 == grid.Length1
    modifies newGrid
    ensures forall y: nat :: y < newGrid.Length1 ==> RowsAgree(newGrid, g, i, y, dt, D)
    ensures forall x: nat, y: nat :: x < newGrid.Length0 && y < newGrid.Length1 && x != i ==>
              newGrid[x, y] == old(newGrid[x, y])
  {
    var xmax, ymax := grid.Length0, grid.Length1;
    ShapeIsRectangular(g, xmax, ymax);
    for j := 0 to ymax
      invariant forall y: nat :: y < j ==> RowsAgree(newGrid, g, i, y, dt, D)
      invariant forall x: nat, y: nat :: x < xmax && y < ymax && x != i ==> newGrid[x, y] == old(newGrid[x, y])
    {
      var gridXX := grid[(i + 1) % xmax, j] + grid[(i - 1) % xmax, j] - 2.0 * grid[i, j];
      var gridYY := grid[i, (j + 1) % ymax] + grid[i, (j - 1) % ymax] - 2.0 * grid[i, j];
      CellFromArray(grid, g, i, j, dt, D, gridXX, gridYY);
      label BeforeCell:
      newGrid[i, j] := grid[i, j] + D * (gridXX + gridYY) * dt;
      forall y: nat | y < j
        ensures RowsAgree(newGrid, g, i, y, dt, D)
      {
        assert old@BeforeCell(RowsAgree(newGrid, g, i, y, dt, D));
      }
    }
  }

  /** The seeding loops of `run_experiment`: every cell of the block
      `[blockLow, blockHigh)` on both axes becomes `Seed`. Both ranges come
      from the row count, so a block column past the last column would
      raise an IndexError; the requires excludes exactly that case. */
  method SeedBlock(grid: array2<real>)
    requires BlockHigh(grid.Length0) <= BlockLow(grid.Length0) || BlockHigh(grid.Length0) <= grid.Length1
    requires forall x: nat, y: nat :: x < grid.Length0 && y < grid.Length1 ==> grid[x, y] == 0.0
    modifies grid
    ensures Matrix(grid) == InitialGrid(grid.Length0, grid.Length1)
  {
    var blockLow := BlockLow(grid.Length0);
    var blockHigh := BlockHigh(grid.Length0);
    for i := blockLow to blockHigh
      invariant forall x: nat, y: nat :: x < grid.Length0 && y < grid.Length1 ==>
                  grid[x, y] == if blockLow <= x < i && blockLow <= y < blockHigh then Seed else 0.0
    {
      for j := blockLow to blockHigh
        invariant forall x: nat, y: nat :: x < grid.Length0 && y < grid.Length1 ==>
                    grid[x, y] == if (blockLow <= x < i && blockLow <= y < blockHigh) || (x == i && blockLow <= y < j)
                                  then Seed else 0.0
      {
        grid[i, j] := Seed;
      }
    }
    ghost var m, init := Matrix(grid), InitialGrid(grid.Length0, grid.Length1);
    forall x | 0 <= x < grid.Length0
      ensures m[x] == init[x]
    {
    }
  }

  /** `run_experiment(num_iterations)` on a grid of `xmax` by `ymax` cells,
      without its timing: a zero grid, the seeded block, then
      `num_iterations` calls of `evolve` with dt = 0.1 and D = 1. */
  method RunExperiment(xmax: nat, ymax: nat, numIterations: int) returns (grid: array2<real>)
    requires BlockHigh(xmax) <= BlockLow(xmax) || BlockHigh(xmax) <= ymax
    ensures grid.Length0 == xmax && grid.Length1 == ymax
    ensures Matrix(grid) == Iterate(InitialGrid(xmax, ymax), Iterations(numIterations), 0.1, 1.0)
  {
    grid := new real[xmax, ymax]((x, y) => 0.0);
    SeedBlock(grid);
    ShapeIsRectangular(InitialGrid(xmax, ymax), xmax, ymax);
    for k := 0 to Iterations(numIterations)
      invariant grid.Length0 == xmax && grid.Length1 == ymax
      invariant Matrix(grid) == Iterate(InitialGrid(xmax, ymax), k, 0.1, 1.0)
    {
      grid := Evolve(grid, 0.1, 1.0);
    }
  }

  /** What the loop body computes for cell (i, j) is `Cell` of the grid
      the array holds. */
  lemma CellFromArray(grid: array2<real>, g: Grid, i: nat, j: nat, dt: real, D: real, gridXX: real, gridYY: real)
    requires g == Matrix(grid) && i < grid.Length0 && j < grid.Length1
    requires gridXX == grid[(i + 1) % grid.Length0, j] + grid[(i - 1) % grid.Length0, j] - 2.0 * grid[i, j]
    requires gridYY == grid[i, (j + 1) % grid.Length1] + grid[i, (j - 1) % grid.Length1] - 2.0 * grid[i, j]
    ensures Rectangular(g)
    ensures Cell(g, i, j, dt, D) == grid[i, j] + D * (gridXX + gridYY) * dt
  {
    ShapeIsRectangular(g, grid.Length0, grid.Length1);
  }

  /** The neighbour after `k` on an axis of `n` cells, wrapping to 0 after the last. */
  function Next(k: nat, n: nat): nat
  {
    if k + 1 == n then 0 else k + 1
  }

  /** The neighbour before `k` on an axis of `n` cells, wrapping to the last before 0. */
  function Prev(k: nat, n: nat): nat
    requires n > 0
  {
    if k == 0 then n - 1 else k - 1
  }

  /** On an axis of `n` cells, `(k + 1) % n` and `(k - 1) % n` are the
      wrapped neighbours: the grid is a torus. */
  lemma WrapNeighbours(k: nat, n: nat)
    requires k < n
    ensures (k + 1) % n == Next(k, n) && (k - 1) % n == Prev(k, n)
  {
    if k + 1 == n {
      ModUnique(k + 1, n, 1, 0);
    } else {
      ModUnique(k + 1, n, 0, k + 1);
    }
    if k == 0 {
      ModUnique(k - 1, n, -1, n - 1);
    } else {
      ModUnique(k - 1, n, 0, k - 1);
    }
  }

  /** `Cell` without `%`: the neighbours of an edge cell are on the
      opposite edge. */
  lemma CellByCases(g: Grid, i: nat, j: nat, dt: real, D: real)
    requires Rectangular(g) && i < |g| && j < Width(g)
    ensures Cell(g, i, j, dt, D)
         == g[i][j] + D * ((g[Next(i, |g|)][j] + g[Prev(i, |g|)][j] - 2.0 * g[i][j])
                         + (g[i][Next(j, Width(g))] + g[i][Prev(j, Width(g))] - 2.0 * g[i][j])) * dt
  {
    WrapNeighbours(i, |g|);
    WrapNeighbours(j, Width(g));
  }

  /** With no diffusion (D = 0) or no time (dt = 0) `evolve` returns a copy. */
  lemma StepWithoutDiffusion(g: Grid, dt: real, D: real)
    requires Rectangular(g)
    requires D == 0.0 || dt == 0.0
    ensures Step(g, dt, D) == g
  {
    var r := Step(g, dt, D);
    forall i | 0 <= i < |g|
      ensures r[i] == g[i]
    {
      forall j | 0 <= j < |g[i]|
        ensures r[i][j] == g[i][j]
      {
        var xx := g[(i + 1) % |g|][j] + g[(i - 1) % |g|][j] - 2.0 * g[i][j];
        var yy := g[i][(j + 1) % Width(g)] + g[i][(j - 1) % Width(g)] - 2.0 * g[i][j];
        assert r[i][j] == g[i][j] + D * (xx + yy) * dt;
      }
    }
  }

  /** Every cell of `g` lies in [lo, hi]. */
  predicate Bounded(g: Grid, lo: real, hi: real)
  {
    forall i, j :: 0 <= i < |g| && 0 <= j < |g[i]| ==> lo <= g[i][j] <= hi
  }

  /** A grid holding one value everywhere is an equilibrium of `evolve`. */
  lemma UniformIsFixed(g: Grid, v: real, dt: real, D: real)
    requires Rectangular(g) && Bounded(g, v, v)
    ensures Step(g, dt, D) == g
  {
    var r := Step(g, dt, D);
    forall i | 0 <= i < |g|
      ensures r[i] == g[i]
    {
      forall j | 0 <= j < |g[i]|
        ensures r[i][j] == g[i][j]
      {
        UniformCell(g, v, i, j, dt, D);
      }
    }
  }

  /** In a grid holding `v` everywhere both second differences vanish. */
  lemma UniformCell(g: Grid, v: real, i: nat, j: nat, dt: real, D: real)
    requires Rectangular(g) && Bounded(g, v, v) && i < |g| && j < Width(g)
    ensures Cell(g, i, j, dt, D) == v
  {
    var xx := g[(i + 1) % |g|][j] + g[(i - 1) % |g|][j] - 2.0 * g[i][j];
    var yy := g[i][(j + 1) % Width(g)] + g[i][(j - 1) % Width(g)] - 2.0 * g[i][j];
    assert g[(i + 1) % |g|][j] == v && g[(i - 1) % |g|][j] == v;
    assert g[i][(j + 1) % Width(g)] == v && g[i][(j - 1) % Width(g)] == v;
    var change := xx + yy;
    assert change == 0.0;
    assert D * change * dt == 0.0;
  }

  lemma NonNegativeProduct(a: real, b: real)
    requires a >= 0.0 && b >= 0.0
    ensures a * b >= 0.0
  {
  }

  /** A cell moved towards its four neighbours by a fraction `c` of at
      most 1/4 of each difference is a weighted average of the five values
      with non-negative weights, so it stays within their bounds. */
  lemma AverageBounded(v: real, n1: real, n2: real, n3: real, n4: real, c: real, lo: real, hi: real)
    requires 0.0 <= c <= 0.25
    requires lo <= v <= hi && lo <= n1 <= hi && lo <= n2 <= hi && lo <= n3 <= hi && lo <= n4 <= hi
    ensures lo <= v + c * ((n1 + n2 - 2.0 * v) + (n3 + n4 - 2.0 * v)) <= hi
  {
    var w, sum := 1.0 - 4.0 * c, n1 + n2 + n3 + n4;
    var x := v + c * ((n1 + n2 - 2.0 * v) + (n3 + n4 - 2.0 * v));
    assert x - lo == w * (v - lo) + c * (sum - 4.0 * lo);
    assert hi - x == w * (hi - v) + c * (4.0 * hi - sum);
    NonNegativeProduct(w, v - lo);
    NonNegativeProduct(c, sum - 4.0 * lo);
    NonNegativeProduct(w, hi - v);
    NonNegativeProduct(c, 4.0 * hi - sum);
  }

  /** One cell of a stable step stays within the bounds of the grid. */
  lemma CellBounded(g: Grid, i: nat, j: nat, dt: real, D: real, lo: real, hi: real)
    requires Rectangular(g) && i < |g| && j < Width(g) && Bounded(g, lo, hi)
    requires 0.0 <= D * dt <= 0.25
    ensures lo <= Cell(g, i, j, dt, D) <= hi
  {
    var up, down := g[(i + 1) % |g|][j], g[(i - 1) % |g|][j];
    var right, left := g[i][(j + 1) % Width(g)], g[i][(j - 1) % Width(g)];
    var xx, yy := up + down - 2.0 * g[i][j], right + left - 2.0 * g[i][j];
    assert D * (xx + yy) * dt == (D * dt) * (xx + yy);
    AverageBounded(g[i][j], up, down, right, left, D * dt, lo, hi);
  }

  /** Under the stability condition `D * dt <= 1/4` (and `D * dt >= 0`)
      a step keeps every cell within the bounds of the grid it starts from:
      nothing turns negative and nothing exceeds the largest cell. */
  lemma StepBounded(g: Grid, dt: real, D: real, lo: real, hi: real)
    requires Rectangular(g) && Bounded(g, lo, hi)
    requires 0.0 <= D * dt <= 0.25
    ensures Bounded(Step(g, dt, D), lo, hi)
  {
    var r := Step(g, dt, D);
    forall i, j | 0 <= i < |r| && 0 <= j < |r[i]|
      ensures lo <= r[i][j] <= hi
    {
      CellBounded(g, i, j, dt, D, lo, hi);
    }
  }

  /** Any number of stable steps keeps every cell within the initial bounds. */
  lemma {:induction false} IterateBounded(g: Grid, n: nat, dt: real, D: real, lo: real, hi: real)
    requires Rectangular(g) && Bounded(g, lo, hi)
    requires 0.0 <= D * dt <= 0.25
    ensures Bounded(Iterate(g, n, dt, D), lo, hi)
    decreases n
  {
    if n > 0 {
      IterateBounded(g, n - 1, dt, D, lo, hi);
      LastStepBounded(g, n, dt, D, lo, hi);
    }
  }

  /** The last of n stable steps keeps the bounds of the grid before it. */
  lemma LastStepBounded(g: Grid, n: nat, dt: real, D: real, lo: real, hi: real)
    requires Rectangular(g) && n > 0 && Bounded(Iterate(g, n - 1, dt, D), lo, hi)
    requires 0.0 <= D * dt <= 0.25
    ensures Bounded(Iterate(g, n, dt, D), lo, hi)
  {
    var prev := Iterate(g, n - 1, dt, D);
    ShapeIsRectangular(prev, |g|, Width(g));
    StepBounded(prev, dt, D, lo, hi);
  }

  /** A 3 by 3 grid holding 1 in its corner cell (0, 0) and 0 elsewhere. */
  function Corner(): (g: Grid)
    ensures IsShape(g, 3, 3)
  {
    [[1.0, 0.0, 0.0], [0.0, 0.0, 0.0], [0.0, 0.0, 0.0]]
  }

  /** One step from the corner grid: the corner gives `D * dt` to each of
      its four neighbours, two of which lie across the edges at (2, 0) and
      (0, 2), and keeps `1 - 4 * D * dt`; the other cells stay 0. */
  lemma WrapAroundExample(dt: real, D: real)
    ensures var r := Step(Corner(), dt, D);
            r[0][0] == 1.0 - 4.0 * D * dt
            && r[1][0] == D * dt && r[2][0] == D * dt && r[0][1] == D * dt && r[0][2] == D * dt
            && r[1][1] == 0.0 && r[1][2] == 0.0 && r[2][1] == 0.0 && r[2][2] == 0.0
  {
    var g := Corner();
    WrapNeighbours(0, 3);
    WrapNeighbours(1, 3);
    WrapNeighbours(2, 3);
    assert Cell(g, 0, 0, dt, D) == 1.0 + D * (-4.0) * dt;
  }
}
