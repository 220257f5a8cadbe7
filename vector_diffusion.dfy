/** The whole-array diffusion stepper: the Laplacian is the sum of four
    circular shifts of the grid minus four times the grid, and one step
    adds `dt * D` times the Laplacian to the grid. */
module VectorDiffusion {
  import opened Grids
  import opened NdArray

  /** `roll(g, +1, 0) + roll(g, -1, 0) + roll(g, +1, 1) + roll(g, -1, 1)`,
      added left to right as Python does. */
  function NeighbourSum(g: Grid): (r: Grid)
    requires Rectangular(g)
    ensures IsShape(r, |g|, Width(g))
  {
    Add(Add(Add(Roll(g, 1, Rows), Roll(g, -1, Rows)), Roll(g, 1, Cols)), Roll(g, -1, Cols))
  }

  /** `laplacian(grid)`: the four circular shifts minus `4 * grid`. */
  function Laplacian(g: Grid): (r: Grid)
    requires Rectangular(g)
    ensures IsShape(r, |g|, Width(g))
  {
    Sub(NeighbourSum(g), Scale(4.0, g))
  }

  /** At every cell: the four wrapped axis neighbours minus four times the cell. */
  lemma LaplacianAt(g: Grid, i: nat, j: nat)
    requires Rectangular(g) && i < |g| && j < |g[i]|
    ensures Laplacian(g)[i][j]
         == g[(i - 1) % |g|][j] + g[(i + 1) % |g|][j]
          + g[i][(j - 1) % |g[i]|] + g[i][(j + 1) % |g[i]|] - 4.0 * g[i][j]
  {
    RollAt(g, 1, Rows, i, j);
    RollAt(g, -1, Rows, i, j);
    RollAt(g, 1, Cols, i, j);
    RollAt(g, -1, Cols, i, j);
  }

  /** Each of the four shifts carries the grid's whole total. */
  lemma NeighbourSumTotal(g: Grid)
    requires Rectangular(g)
    ensures Total(NeighbourSum(g)) == 4.0 * Total(g)
  {
    var up, down := Roll(g, 1, Rows), Roll(g, -1, Rows);
    var left, right := Roll(g, 1, Cols), Roll(g, -1, Cols);
    RollTotal(g, 1, Rows);
    RollTotal(g, -1, Rows);
    RollTotal(g, 1, Cols);
    RollTotal(g, -1, Cols);
    var vertical := Add(up, down);
    AddTotal(up, down);
    var three := Add(vertical, left);
    AddTotal(vertical, left);
    AddTotal(three, right);
  }

  /** On a torus the Laplacian sums to zero: the shifts bring in four times
      the grid's total and `4 * grid` takes it away again. */
  lemma LaplacianTotal(g: Grid)
    requires Rectangular(g)
    ensures Total(Laplacian(g)) == 0.0
  {
    var shifts, scaled := NeighbourSum(g), Scale(4.0, g);
    NeighbourSumTotal(g);
    ScaleTotal(4.0, g);
    SubTotal(shifts, scaled);
    assert Laplacian(g) == Sub(shifts, scaled);
    var t := Total(g);
    assert Total(shifts) == 4.0 * t && Total(scaled) == 4.0 * t;
  }

  /** `grid + dt * D * laplacian(grid)`, cell by cell; `EvolveAsArrays`
      shows it is the same array as the whole-array expression. */
  function Evolve(g: Grid, dt: real, D: real): (r: Grid)
    requires Rectangular(g)
    ensures IsShape(r, |g|, Width(g))
  {
    seq(|g|, i requires 0 <= i < |g| =>
      seq(Width(g), j requires 0 <= j < Width(g) => g[i][j] + dt * D * Laplacian(g)[i][j]))
  }

  /** The step is numpy's `grid + dt * D * laplacian(grid)`. */
  lemma EvolveAsArrays(g: Grid, dt: real, D: real)
    requires Rectangular(g)
    ensures Evolve(g, dt, D) == Add(g, Scale(dt * D, Laplacian(g)))
  {
    var r, s := Evolve(g, dt, D), Add(g, Scale(dt * D, Laplacian(g)));
    forall i | 0 <= i < |g|
      ensures r[i] == s[i]
    {
    }
  }

  /** `grid + dt*D*laplacian(grid)` read at one cell. */
  lemma EvolveStep(g: Grid, dt: real, D: real, i: nat, j: nat)
    requires Rectangular(g) && i < |g| && j < |g[i]|
    ensures Evolve(g, dt, D)[i][j] == g[i][j] + dt * D * Laplacian(g)[i][j]
  {
  }

  /** What one step says about cell (i, j): `e` is `g` plus `dt * D` times
      `lap` there, and `lap` is the stencil of `g` there. */
  predicate StepFacts(g: Grid, e: Grid, lap: Grid, dt: real, D: real, i: nat, j: nat)
  {
    Rectangular(g) && i < |g| && j < |g[i]| && i < |e| && j < |e[i]| && i < |lap| && j < |lap[i]|
    && e[i][j] == g[i][j] + dt * D * lap[i][j]
    && lap[i][j] == g[(i - 1) % |g|][j] + g[(i + 1) % |g|][j]
                  + g[i][(j - 1) % |g[i]|] + g[i][(j + 1) % |g[i]|] - 4.0 * g[i][j]
  }

  /** Substituting the stencil for the Laplacian's value in a step. */
  lemma StencilStep(g: Grid, e: Grid, lap: Grid, dt: real, D: real, i: nat, j: nat)
    requires StepFacts(g, e, lap, dt, D, i, j)
    ensures e[i][j]
         == g[i][j] + dt * D * (g[(i - 1) % |g|][j] + g[(i + 1) % |g|][j]
                              + g[i][(j - 1) % |g[i]|] + g[i][(j + 1) % |g[i]|] - 4.0 * g[i][j])
  {
  }

  /** One step of the stepper, cell by cell: each cell moves by `dt * D`
      times its four wrapped neighbours minus four times itself. */
  lemma EvolveAt(g: Grid, dt: real, D: real, i: nat, j: nat)
    requires Rectangular(g) && i < |g| && j < |g[i]|
    ensures Evolve(g, dt, D)[i][j]
         == g[i][j] + dt * D * (g[(i - 1) % |g|][j] + g[(i + 1) % |g|][j]
                              + g[i][(j - 1) % |g[i]|] + g[i][(j + 1) % |g[i]|] - 4.0 * g[i][j])
  {
    EvolveStep(g, dt, D, i, j);
    LaplacianAt(g, i, j);
    StencilStep(g, Evolve(g, dt, D), Laplacian(g), dt, D, i, j);
  }

  /** Any multiple of the Laplacian sums to zero. */
  lemma IncrementTotal(g: Grid, c: real)
    requires Rectangular(g)
    ensures Total(Scale(c, Laplacian(g))) == 0.0
  {
    LaplacianTotal(g);
    ScaleTotal(c, Laplacian(g));
  }

  /** One step conserves the grid's total quantity. */
  lemma EvolveConserves(g: Grid, dt: real, D: real)
    requires Rectangular(g)
    ensures Total(Evolve(g, dt, D)) == Total(g)
  {
    EvolveAsArrays(g, dt, D);
    IncrementTotal(g, dt * D);
    AddTotal(g, Scale(dt * D, Laplacian(g)));
  }

  /** With no diffusion (D = 0) or no time (dt = 0) a step changes nothing. */
  lemma EvolveWithoutDiffusion(g: Grid, dt: real, D: real)
    requires Rectangular(g)
    requires D == 0.0 || dt == 0.0
    ensures Evolve(g, dt, D) == g
  {
    var r := Evolve(g, dt, D);
    forall i | 0 <= i < |g|
      ensures r[i] == g[i]
    {
      forall j | 0 <= j < |g[i]|
        ensures r[i][j] == g[i][j]
      {
      }
    }
  }

  /** `n` steps, each applied to the result of the one before. */
  function Iterate(g: Grid, n: nat, dt: real, D: real): (r: Grid)
    requires Rectangular(g)
    ensures IsShape(r, |g|, Width(g))
  {
    if n == 0 then g else Evolve(Iterate(g, n - 1, dt, D), dt, D)
  }

  /** Unfolds one step of `Iterate`, with the shape of the grid it starts from. */
  lemma IterateStep(g: Grid, n: nat, dt: real, D: real)
    requires Rectangular(g) && n > 0
    ensures Rectangular(Iterate(g, n - 1, dt, D))
    ensures Iterate(g, n, dt, D) == Evolve(Iterate(g, n - 1, dt, D), dt, D)
  {
    ShapeIsRectangular(Iterate(g, n - 1, dt, D), |g|, Width(g));
  }

  /** The last of n steps keeps the total of the grid before it. */
  lemma LastStepConserves(g: Grid, n: nat, dt: real, D: real)
    requires Rectangular(g) && n > 0
    ensures Total(Iterate(g, n, dt, D)) == Total(Iterate(g, n - 1, dt, D))
  {
    IterateStep(g, n, dt, D);
    EvolveConserves(Iterate(g, n - 1, dt, D), dt, D);
  }

  /** Any number of steps conserves the total. */
  lemma {:induction false} IterateConserves(g: Grid, n: nat, dt: real, D: real)
    requires Rectangular(g)
    ensures Total(Iterate(g, n, dt, D)) == Total(g)
  {
    if n > 0 {
      LastStepConserves(g, n, dt, D);
      IterateConserves(g, n - 1, dt, D);
    }
  }

  /** Without diffusion any number of steps leaves the grid as it was. */
  lemma {:induction false} IterateWithoutDiffusion(g: Grid, n: nat, dt: real)
    requires Rectangular(g)
    ensures Iterate(g, n, dt, 0.0) == g
  {
    if n > 0 {
      IterateStep(g, n, dt, 0.0);
      IterateWithoutDiffusion(g, n - 1, dt);
      EvolveWithoutDiffusion(g, dt, 0.0);
    }
  }

  /** Writing `Seed` into the block slice of a zero grid gives the seeded
      initial condition, whether or not the columns reach the block. */
  lemma SeedBySlice(rows: nat, cols: nat)
    ensures AssignBlock(Zeros(rows, cols), BlockLow(rows), BlockHigh(rows), BlockLow(rows), BlockHigh(rows), Seed)
         == InitialGrid(rows, cols)
  {
    var lo, hi := BlockLow(rows), BlockHigh(rows);
    var seeded, init := AssignBlock(Zeros(rows, cols), lo, hi, lo, hi, Seed), InitialGrid(rows, cols);
    forall i | 0 <= i < rows
      ensures seeded[i] == init[i]
    {
      forall j | 0 <= j < cols
        ensures seeded[i][j] == init[i][j]
      {
      }
    }
  }

  /** `run_experiment` without its timing: zeros, the block slice set to
      `Seed`, then `num_iterations` steps with dt = 0.1 and D = 1. */
  method RunExperiment(rows: nat, cols: nat, numIterations: int) returns (grid: Grid)
    ensures grid == Iterate(InitialGrid(rows, cols), Iterations(numIterations), 0.1, 1.0)
  {
    grid := Zeros(rows, cols);
    var blockLow := BlockLow(rows);
    var blockHigh := BlockHigh(rows);
    grid := AssignBlock(grid, blockLow, blockHigh, blockLow, blockHigh, Seed);
    SeedBySlice(rows, cols);
    ShapeIsRectangular(grid, rows, cols);
    for i := 0 to Iterations(numIterations)
      invariant grid == Iterate(InitialGrid(rows, cols), i, 0.1, 1.0)
    {
      grid := Evolve(grid, 0.1, 1.0);
    }
  }
}
