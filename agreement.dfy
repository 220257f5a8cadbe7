/** The two steppers compute the same field: the explicit loops of
    `hpc_ch6.py` and the whole-array expression of `hpc_ch6_numpy.py` give
    equal grids after every step (on exact reals), so what is proved about
    one holds for the other. */
module Agreement {
  import opened Grids
  import Loop = LoopDiffusion
  import Vector = VectorDiffusion

  /** The two ways of writing one cell's update are equal: the loop adds
      the two second differences and multiplies by `D` then `dt`, the
      array version adds the four neighbours, takes four times the cell
      and multiplies by `dt * D`. */
  lemma SameUpdate(v: real, up: real, down: real, left: real, right: real, dt: real, D: real)
    ensures v + D * ((down + up - 2.0 * v) + (right + left - 2.0 * v)) * dt
         == v + dt * D * (up + down + left + right - 4.0 * v)
  {
    var lap := up + down + left + right - 4.0 * v;
    assert (down + up - 2.0 * v) + (right + left - 2.0 * v) == lap;
    assert D * lap * dt == dt * D * lap;
  }

  /** Cell (i, j) of the loop version's new grid equals cell (i, j) of the
      array version's. */
  lemma CellAgrees(g: Grid, i: nat, j: nat, dt: real, D: real)
    requires Rectangular(g) && i < |g| && j < |g[i]|
    ensures Loop.Step(g, dt, D)[i][j] == Vector.Evolve(g, dt, D)[i][j]
  {
    var rows, cols := |g|, |g[i]|;
    assert Width(g) == cols;
    Vector.EvolveAt(g, dt, D, i, j);
    SameUpdate(g[i][j], g[(i - 1) % rows][j], g[(i + 1) % rows][j],
               g[i][(j - 1) % cols], g[i][(j + 1) % cols], dt, D);
  }

  /** One call of either `evolve` gives the same grid. */
  lemma StepAgrees(g: Grid, dt: real, D: real)
    requires Rectangular(g)
    ensures Loop.Step(g, dt, D) == Vector.Evolve(g, dt, D)
  {
    var l, v := Loop.Step(g, dt, D), Vector.Evolve(g, dt, D);
    forall i | 0 <= i < |g|
      ensures l[i] == v[i]
    {
      forall j | 0 <= j < |g[i]|
        ensures l[i][j] == v[i][j]
      {
        CellAgrees(g, i, j, dt, D);
      }
    }
  }

  /** Any number of calls of either `evolve` gives the same grid. */
  lemma {:induction false} IterateAgrees(g: Grid, n: nat, dt: real, D: real)
    requires Rectangular(g)
    ensures Loop.Iterate(g, n, dt, D) == Vector.Iterate(g, n, dt, D)
    decreases n
  {
    if n > 0 {
      var prev := Loop.Iterate(g, n - 1, dt, D);
      IterateAgrees(g, n - 1, dt, D);
      ShapeIsRectangular(prev, |g|, Width(g));
      StepAgrees(prev, dt, D);
    }
  }

  /** The loop version's step conserves the total, as the array version's does. */
  lemma StepConserves(g: Grid, dt: real, D: real)
    requires Rectangular(g)
    ensures Total(Loop.Step(g, dt, D)) == Total(g)
  {
    StepAgrees(g, dt, D);
    Vector.EvolveConserves(g, dt, D);
  }

  /** The loop version conserves the total over any number of steps. */
  lemma LoopIterateConserves(g: Grid, n: nat, dt: real, D: real)
    requires Rectangular(g)
    ensures Total(Loop.Iterate(g, n, dt, D)) == Total(g)
  {
    IterateAgrees(g, n, dt, D);
    Vector.IterateConserves(g, n, dt, D);
  }

  /** Without diffusion any number of loop steps leaves the grid as it was. */
  lemma LoopIterateWithoutDiffusion(g: Grid, n: nat, dt: real)
    requires Rectangular(g)
    ensures Loop.Iterate(g, n, dt, 0.0) == g
  {
    IterateAgrees(g, n, dt, 0.0);
    Vector.IterateWithoutDiffusion(g, n, dt);
  }

  /** The array version keeps every cell within the initial bounds under
      the stability condition, as the loop version does. */
  lemma VectorIterateBounded(g: Grid, n: nat, dt: real, D: real, lo: real, hi: real)
    requires Rectangular(g) && Loop.Bounded(g, lo, hi)
    requires 0.0 <= D * dt <= 0.25
    ensures Loop.Bounded(Vector.Iterate(g, n, dt, D), lo, hi)
  {
    IterateAgrees(g, n, dt, D);
    Loop.IterateBounded(g, n, dt, D, lo, hi);
  }

  /** The seeded grid holds `Seed` or zero in every cell. */
  lemma InitialBounded(rows: nat, cols: nat)
    ensures Loop.Bounded(InitialGrid(rows, cols), 0.0, Seed)
  {
  }

  /** In both experiments (dt = 0.1, D = 1, which meets the stability
      condition) every cell stays between 0 and `Seed` and the total stays
      the seeded mass, after any number of iterations. */
  lemma ExperimentInvariants(rows: nat, cols: nat, numIterations: int)
    ensures var g := Loop.Iterate(InitialGrid(rows, cols), Iterations(numIterations), 0.1, 1.0);
            g == Vector.Iterate(InitialGrid(rows, cols), Iterations(numIterations), 0.1, 1.0)
            && Loop.Bounded(g, 0.0, Seed)
            && Total(g) == Seed * (BlockHigh(rows) - BlockLow(rows)) as real
                                * Overlap(cols, BlockLow(rows), BlockHigh(rows)) as real
  {
    var init, n := InitialGrid(rows, cols), Iterations(numIterations);
    ShapeIsRectangular(init, rows, cols);
    IterateAgrees(init, n, 0.1, 1.0);
    InitialBounded(rows, cols);
    Loop.IterateBounded(init, n, 0.1, 1.0, 0.0, Seed);
    LoopIterateConserves(init, n, 0.1, 1.0);
    InitialMass(rows, cols);
  }

  /** The 640 by 640 grid of both scripts seeds rows and columns 256 to 319,
      a block of 64 by 64 cells holding 20.48 in total, and every step keeps it. */
  lemma StandardExperimentMass(numIterations: int)
    ensures Total(Loop.Iterate(InitialGrid(640, 640), Iterations(numIterations), 0.1, 1.0)) == 20.48
    ensures Total(Vector.Iterate(InitialGrid(640, 640), Iterations(numIterations), 0.1, 1.0)) == 20.48
  {
    StandardBlock();
    ExperimentInvariants(640, 640, numIterations);
  }

  /** `int(640 * 0.4)` is 256 and `int(640 * 0.5)` is 320: 64 by 64 seeded cells. */
  lemma StandardBlock()
    ensures BlockLow(640) == 256 && BlockHigh(640) == 320
    ensures Seed * (BlockHigh(640) - BlockLow(640)) as real * Overlap(640, BlockLow(640), BlockHigh(640)) as real == 20.48
  {
    assert Overlap(640, 256, 320) == 64;
  }
}
