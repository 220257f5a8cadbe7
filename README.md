# Toroidal diffusion stepper, two ways

A model of the two-dimensional heat-diffusion stepper of chapter 6. It
comes in two forms:

- `ch6/hpc_ch6.py` fills a fresh grid with nested loops, cell by cell.
- `ch6/hpc_ch6_numpy.py` computes the same step as one whole-array
  expression built from `numpy.roll`.

Both update every cell from its four axis neighbours. The neighbours wrap
around the edges, so the grid is a torus. Both `run_experiment` functions
seed a square block with `0.005` and apply `evolve` `num_iterations` times
with `dt = 0.1` and `D = 1`.

Cell values are exact `real`s. Under that abstraction the model proves:

- the cell formula of each version;
- that the two versions compute the same grid after every step;
- conservation of the grid's total;
- the identity when `D = 0` or `dt = 0`;
- toroidal wrap-around;
- that a uniform grid is an equilibrium;
- under the stability condition `0 <= D * dt <= 1/4`, that every cell stays
  within the bounds of the initial grid. The experiments meet this
  condition, so their cells stay between 0 and `0.005`.

Modules:

- `Grids` (`grids.dfy`) holds what both versions share:
  - the grid value `seq<seq<real>>`;
  - its total;
  - the iteration count of `range(n)`;
  - the block bounds `int(R * 0.4)` and `int(R * 0.5)`;
  - the seeded initial grid and its mass.
- `NdArray` (`ndarray.dfy`) holds the numpy operations the array version
  uses, each returning a new array value:
  - `zeros`;
  - `roll` along axis 0 or 1;
  - elementwise `+` and `-`;
  - multiplication by a scalar;
  - assignment of a scalar to a two-dimensional slice.
- `VectorDiffusion` (`vector_diffusion.dfy`) models `hpc_ch6_numpy.py`:
  - `laplacian` and `evolve` are functions;
  - `run_experiment` is a method.
- `LoopDiffusion` (`loop_diffusion.dfy`) models `hpc_ch6.py`:
  - the grid is an `array2<real>`;
  - `evolve` is a method whose loops fill a freshly allocated array. It has
    no `modifies` clause, so the input grid cannot be written and every
    read sees the values from before the step;
  - `run_experiment` seeds the block in place and then rebinds the grid in
    a counted loop;
  - both methods are proved against the functions `Step` and `Iterate`.
- `Agreement` (`agreement.dfy`) proves that the two versions agree, and
  carries each version's proved properties over to the other.

The global `grid_shape = (640, 640)` becomes the shape of the array
(`xmax` by `ymax`). Every grid the loop version builds has that shape, so
`evolve` reading its bounds from `grid_shape` is the same as reading them
from the array. `StandardExperimentMass` states the 640 by 640 instance.

Two details of the code shape the model:

- **Negative `num_iterations`.** `range(n)` with `n < 0` is empty, so the
  model runs zero steps (`Iterations`) and returns the seeded grid.
- **Block columns.** Both scripts compute both block ranges from the row
  count `grid_shape[0]` (ch6/hpc_ch6.py:45-46, ch6/hpc_ch6_numpy.py:35-36).
  The model does the same.
  - In the loop version, a block column past the last column would raise
    an IndexError. The loop methods therefore require that the block is
    empty or fits within the columns.
  - numpy slices stop at the edge, so `VectorDiffusion.RunExperiment`
    needs no such requirement.
  - For the square 640 by 640 grid the two readings coincide.

## Model

| member | source | states |
|---|---|---|
| Grids.BlockWithinRows | ch6/hpc_ch6.py:45-46 | `int(R*0.4) <= int(R*0.5) <= R`: the block rows exist |
| Grids.InitialMass | ch6/hpc_ch6.py:43-49 | the seeded grid holds `0.005` times the block's rows times the block columns inside the grid |
| NdArray.Roll | ch6/hpc_ch6_numpy.py:21-24 | `roll` keeps the array's shape |
| NdArray.RotateAsSlices | ch6/hpc_ch6_numpy.py:21-24 | a roll by `s` is the last `s mod n` elements followed by the rest |
| NdArray.RollAt | ch6/hpc_ch6_numpy.py:21-24 | `roll(g, s, 0)[i][j] == g[(i - s) mod R][j]` and `roll(g, s, 1)[i][j] == g[i][(j - s) mod C]` |
| NdArray.RollInverse | ch6/hpc_ch6_numpy.py:21-24 | rolling by `-s` undoes rolling by `s`, on either axis |
| NdArray.RollTotal | ch6/hpc_ch6_numpy.py:21-24 | a roll keeps the array's total |
| NdArray.AddTotal | ch6/hpc_ch6_numpy.py:21-25 | the total of `a + b` is the total of `a` plus the total of `b` |
| NdArray.SubTotal | ch6/hpc_ch6_numpy.py:24-25 | the total of `a - b` is the total of `a` minus the total of `b` |
| NdArray.ScaleTotal | ch6/hpc_ch6_numpy.py:25 | the total of `k * a` is `k` times the total of `a` |
| VectorDiffusion.Laplacian | ch6/hpc_ch6_numpy.py:19-26 | `laplacian` keeps the grid's shape |
| VectorDiffusion.LaplacianAt | ch6/hpc_ch6_numpy.py:19-26 | each cell of `laplacian(grid)` is its four wrapped axis neighbours minus four times the cell |
| VectorDiffusion.NeighbourSumTotal | ch6/hpc_ch6_numpy.py:21-24 | the four rolls together hold four times the grid's total |
| VectorDiffusion.LaplacianTotal | ch6/hpc_ch6_numpy.py:19-26 | the Laplacian of any grid sums to zero |
| VectorDiffusion.Evolve | ch6/hpc_ch6_numpy.py:28-29 | `evolve` keeps the grid's shape |
| VectorDiffusion.EvolveAsArrays | ch6/hpc_ch6_numpy.py:28-29 | the step is the array `grid + dt*D*laplacian(grid)` |
| VectorDiffusion.EvolveAt | ch6/hpc_ch6_numpy.py:28-29 | each new cell is the old cell plus `dt*D` times its four wrapped neighbours minus four times the cell |
| VectorDiffusion.IncrementTotal | ch6/hpc_ch6_numpy.py:29 | any multiple of the Laplacian sums to zero |
| VectorDiffusion.EvolveConserves | ch6/hpc_ch6_numpy.py:28-29 | one step keeps the grid's total |
| VectorDiffusion.EvolveWithoutDiffusion | ch6/hpc_ch6_numpy.py:29 | with `D = 0` or `dt = 0` a step returns its input |
| VectorDiffusion.IterateConserves | ch6/hpc_ch6_numpy.py:40-41 | any number of steps keeps the total |
| VectorDiffusion.IterateWithoutDiffusion | ch6/hpc_ch6_numpy.py:40-41 | with `D = 0` any number of steps leaves the grid unchanged |
| VectorDiffusion.SeedBySlice | ch6/hpc_ch6_numpy.py:33-37 | `zeros((R, C))` followed by the slice assignment `grid[block_low:block_high, block_low:block_high] = 0.005` (a slice stops at the array's edge) gives the seeded grid: `0.005` exactly on the block clipped to the grid, 0 elsewhere |
| VectorDiffusion.RunExperiment | ch6/hpc_ch6_numpy.py:31-42 | the final grid is the seeded grid stepped `num_iterations` times with `dt = 0.1`, `D = 1`; a negative count runs no step, as `range` does |
| LoopDiffusion.Matrix | ch6/hpc_ch6.py:29 | the array's cells, read as a grid of its shape |
| LoopDiffusion.Step | ch6/hpc_ch6.py:30-38 | the grid `evolve` returns has the input's shape |
| LoopDiffusion.Evolve | ch6/hpc_ch6.py:27-39 | returns a fresh array of the input's shape in which every cell is `grid[i][j] + D*(grid_xx + grid_yy)*dt`, with neighbours taken mod `xmax` and `ymax` |
| LoopDiffusion.EvolveRow | ch6/hpc_ch6.py:31-38 | the inner loop sets every cell of row `i` to its new value and leaves the other rows alone |
| LoopDiffusion.CellFromArray | ch6/hpc_ch6.py:32-38 | the loop body's value for cell (i, j) is the cell formula on the array's grid |
| LoopDiffusion.SeedBlock | ch6/hpc_ch6.py:45-49 | the seeding loops turn the zero array into the seeded grid |
| LoopDiffusion.RunExperiment | ch6/hpc_ch6.py:41-54 | the final array holds the seeded grid stepped `num_iterations` times with `dt = 0.1`, `D = 1`; a negative count runs no step, as `range` does |
| LoopDiffusion.WrapNeighbours | ch6/hpc_ch6.py:33-36 | `(k + 1) % n` is `k + 1`, or 0 after the last index; `(k - 1) % n` is `k - 1`, or `n - 1` before 0 |
| LoopDiffusion.CellByCases | ch6/hpc_ch6.py:32-38 | the cell formula with explicit wrapped neighbours instead of `%` |
| LoopDiffusion.StepWithoutDiffusion | ch6/hpc_ch6.py:38 | with `D = 0` or `dt = 0` `evolve` returns a copy of its input |
| LoopDiffusion.UniformIsFixed | ch6/hpc_ch6.py:32-38 | a grid holding one value everywhere is left unchanged |
| LoopDiffusion.UniformCell | ch6/hpc_ch6.py:32-38 | in a grid holding `v` everywhere, `grid_xx` and `grid_yy` are 0 and the new cell is `v` |
| LoopDiffusion.AverageBounded | ch6/hpc_ch6.py:38 | for `0 <= c <= 1/4`, a cell's update is a non-negative weighted average of itself and its neighbours |
| LoopDiffusion.CellBounded | ch6/hpc_ch6.py:32-38 | under `0 <= D*dt <= 1/4` each new cell lies within the bounds of the old grid |
| LoopDiffusion.StepBounded | ch6/hpc_ch6.py:27-39 | under `0 <= D*dt <= 1/4` a step keeps every cell within the grid's bounds |
| LoopDiffusion.LastStepBounded | ch6/hpc_ch6.py:52-53 | under `0 <= D*dt <= 1/4` the last of n steps keeps the bounds of the grid before it |
| LoopDiffusion.IterateBounded | ch6/hpc_ch6.py:52-53 | the same over any number of steps |
| LoopDiffusion.WrapAroundExample | ch6/hpc_ch6.py:32-38 | on a 3 by 3 grid with 1 in the corner, one step gives `D*dt` to (1, 0), (2, 0), (0, 1) and (0, 2), keeps `1 - 4*D*dt` at (0, 0) and leaves 0 elsewhere |
| Agreement.SameUpdate | ch6/hpc_ch6.py:32-38 | the loop's `v + D*(xx + yy)*dt` equals the array version's `v + dt*D*(four neighbours - 4v)` |
| Agreement.CellAgrees | ch6/hpc_ch6_numpy.py:28-29 | cell (i, j) of the two versions' new grids is equal |
| Agreement.StepAgrees | ch6/hpc_ch6_numpy.py:28-29 | for any rectangular grid, `dt` and `D`, the two `evolve`s return the same grid |
| Agreement.IterateAgrees | ch6/hpc_ch6.py:52-53 | the two versions agree after any number of steps |
| Agreement.StepConserves | ch6/hpc_ch6.py:27-39 | the loop version's step keeps the grid's total |
| Agreement.LoopIterateConserves | ch6/hpc_ch6.py:52-53 | the loop version keeps the total over any number of steps |
| Agreement.LoopIterateWithoutDiffusion | ch6/hpc_ch6.py:52-53 | with `D = 0` any number of loop steps leaves the grid unchanged |
| Agreement.VectorIterateBounded | ch6/hpc_ch6_numpy.py:40-41 | under `0 <= D*dt <= 1/4` the array version keeps every cell within the initial bounds |
| Agreement.ExperimentInvariants | ch6/hpc_ch6.py:41-54 | after any number of iterations both experiments hold the same grid, its cells stay in `[0, 0.005]`, and its total is the seeded mass |
| Agreement.StandardBlock | ch6/hpc_ch6.py:45-46 | for 640 rows the block is rows and columns 256 to 319, holding 20.48 |
| Agreement.StandardExperimentMass | ch6/hpc_ch6.py:24-54 | on the 640 by 640 grid both experiments hold 20.48 in total after any number of iterations |

## Left out

- LoopDiffusion.SeedBlock: requires that the block `[int(R*0.4), int(R*0.5))`
  is empty or ends within the columns. Both ranges come from the row count,
  so on a grid with fewer columns than `int(R*0.5)` the Python loop raises
  an IndexError part-way through seeding; that error path is not modelled.
- LoopDiffusion.RunExperiment: carries the same requires as `SeedBlock`,
  for the same IndexError, which it does not model either.

- Wall-clock timing. The `time.time()` calls and the returned elapsed time
  are left out, and so are the `@profile` decorator, `cProfile` and the
  `print` calls of the `__main__` blocks. Both `RunExperiment` methods
  return the final grid instead of the elapsed time.
- IEEE-754 rounding. Cells are exact reals. In floating point the two
  versions round differently, because they add and multiply in different
  orders. Conservation and agreement then hold only up to rounding.
- Block bounds. `int(R * 0.4)` is modelled as `floor(2R/5)` and
  `int(R * 0.5)` as `floor(R/2)`. The double nearest 0.4 is slightly above
  2/5, so the product never rounds below an integer it should reach.
- The default `D` (1.0 in one script, the integer 1 in the other) becomes
  an explicit parameter. The experiments pass 1.
- The loop version's grid is a Python list of lists. It is modelled as an
  `array2<real>`, which is always rectangular. Ragged lists and rows
  shared between lists are not modelled.
- numpy arrays are modelled as values. Each numpy operation returns a new
  array, and the slice assignment in `run_experiment` is modelled as
  building the updated array. In-place update of the numpy buffer is not
  modelled.
- The rest of the repository is not part of this model: the Julia-set
  scripts, the Monte-Carlo estimator of pi and the HTTP demo. These are
  floating-point rendering, randomness with process pools, and network
  I/O.
