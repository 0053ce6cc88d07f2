# A Dafny model of the fluid_3d.py smoke solver

`fluid_3d.py` advances a velocity field and a smoke-density field on an
`n x n x n` grid (`n = 128`). Each step (fluid_3d.py:173-181) runs in this order:

1. It adds density in a source block.
2. It advects the velocity by itself with MacCormack advection (RK3 backtracing, trilinear sampling with a domain clamp), clips it with `mc_clipping_v`, and writes it back with `update`.
3. It projects the velocity: 20 relaxation sweeps of a Poisson solve for a pressure, whose gradient is subtracted from the velocity. This is meant to make the velocity divergence-free, but its neighbour reads do not reach the adjacent cells (see "Findings").
4. It advects the density with MacCormack advection along the projected velocity, clips it with `mc_clipping_dens`, and writes it back with `update`.

This project models that core over exact real arithmetic. Fields are total
Dafny functions `Idx -> real` and `Idx -> Vec3`. Every operation is a pure
function. Off the grid a pass returns a fixed filler value: the field it
reads or writes, or `0` for the divergence. Those cells do not exist in the
source. There is one exception: for `n < 40`, `Source.AddSourceDens` also adds to
the cells of the source block that lie off the grid (`Source.SourceInGrid`
states when the block fits).

Modules, in dependency order:

- `Vectors` holds 3-vectors of reals and of integer indices.
- `Grid` holds grid size, cells, fields, stencil bases and bounds-checked reads.
- `Sampler` holds `clamp`, `sample` and `sample_trilinear`: interpolation weights, convexity, and a separable reference definition.
- `Neighbourhood` holds `sample_min_dens`, `sample_max_dens`, `sample_min_v` and `sample_max_v`.
- `Advection` holds `backtrace` (RK3 with weights 2/9, 1/3, 4/9), `semi_lagrangian`, `maccormack` and `update`.
- `Clipping` holds `mc_clipping_dens`, `mc_clipping_v`, and the advection passes of the step as they compose.
- `Projection` holds the neighbour reads of `lin_solve` and `project`, the relaxation sweeps, the divergence and the gradient correction.
- `Source` holds the density loop of `add_source`.

The neighbour reads of `lin_solve` and `project` are modelled exactly as
written. Two rules are available:

- `Projection.Rule.AsWritten` follows the source text.
- `Projection.Rule.Centred` is the corrected rule: it samples at the centre of the adjacent cell.

The solver functions take a `Table` of reads. `Reads(rule, n)` builds the
table for either rule, and the lemmas about the solver hold for any table
whose reads land on the grid. `lin_solve` and `project` read neighbours
through `sample`, which does not return the integer neighbours (see
"Findings"); the model follows the code.

A Jacobi sweep normally reads the previous sweep only, while
`lin_solve` (fluid_3d.py:139-143) updates `x` in place inside a parallel
loop, so its result depends on the order in which cells run. The model uses
Jacobi sweeps; see "Left out".

## Model

| member | source | states |
|---|---|---|
| Sampler.Dx | fluid_3d.py:13 | the cell width `dx` times `n` is exactly 1, and `dx` is positive and at most one half |
| Sampler.ClampAxis | fluid_3d.py:25-29 | the clamped coordinate lies in `[stagger*dx, 1 - 1e-4 - dx + stagger*dx]`, equals the input when the input is in that range, and equals the nearer end otherwise |
| Sampler.Clamp | fluid_3d.py:25-29 | every component of the clamped position is in range, and in-range components are unchanged |
| Sampler.ClampIdempotent | fluid_3d.py:25-29 | clamping twice is clamping once |
| Sampler.LoBelowHi | fluid_3d.py:28 | the clamp range is non-empty for every grid size, and its ends scale to `0.5` and `n - 1e-4*n - 0.5` grid units |
| Sampler.GridCoordRange | fluid_3d.py:20-21 | the grid coordinate `clamp(p) * n - stagger` of any position lies in `[0, n-1)` |
| Sampler.CellOf | fluid_3d.py:18-23 | the floored grid coordinate of a clamped position lies in `[0, n-2]` |
| Sampler.FracOf | fluid_3d.py:35-38 | the fractional offset `f = p_grid - I` lies in `[0, 1)` |
| Sampler.Sample | fluid_3d.py:18-23 | `sample` returns a stencil base, so all eight corners `I + (i,j,k)` are grid cells |
| Sampler.SampleOfClamped | fluid_3d.py:18-23 | sampling a clamped position gives the same cell and fraction as sampling the position itself |
| Sampler.WeightsSumToOne | fluid_3d.py:41-42 | the eight trilinear weights sum to 1 |
| Sampler.WeightNonNegative | fluid_3d.py:42 | each trilinear weight is non-negative for fractions in the unit cube |
| Sampler.TrilinearBetween | fluid_3d.py:31-44 | the weighted sum lies between any bounds of the eight corner values |
| Sampler.TrilinearConvex | fluid_3d.py:31-44 | a trilinear sample lies between any bounds of its stencil values |
| Sampler.TrilinearConstant | fluid_3d.py:31-44 | sampling a constant field gives the constant at every position |
| Sampler.TrilinearSaturates | fluid_3d.py:31-44 | sampling outside the clamp box gives the same value as sampling at the clamped position |
| Sampler.TrilinearSeparable | fluid_3d.py:31-44 | the accumulation in `ndrange(2, 2, 2)` order equals the nested-lerp reference definition of trilinear interpolation |
| Sampler.TrilinearVComponent | fluid_3d.py:31-44 | each component of a vector sample is the scalar sample of that component field |
| Sampler.SampleTrilinear | fluid_3d.py:31-44 | `sample_trilinear` of a density field at any position equals the nested-lerp reference interpolation at the sampled cell and fraction |
| Sampler.SampleTrilinearV | fluid_3d.py:31-44 | each component of `sample_trilinear` on the velocity field is the density sample of that component field |
| Vectors.Min | fluid_3d.py:76-77 | one step of the minimum loop is at most both its inputs and equals one of them |
| Vectors.Max | fluid_3d.py:85-86 | one step of the maximum loop is at least both its inputs and equals one of them |
| Neighbourhood.StencilMin | fluid_3d.py:71-78 | the minimum loop's result is at most the value at every corner `I + (i,j,k)` of the stencil |
| Neighbourhood.StencilMinAttained | fluid_3d.py:71-78 | the minimum loop's result is the value of some stencil corner |
| Neighbourhood.StencilMax | fluid_3d.py:80-87 | the maximum loop's result is at least the value at every corner of the stencil |
| Neighbourhood.StencilMaxAttained | fluid_3d.py:80-87 | the maximum loop's result is the value of some stencil corner |
| Neighbourhood.SampleMinDens | fluid_3d.py:71-78 | `sample_min_dens` bounds every corner of the stencil from below and is attained by one |
| Neighbourhood.SampleMaxDens | fluid_3d.py:80-87 | `sample_max_dens` bounds every corner from above and is attained by one |
| Neighbourhood.SampleMinV | fluid_3d.py:89-97 | each component of `sample_min_v` is the minimum of that component over the stencil; different components may come from different corners |
| Neighbourhood.SampleMaxV | fluid_3d.py:99-107 | each component of `sample_max_v` is the maximum of that component over the stencil |
| Neighbourhood.TrilinearWithinNeighbourhood | fluid_3d.py:71-87 | a density sample lies between the stencil minimum and maximum at the same position |
| Neighbourhood.TrilinearVWithinNeighbourhood | fluid_3d.py:89-107 | each component of a velocity sample lies between that component's stencil minimum and maximum |
| Advection.Rk3Velocity | fluid_3d.py:49-55 | the RK3 velocity (2/9, 1/3, 4/9 blend of the velocities at three sampled cells) lies in every box that holds all grid velocities |
| Advection.Rk3VelocityUniform | fluid_3d.py:47-56 | in a uniform flow the RK3 velocity is that flow |
| Advection.Backtrace | fluid_3d.py:47-56 | in any uniform flow `u` the backtrace of cell `I` is its centre `(I + 0.5) * dx` minus `dt * u` |
| Advection.BacktraceAtRest | fluid_3d.py:47-56 | with zero velocity the backtrace is the cell centre `(I + 0.5) * dx` |
| Advection.CentreInRange | fluid_3d.py:25-29 | the clamp leaves the centre of every cell with index up to `n-2` where it is |
| Advection.CentreSample | fluid_3d.py:49-50 | `sample` of a cell centre returns that cell, for every stencil-base cell |
| Advection.CentreFrac | fluid_3d.py:35-38 | the fractional offset at a cell centre is zero, for every cell with index up to `n-2` on each axis |
| Advection.SemiLagrangian | fluid_3d.py:58-61 | semi-Lagrangian advection keeps every grid cell within any bounds that held the old field |
| Advection.SemiLagrangianConstant | fluid_3d.py:58-61 | semi-Lagrangian advection leaves a constant field constant |
| Advection.SemiLagrangianStill | fluid_3d.py:58-61 | a cell whose backtrace is its own centre keeps its value, for `I <= n-2` on each axis |
| Advection.SemiLagrangianAtRest | fluid_3d.py:58-61 | with zero velocity, cells with `I <= n-2` on each axis keep their value |
| Advection.SemiLagrangianV | fluid_3d.py:58-61 | vector semi-Lagrangian advection keeps every grid cell in any component-wise box that held the old velocity |
| Advection.MacCormack | fluid_3d.py:63-69 | MacCormack advection (a forward pass, a backward pass with `-dt`, and the correction) leaves a constant field constant |
| Advection.Correct | fluid_3d.py:68-69 | the correction `new + 0.5 * (x - aux)` returns the forward value at every cell where the backward pass reproduced `x` |
| Advection.MacCormackV | fluid_3d.py:63-69 | MacCormack advection of the velocity by itself leaves a uniform flow unchanged |
| Advection.CorrectV | fluid_3d.py:68-69 | the vector correction returns the forward value where the backward pass reproduced `v`, and keeps a flow uniform when all three inputs are that flow |
| Advection.UniformBoxed | fluid_3d.py:63-69 | a velocity field is uniform `u` exactly when it lies in the degenerate box `[u, u]` |
| Advection.MacCormackStill | fluid_3d.py:63-69 | a cell whose forward and backward backtraces are its own centre keeps its value |
| Advection.MacCormackAtRest | fluid_3d.py:63-69 | with zero velocity MacCormack advection preserves density at every cell with `I <= n-2` on each axis |
| Advection.MacCormackVAtRest | fluid_3d.py:63-69 | with zero velocity MacCormack advection of the velocity keeps every grid cell as it was |
| Advection.Update | fluid_3d.py:129-132 | `update` copies the new field on every grid cell |
| Clipping.ClipDens | fluid_3d.py:119-127 | the clipped density lies in `[min, max]` of the stencil at the backtrace, keeps the corrected value when it is in range, and otherwise falls back to the trilinear sample |
| Clipping.MCClippingDens | fluid_3d.py:119-127 | every grid cell of the result lies between `sample_min_dens` and `sample_max_dens` at its departure point, and a corrected value already in that range is kept |
| Clipping.OutsideIffAny | fluid_3d.py:116 | `any(new < min) or any(new > max)` holds exactly when the vector is outside the component-wise box |
| Clipping.ClipV | fluid_3d.py:109-117 | the clipped velocity lies in the component-wise box; a vector inside the box is kept, and one with any component outside is replaced whole by the trilinear sample |
| Clipping.MCClippingV | fluid_3d.py:109-117 | every grid cell of the result lies in the box from `sample_min_v` to `sample_max_v` at its departure point, and a corrected vector inside that box is kept |
| Clipping.ClipDensBounded | fluid_3d.py:119-127 | a clipped density stays within any bounds of the original field |
| Clipping.MCClippingDensBounded | fluid_3d.py:119-127 | after `mc_clipping_dens` every grid cell lies within any bounds of the original density, whatever the corrected field held |
| Clipping.StencilBounded | fluid_3d.py:71-87 | the stencil minimum and maximum of a field lie in any range holding the whole field |
| Clipping.StencilVWithin | fluid_3d.py:89-107 | the component-wise stencil minimum and maximum lie in any box holding every velocity |
| Clipping.ClipVWithin | fluid_3d.py:109-117 | a clipped velocity stays in any box holding the original velocity field |
| Clipping.MCClippingVWithin | fluid_3d.py:109-117 | after `mc_clipping_v` every grid cell lies in any box holding the original velocity |
| Clipping.MCClippingDensField | fluid_3d.py:119-127 | after `mc_clipping_dens` the whole density field lies within any bounds of the original density |
| Clipping.MCClippingVField | fluid_3d.py:109-117 | after `mc_clipping_v` the whole velocity field lies in any box holding the original velocity |
| Clipping.AdvectDens | fluid_3d.py:179-181 | MacCormack, `mc_clipping_dens` and `update` together keep every density cell within any bounds of the old density |
| Clipping.AdvectV | fluid_3d.py:175-177 | the velocity passes keep every cell in any component-wise box holding the old velocity |
| Clipping.StillWithinStencil | fluid_3d.py:119-127 | a cell whose backtrace is its centre lies within its own stencil's min and max |
| Clipping.ClippingStill | fluid_3d.py:119-127 | at a cell whose departure point is its own centre, a corrected value equal to the old one passes clipping unchanged |
| Clipping.AdvectDensStill | fluid_3d.py:179-181 | a cell whose forward and backward backtraces are its centre keeps its density through the whole advection |
| Clipping.AdvectDensAtRest | fluid_3d.py:179-181 | with zero velocity the advection passes preserve density at every cell with `I <= n-2` on each axis |
| Clipping.AdvectVAtRest | fluid_3d.py:175-177 | with zero velocity the velocity advection passes keep every grid cell as it was |
| Projection.ClipIndex | fluid_3d.py:18-23 | an index forced into `[0, n-2]`, unchanged when already there |
| Projection.CellOfFace | fluid_3d.py:141 | sampling the face coordinate `c * dx` gives cell `c - 1`, clipped (the half-cell stagger) |
| Projection.CellOfUnscaled | fluid_3d.py:141-143 | an unscaled index coordinate samples to `0` if it is at most `0`, and to `n-2` otherwise |
| Projection.CellOfCentre | fluid_3d.py:49-50 | sampling the centre of cell `c` gives `c`, clipped |
| Projection.Clipped | fluid_3d.py:18-23 | every component forced into the stencil-base range, unchanged for a stencil base |
| Projection.UpperRead | fluid_3d.py:141-143 | the upper-neighbour read is a grid cell under either rule |
| Projection.LowerRead | fluid_3d.py:141-143 | the lower-neighbour read is a grid cell under either rule |
| Projection.UpperAsWritten | fluid_3d.py:141-143 | as written, the upper read along axis `d` is `I + e_d - (1, 1, 1)`, clipped: one cell too low on every axis |
| Projection.LowerAsWritten | fluid_3d.py:141-143 | as written, the lower read is `0` or `n-2` on each axis, depending only on whether that index component is positive |
| Projection.CentredNeighbour | fluid_3d.py:141-143 | the centred rule reads `I +- e_d`, clipped |
| Projection.CentredInterior | fluid_3d.py:141-143 | away from the boundary layers, the centred rule reads exactly the two adjacent cells |
| Projection.NeighbourCounterexample | fluid_3d.py:141-143 | at `n = 128`, cell `(5, 5, 5)`, axis 0: as written the reads are `(5, 4, 4)` and `(126, 126, 126)`; the adjacent cells are `(6, 5, 5)` and `(4, 5, 5)` |
| Projection.ReadsOnGrid | fluid_3d.py:141-158 | both rules read only grid cells, for every index |
| Projection.Sweep | fluid_3d.py:139-143 | with a zero right-hand side and on-grid reads, a field constant on the grid is a fixed point of one relaxation sweep |
| Projection.LinSolve | fluid_3d.py:138-143 | the same for any number of sweeps |
| Projection.RelaxBetween | fluid_3d.py:141-143 | with a zero right-hand side, the update of one cell lies in any range that holds the field on the grid |
| Projection.SweepBounded | fluid_3d.py:139-143 | with a zero right-hand side, one sweep keeps every grid cell within any bounds of the field before it (maximum principle) |
| Projection.LinSolveBounded | fluid_3d.py:138-143 | the maximum principle for any number of sweeps, by induction on the count |
| Projection.Divergence | fluid_3d.py:147-150 | a grid cell whose two reads along every axis hold the same velocity has zero divergence |
| Projection.DivergenceUniform | fluid_3d.py:147-150 | a uniform flow has zero divergence at every cell |
| Projection.Pressure | fluid_3d.py:151-153 | with on-grid reads, a uniform flow gives a zero pressure on every grid cell after the 20 sweeps from `p = 0` |
| Projection.PressureGradient | fluid_3d.py:155-158 | the correction along axis `d` is zero exactly when the pressures at the two reads along `d` are equal |
| Projection.GradientConstant | fluid_3d.py:155-158 | a constant pressure has zero gradient correction |
| Projection.Project | fluid_3d.py:145-158 | with on-grid reads, projection leaves a uniform flow unchanged |
| Projection.ProjectUniformRule | fluid_3d.py:145-158 | projection leaves a uniform flow unchanged, under either rule |
| Projection.DivergenceLinear | fluid_3d.py:147-150 | where the axis-0 reads are the adjacent cells, the divergence of the flow `(s*i, 0, 0)` is `-s/n` |
| Projection.DivergenceOfReads | fluid_3d.py:147-150 | the divergence of `(i, 0, 0)` is set by the distance between the two cells read on axis 0 |
| Projection.DivergenceCentredLinear | fluid_3d.py:147-150 | under the centred rule, the interior divergence of `(s*i, 0, 0)` is `-s/n` |
| Projection.DivergenceCounterexample | fluid_3d.py:147-150 | at `n = 128`, cell `(5, 5, 5)`, the divergence of `(i, 0, 0)` is `121/256` as written, against `-1/128` under the centred rule |
| Source.InSourceIffVisited | fluid_3d.py:162-163 | a cell lies in the source box exactly when some iteration of the `ndrange(20, 20, 20)` loop writes it |
| Source.SourceCellInjective | fluid_3d.py:162-163 | distinct loop iterations write distinct cells, so each source cell gains exactly one increment |
| Source.SourceInGrid | fluid_3d.py:162-163 | every write of the loop is on the grid exactly when `n >= 40` |
| Source.SourceAtN | fluid_3d.py:162-163 | at `n = 128` the block starts at `(54, 20, 54)` and lies on the grid |
| Source.AddSourceDens | fluid_3d.py:160-163 | every cell the loop visits gains `100 * dt`, and every other cell keeps its density |
| Source.AddSourceMonotone | fluid_3d.py:160-163 | for `dt > 0` no density decreases, and a cell increases exactly when the loop visits it |
| Source.AddSourceAdditive | fluid_3d.py:160-163 | composition law: two source steps add the same as one step with the summed time step |

## Left out

- Floating point: all arithmetic is over exact reals. The model ignores the rounding of `p * n - stagger`, `floor` and the 32-bit cast, except that the cast of a clamped position is exact.
- Taichi field allocation, kernel launch and parallel scheduling are not modelled. Each pass is a function of the fields it reads.
- Projection.Sweep: models a sweep as a Jacobi sweep that reads the field before the sweep. The source writes `x` in place inside a parallel loop, so its result depends on scheduling; that race is not modelled. The maximum principle (`Projection.LinSolveBounded`) holds for any update order, because each new value averages six values that already lie within the bounds.
- Projection.RelaxAt: fixes `a = 1` and `c = 6`, as the only call (fluid_3d.py:153) does. The general `lin_solve(x, x0, a, c)` is not modelled.
- The model does not prove convergence of the 20 sweeps or how far they leave the Poisson residual. It does not prove that projection reduces divergence. With the neighbour reads as written (see "Findings"), the source's projection does not approximate a divergence-free field at all; `Projection.DivergenceCounterexample` gives a flow where its divergence has the wrong sign.
- The model does not prove RK3 accuracy of `backtrace`. It does prove its exact behaviour in uniform flows and at rest.
- The exact centre and neighbour lemmas require `n <= 10000`. Beyond that, the clamp margin `1e-4` exceeds one cell width. The solver's `n = 128` is covered.
- Random velocity forcing in `add_source` (fluid_3d.py:164-166): it uses `ti.random()`, so it is not modelled.
- `dens_reset` (fluid_3d.py:168-171) is not modelled. It is a plain reset outside the step.
- The `step` driver (fluid_3d.py:173-181) is not modelled as one function. Its velocity passes and its density passes are modelled as `Clipping.AdvectV` and `Clipping.AdvectDens`, and `Projection.Project` models `project(v)`.

## Findings

| source | as written | input that shows it | evidently intended | confidence | as-written member | corrected member |
|---|---|---|---|---|---|---|
| fluid_3d.py:141-158 | The neighbour reads of `lin_solve` and `project` are `sample((I + e) * dx)` and `sample(I + e * dx)`. The first lands on the lower face of the neighbour, which the half-cell stagger maps to `I + e - (1, 1, 1)`. The second never divides `I` by `n`, so every positive component clamps to `n - 2`. | `n = 128`, cell `(5, 5, 5)`, axis 0: the reads are `(5, 4, 4)` and `(126, 126, 126)`. The divergence of the flow `(i, 0, 0)` there comes out as `121/256` instead of `-1/128`. | Read the adjacent cells `I + e` and `I - e` (sample at `(I + e + stagger) * dx`) | high; not executed | Projection.NeighbourCounterexample | Projection.CentredInterior |
