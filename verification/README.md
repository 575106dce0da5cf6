# AMR-Wind interpolation, fixed-wing actuator operations and mesoscale forcing transition, in Dafny

This project models three pieces of AMR-Wind and proves properties of them:

- **Table interpolation** (`amr_wind::interp`, module `Interp`). A query is
  classified against an ordered table (`check_bounds`) and then bracketed in one
  of two ways: by bisection (`bisection_search`) or by a forward scan from a hint
  (`find_index`). The table is evaluated with flat extrapolation outside its
  range and linear interpolation inside. This happens in the scalar `linear`, in
  `linear_monotonic`, which carries the hint from one query to the next, and in
  the vector `linear`.
- **Fixed-wing actuator operations** (`amr_wind::actuator::ops` for wings with a
  line source, module `WingOps`; three-component vectors in module `Vectors`).
  This covers:
  - the component view handed to the filtered lifting-line correction (FLLC);
  - the position and velocity updates;
  - the force computation: relative wind, angle of attack with a static or
    scheduled pitch, lift and drag, the force on the fluid, the per-point
    outputs and the totals;
  - the one-time FLLC initialisation guard;
  - the output-frequency gate of `write_outputs`.
- **Mesoscale forcing transition** (`ABLMesoscaleForcing::forcingToConstant`,
  module `MesoscaleForcing`): a case-sensitive test of whether the transition
  name ends in `Constant`.

Tables and per-point arrays are sequences, and floating-point values are `real`.
Several operations are collaborators whose bodies are not part of this model:
- vector normalisation and magnitude;
- `atan2`, degree and radian conversion;
- the airfoil polar lookup;
- the motion law `new_wing_position_velocity`;
- `refresh_wing_position`;
- `FLLCOp` and `FLLCInit`.

All of these enter as function-valued fields of `WingOps.Env`, and the model
states what the wing operations do around them. C++ `int` remainder truncates
toward zero; it is modelled explicitly (`WingOps.TruncRem`), because Dafny's `%`
is Euclidean.

In exact arithmetic, on a non-decreasing table, the bisection in the code
returns the lower end of the bracketing interval. In exact arithmetic, for every
table, sorted or not, the index it returns is at most `|x|-2`, so the reads
`x[idx+1]` and `y[idx+1]` that follow stay in bounds. Neither holds for every
table of doubles: see the floating-point lines under "## Left out".
The search itself reads `x[0]`, `x[|x|-1]` and `x[mid]` with `mid <= |x|-1`. So
the only thing the scalar `linear` needs from its caller is a `y` column at
least as long as `x` and non-empty.

On a strictly increasing table, interpolating at a table node gives back that
node's ordinate, with one exception. (With a repeated abscissa it can fail: for
`x = [0,1,1,2]` and `y = [0,10,20,30]` the bracket found at node 2 is 0, so the
result is `y[1] = 10`, not `y[2] = 20`.) At node 0, when the first spacing `x[1] - x[0]` is at or below
`1e-8`, the code does not divide. Its weight becomes 1, so it returns `y[1]`,
not `y[0]`. The model follows the code here: `Interp.LinearAtNode` excludes that
case and `Interp.FirstNodeSnaps` states what happens instead.

## Model

| member | source | states |
|---|---|---|
| `Interp.CheckBounds` | amr-wind/utilities/linear_interpolation.H:20-34 | LOWLIM exactly when the table has fewer than two entries or the query is below `x[0]`; UPLIM exactly when it is above the last entry, with index `sz-1`; VALID exactly when the query lies in `[x[0], x[sz-1]]`, endpoints included, with index 0 |
| `Interp.KeepLowerHalf` | amr-wind/utilities/linear_interpolation.H:52-54 | a non-positive sign test keeps a window whose right end is at or above the query on a non-decreasing table |
| `Interp.KeepUpperHalf` | amr-wind/utilities/linear_interpolation.H:52-56 | a positive sign test means `x[mid]` is below the query, so `mid` is not the last entry, and keeps every entry up to the new left end below the query |
| `Interp.Bisect` | amr-wind/utilities/linear_interpolation.H:45-58 | the halving loop ends with `il` in its starting window and at most `sz-2` for any table, so every read is in bounds; on a non-decreasing table `il` is the lower end of the bracketing interval |
| `Interp.BisectionSearch` | amr-wind/utilities/linear_interpolation.H:36-61 | out-of-range results are those of `check_bounds`; a VALID result has `0 <= idx <= sz-2`, and on a non-decreasing table `x[idx] <= q <= x[idx+1]` with `idx+1` the first index from 1 whose entry is not below `q` |
| `Interp.ScanFrom` | amr-wind/utilities/linear_interpolation.H:72-77 | the scan from `it` yields one less than the first index at or after `it` whose entry is not below the query; it yields 0 when no such index exists |
| `Interp.FindIndex` | amr-wind/utilities/linear_interpolation.H:63-79 | out-of-range results are those of `check_bounds`; a VALID result is the scan result from the hint (1 by default), or index 0 when the scan finds nothing |
| `Interp.DefaultHintAgrees` | amr-wind/utilities/linear_interpolation.H:63-79 | with its default hint of 1, `find_index` returns the same index as `bisection_search` on every non-decreasing table and every query |
| `Interp.LowerBracketUnique` | amr-wind/utilities/linear_interpolation.H:49-58 | the lower bracketing index of a query is unique |
| `Interp.HintedSearchAgrees` | amr-wind/utilities/linear_interpolation.H:63-79 | on a non-decreasing table, `find_index` with a hint that skips only entries below the query returns the same index as `bisection_search` |
| `Interp.Linear` | amr-wind/utilities/linear_interpolation.H:81-114 | flat extrapolation: exactly `y[0]` below the range or for a table of fewer than two entries, exactly `y[sz-1]` above the range; the `Abort` branch is unreachable; inside the range the value is the bracket interpolation `Interpolate`, characterised by `Interp.LinearOnBracket` |
| `Interp.LinearOnBracket` | amr-wind/utilities/linear_interpolation.H:95-102 | inside the range of a sorted table, with spacing above `1e-8` the result is `(1-facR)*y[j] + facR*y[j+1]` with `facR` in `[0,1]` and lies between `y[j]` and `y[j+1]`; with spacing at or below `1e-8` it is `y[j+1]` |
| `Interp.LinearAtNode` | amr-wind/utilities/linear_interpolation.H:89-102 | on a strictly increasing table, interpolating at node `x[k]` returns exactly `y[k]` (at node 0 only when the first spacing exceeds `1e-8`) |
| `Interp.FirstNodeSnaps` | amr-wind/utilities/linear_interpolation.H:96-101 | at node 0 of a table whose first spacing is at or below `1e-8` the result is `y[1]` |
| `Interp.LinearExample` | amr-wind/utilities/linear_interpolation.H:81-107 | for `x = [0,1,2,3]`, `y = [0,10,20,30]`: 1.5 gives 15, -1 gives 0, 5 gives 30 |
| `Interp.LinearMonotonic` | amr-wind/utilities/linear_interpolation.H:116-142 | one output per query; out-of-range queries clamp to `y[0]` or `y[sz-1]` in any order; on a sorted table with non-decreasing queries, the hinted pass gives exactly the scalar `linear` at every query |
| `Interp.LinearEach` | amr-wind/utilities/linear_interpolation.H:144-158 | one output per query, each equal to the scalar `linear` at that query |
| `WingOps.MakeComponentView` | amr-wind/wind_energy/actuator/wing/wing_ops.H:49-66 | all eight view fields hold exactly the first `num_pts` entries of their grid or metadata arrays |
| `WingOps.UpdatePos` | amr-wind/wind_energy/actuator/wing/wing_ops.H:85-100 | the velocity-sampling points are refreshed from the force points for `num_pts` points; no other grid array changes |
| `WingOps.UpdateVel` | amr-wind/wind_energy/actuator/wing/wing_ops.H:102-118 | the FLLC correction is applied to the component view exactly when the wing has an FLLC; without one, nothing changes; nothing but the view and the FLLC state changes |
| `WingOps.PitchOffset` | amr-wind/wind_energy/actuator/wing/wing_ops.H:169-180 | a non-empty schedule name selects the interpolated pitch schedule at the current time, which holds its first value before the schedule and its last after it; otherwise the static pitch in radians |
| `WingOps.SectionLoads` | amr-wind/wind_energy/actuator/wing/wing_ops.H:150-189 | relative wind with zero spanwise component and the projections of `vel - vel_tr` on the chordwise and normal axes of the local frame (`BladeFrame`, lines 150-159); angle of attack is the inflow angle plus the pitch offset; `(cl, cd)` from the polar; `qval` is the dynamic pressure times the area; lift and drag are `qval` times `cl` and `cd`, so `lift*cd == drag*cl`; staged as the projections `RelativeWind` (lines 161-165) followed by `LoadsInWind` (lines 167-189) |
| `WingOps.DynamicPressure` | amr-wind/wind_energy/actuator/wing/wing_ops.H:187 | `0.5*vmag^2*chord*dx` is never negative on a section of non-negative area, whatever the sign of `vmag`, and is zero at zero speed or zero area |
| `WingOps.SectionReaction` | amr-wind/wind_energy/actuator/wing/wing_ops.H:191-199 | the force on the fluid exactly cancels the aerodynamic force `lift_dir*lift + drag*drag_dir` |
| `WingOps.AxisFrame` | amr-wind/wind_energy/actuator/wing/wing_ops.H:150-159 | with chordwise x and spanwise y the re-orthogonalised local frame is the coordinate frame |
| `WingOps.ExampleWind` | amr-wind/wind_energy/actuator/wing/wing_ops.H:150-165 | on an axis-aligned wing at rest, the relative wind of a 10 m/s stream along x is that stream |
| `WingOps.ExampleInflow` | amr-wind/wind_energy/actuator/wing/wing_ops.H:161-184 | a 10 m/s wind along x on an unpitched wing at rest is seen head-on at zero incidence with magnitude 10 |
| `WingOps.ExampleLoads` | amr-wind/wind_energy/actuator/wing/wing_ops.H:186-189 | with chord 2, width 0.5, `Cl = 0.5`, `Cd = 0.05`, that wind gives `qval = 50`, lift 25 and drag 2.5 |
| `WingOps.ExampleReaction` | amr-wind/wind_energy/actuator/wing/wing_ops.H:190-199 | in that example the force on the fluid is `(-2.5, 0, -25)`: against the chordwise axis by the drag and against the normal axis by the lift |
| `WingOps.ReactionAtTen` | amr-wind/wind_energy/actuator/wing/wing_ops.H:190-199 | in the coordinate frame, a wind of 10 along x with a `unit` exact on that wind and on the z axis gives drag along x, lift along z, and force `(-drag, 0, -lift)` |
| `WingOps.FllcGate` | amr-wind/wind_energy/actuator/wing/wing_ops.H:214-224 | when an FLLC exists, is not initialised and the time is past its start (`FllcFires`, with the state update `FllcStep`), the view is rebuilt from the current grid and `FLLCInit` runs on it with the first chord-based radius; otherwise nothing changes; nothing else changes either way |
| `WingOps.FllcRound` | amr-wind/wind_energy/actuator/wing/wing_ops.H:102-225 | one time step of `UpdateVelOp` followed by the guard closing `ComputeForceOp` changes only the view and the FLLC state, and keeps an FLLC present or absent |
| `WingOps.FllcRun` | amr-wind/wind_energy/actuator/wing/wing_ops.H:102-225 | over a run of such steps, one firing flag per step, each taken on the state `UpdateVelOp` leaves |
| `WingOps.FllcDisabledNeverFires` | amr-wind/wind_energy/actuator/wing/wing_ops.H:114-116 | on any run of `UpdateVelOp` and `ComputeForceOp` steps, a wing without an FLLC never initialises one |
| `WingOps.FllcStaysInitialized` | amr-wind/wind_energy/actuator/wing/wing_ops.H:214-216 | on such a run, an initialised FLLC is never initialised again, provided `FLLCOp` keeps the initialised flag and the start time |
| `WingOps.FllcInitializesOnce` | amr-wind/wind_energy/actuator/wing/wing_ops.H:214-223 | on such a run, an uninitialised FLLC is initialised on exactly one step, the first whose time exceeds its start time, provided `FLLCOp` keeps the flag and the start time and `FLLCInit` sets the flag and keeps the start time |
| `WingOps.ForceLoop` | amr-wind/wind_energy/actuator/wing/wing_ops.H:146-212 | for every point below `num_pts`, slot `ip` of force, relative wind, angle of attack in degrees, `cl` and `cd` holds that point's section values; every other slot and field is unchanged; lift and drag are the sums over the points (`SumLoads`) |
| `WingOps.TotalLoads` | amr-wind/wind_energy/actuator/wing/wing_ops.H:207-212 | the accumulated totals equal the sums of the per-point lift and drag over `[0, npts)`, as defined recursively by `SumLoads` |
| `WingOps.ComputeForce` | amr-wind/wind_energy/actuator/wing/wing_ops.H:128-225 | positions and translational velocity come from the motion law (`Advanced`, lines 141-143); the force loop runs with the advanced velocity; then the FLLC guard, which rebuilds the view from the updated grid and metadata when it fires |
| `WingOps.TruncRem` | amr-wind/wind_energy/actuator/wing/wing_ops.H:263 | the C++ remainder is smaller in magnitude than the divisor, takes the sign of the dividend, and differs from it by a whole multiple of the divisor |
| `WingOps.TruncRemZeroIffMultiple` | amr-wind/wind_energy/actuator/wing/wing_ops.H:263-265 | the remainder is zero exactly when the time index is a whole multiple of the frequency |
| `WingOps.WriteOutputs` | amr-wind/wind_energy/actuator/wing/wing_ops.H:259-270 | output is written on exactly the time indices that are whole multiples of the output frequency |
| `WingOps.DefaultOutputsEveryTenthStep` | amr-wind/wind_energy/actuator/wing/wing_ops.H:241 | with the default frequency of 10, steps 0 and 30 are written, and 15 and -15 are not |
| `MesoscaleForcing.ForcingToConstant` | amr-wind/wind_energy/ABLMesoscaleForcing.H:76-85 | false for names shorter than 8 characters; true exactly when the name is some prefix followed by `Constant` |
| `MesoscaleForcing.EndsInConstantIff` | amr-wind/wind_energy/ABLMesoscaleForcing.H:79-84 | ending in `Constant` is the same as having at least 8 characters whose last 8 spell `Constant` |
| `MesoscaleForcing.AnyPrefixIsConstant` | amr-wind/wind_energy/ABLMesoscaleForcing.H:82-84 | every name of the form prefix + `Constant` is a transition to constant forcing |
| `MesoscaleForcing.ForcingToConstantExamples` | amr-wind/wind_energy/ABLMesoscaleForcing.H:79-84 | `Constant` and `IndirectToConstant` pass; `IndirectToconstant` (case differs), `Const` and `Indirect` do not |

## Left out

- The collaborators listed above are parameters. They are: normalisation, magnitude, `atan2`, degree and radian conversion, the airfoil lookup, the motion law, the position refresh, `FLLCOp` and `FLLCInit`. No member assumes anything of them, except `WingOps.AxisFrame`, the worked example, two FLLC lemmas and `WingOps.ComputeForce`. `ComputeForce` requires that the motion law returns at least `num_pts` positions whenever the guard fires, so the view can be rebuilt from the advanced grid. `AxisFrame` and the example fix their values at the points they use. Nothing is claimed about the geometry they compute (orthonormality, unit length), because that needs square roots and trigonometry.
- `WingOps.FllcStaysInitialized`, `WingOps.FllcInitializesOnce`: these assume what the bodies of `FLLCOp` and `FLLCInit` do to the FLLC state, because those bodies are not part of this model. `FLLCOp` is assumed to keep `initialized` and `fllc_start_time` (`WingOps.FllcOpKeepsSchedule`). `FLLCInit` is assumed to set `initialized` and keep `fllc_start_time` (`WingOps.FllcInitMarks`). Without the first, `FLLCOp` could clear the flag and the guard would fire again.
- `WingOps.FllcRun`: each step's grid is given, not computed by the force loop. The guard reads only the FLLC state, the time and, when it fires, the grid and metadata it slices, and the force loop leaves the FLLC state alone (`WingOps.ComputeForce`).
- NaN and infinite values. The model's values are reals. In the code, a NaN query compares false both ways, so `check_bounds` calls it VALID. The same happens for a query of +infinity on a table ending in +infinity. The sign test is then never `<= 0`, `il` climbs to `sz-1`, and `linear` reads `x[sz]` and `y[sz]` (linear_interpolation.H:26-29, 53, 98, 101).
- Overflow and underflow of the bisection's sign product `(x - xmid) * (x - xl)` (linear_interpolation.H:53). The model's product is exact, so its bracketing and in-bounds results hold in exact arithmetic only.
  - Overflow. Take `x = [-1e308, 1e308]` and the query `1e308`. `check_bounds` calls it VALID. At `mid = 1`, `x - xl` overflows to +infinity and `0 * inf` is NaN, so the test fails. `il` becomes `sz-1`, and `linear` reads `x[2]` and `y[2]`, out of bounds.
  - Underflow. Take the strictly increasing table `x = [0, 1e-200, 2e-200, 3e-200]` and the query `2.5e-200`. Both products round to `0.0`, so the search returns 0 instead of the bracket 2. `linear` then gives `y[1]`, where the model gives `y[3]`.
- Floating-point rounding. Values are exact reals. The `1e-8` spacing threshold is kept as an exact constant.
- The debug `amrex::Print` of the current pitch (wing_ops.H:176), NetCDF preparation and writing, `prepare_outputs` and `read_io_options` are I/O. `write_outputs` is modelled as the decision whether to write.
- `WingOps.UpdateVel`, `WingOps.FllcGate`, `WingOps.MakeComponentView`: views alias the grid arrays in the code, so changes `FLLCOp` makes through the view reach the grid. In the model a view is a copy, and those changes stay in the view. As a consequence, the velocity correction `FLLCOp` applies never reaches the `grid.vel` that `WingOps.ForceLoop` reads.
- The `(il + ir) >> 1` midpoint is modelled as `(il + ir) / 2` on unbounded integers. 32-bit overflow of the sum needs tables of more than 2^30 entries.
- The `AMREX_ASSERT` size checks become `requires`. A table with a `y` column shorter than `x` is excluded, because the code reads it out of bounds.
- `WingOps.WriteOutputs`: an output frequency of 0 is excluded, because the C++ `%` by zero is undefined.
- `WingOps.TotalLoads`: the code accumulates the totals inside the force loop. The model computes them in a second pass over the same per-point values, which gives the same sums.
- `Interp.LinearAtNode`: does not claim node reproduction at node 0 when the first spacing is at or below `1e-8`, because the code returns `y[1]` there (stated by `Interp.FirstNodeSnaps`).
- `Interp.Bisect`, `Interp.BisectionSearch`, `Interp.HintedSearchAgrees`, `Interp.LinearOnBracket`: bracketing is proved for non-decreasing tables rather than only strictly increasing ones. This is a stronger statement. For unsorted tables only the in-bounds part is claimed.
- `WingOps.SectionReaction`: states the force balance, not the directions. The drag and lift directions are outputs of the opaque normalisation. In the worked example they are fixed: see `WingOps.ExampleReaction`.
- The rest of the actuator framework (`Actuator.cpp`: MPI root assignment, HELICS exchange, particle containers, sampling, source terms) is orchestration and parallel plumbing. So are `AMD.H`, `GeostrophicForcing.cpp`, `sdr_ops.H`, the finite-volume operator tests, the NetCDF mesoscale input, `ABLAnelastic.H`, `HOSWaves.H`, and the other, unimplemented members of `ABLMesoscaleForcing.H`.
- `read_inputs`, `init_data_structures` and the other functions declared in wing_ops.H:17-47 have no bodies there. They are not part of this model.
