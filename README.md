# Orbital simulator: bodies, forces, stepping and the sphere mesh

This project is a Dafny model of the computational core of a small C#
orbital simulator. It covers four pieces.

- **Bodies.** A `Body` has a name and a mass that never change, and a
  position and a velocity that the simulator overwrites in place.
- **Two simulators.** The newer one lives in `Implementations/Calcules`;
  the older one in `Simulator.cs`. Each holds a list of bodies. Its
  `CalculateForces` makes an all-pairs pass: for every body it sums the
  gravitational pull of every other body, skipping the body itself and
  any pair at distance zero. Its `Simulate` runs a fixed number of
  semi-implicit Euler steps. In each step every force is computed first;
  then each body, in list order, gets its new velocity and then its new
  position from that velocity, and the new position is appended to the
  body's trajectory. At the end every trajectory and its last point go
  to a plotter.
- **The plotter.** It is seen only through the calls it receives.
- **The sphere mesh.** `SphereMeshGenerator.CreateSphere` builds the
  vertex list and the `uint` index list of the sphere drawn in the 3-D
  view.

Layout:

- `bodies.dfy` (`Bodies`): the 2-D vector type and the `Body` class.
- `physics.dfy` (`Physics`): the specification both simulators are
  proved against.
  - Both force formulas, the contribution table, the net forces, one
    step and a run of `n` steps.
  - Trajectories, with momentum as a reference quantity.
  - The properties proved about them: Newton's third law, cancellation
    of the forces, conservation of momentum, agreement of the two
    formulas, the lone body, and a two-body scenario with `G = 1`.
- `stepping.dfy` (`Stepping`): the parts of `Simulate` in which both
  variants take the same steps.
  - The trajectory dictionary, with its duplicate-name failure.
  - The per-body update loop.
  - The report to the plotter, with its empty-trajectory failure.
- `sink.dfy` (`Sink`): the plotter as a ghost trace of calls, and the
  call sequence a report produces.
- `calcules.dfy` (`CalculesSimulator`) and `legacy.dfy`
  (`LegacySimulator`): the two `Simulator` classes.
  - Each has the source's loops.
  - Its methods are proved to compute `Physics.Forces` and
    `Physics.Run`, and to leave the trajectories that `Physics.Trajectory`
    describes.
- `sphere.dfy` (`SphereMesh`): `CreateSphere` and its nested loops, with
  the `uint` arithmetic written out modulo 2^32. The lemmas give the
  count and the offset of every vertex and of every cell's six indices.

Arithmetic and the square root:

- `double` arithmetic is modelled as exact `real` arithmetic.
- `Math.Sqrt` is a parameter `sqrt` of each simulator. Its type `Root`
  only demands `sqrt(0) == 0`, which is enough to show that the
  zero-distance skip avoids every division by zero.
- Where a property needs a true square root, the lemma requires
  `IsSqrt(sqrt)`: non-negative, and its square gives back the argument.
  This holds for the agreement of the two formulas, for the direction
  of a pull, and for the two-body scenario.
- `G` is a field set by the constructor. The source's constant
  `6.67430e-11` is `CalculesSimulator.SourceG`.

## Model

Source paths are relative to the repository root.

| member | source | states |
|---|---|---|
| Bodies.Body.constructor | sources/Body.cs:3-8 | The new body holds exactly the name, mass, position and velocity it was given. Name and mass are `const`, so nothing can change them later. |
| Bodies.Body.SetPosition | sources/Body.cs:7 | Setting `Position` stores the new position and leaves the velocity as it was. |
| Bodies.Body.SetVelocity | sources/Body.cs:8 | Setting `Velocity` stores the new velocity and leaves the position as it was. |
| Bodies.States | sources/Implementations/Calcules/Simulator.cs:11 | The snapshot of the body list has one state per body, in list order. |
| CalculesSimulator.Simulator.constructor | sources/Implementations/Calcules/Simulator.cs:10-11 | A new simulator has no bodies and the given `G` and square root. |
| CalculesSimulator.Simulator.AddBody | sources/Implementations/Calcules/Simulator.cs:13 | The body is appended at the end of the list; the bodies before it are unchanged. |
| CalculesSimulator.Simulator.AddDefaultBodies | sources/Implementations/Calcules/Simulator.cs:15-33 | One fresh body per table row, in row order, is appended after the existing bodies, and each new body has that row's state. |
| CalculesSimulator.Simulator.PairPull | sources/Implementations/Calcules/Simulator.cs:48-57 | The contribution of `other` to `body` is `CalculesPull`: zero when `dist == 0`, else `f*dx/dist`, `f*dy/dist` with `f = G*m1*m2/distSq`. |
| CalculesSimulator.Simulator.NetForce | sources/Implementations/Calcules/Simulator.cs:41-58 | The inner loop's `(fx, fy)` is the body-order sum of row `i` of the contribution table, whose self entry is zero. |
| CalculesSimulator.Simulator.CalculateForces | sources/Implementations/Calcules/Simulator.cs:35-64 | Returns `Forces` of the current states: one force per body, and `forces[i]` is the net pull on body `i`. |
| CalculesSimulator.Simulator.StepOnce | sources/Implementations/Calcules/Simulator.cs:72-86 | Keeps `Progress`: from the state after `n` steps and a record of them, it reaches the state after `n + 1` and its record. The forces come from the state before the step, and every trajectory gains the body's new position. |
| CalculesSimulator.Simulator.RunSteps | sources/Implementations/Calcules/Simulator.cs:70-87 | After the step loop the bodies are in state `Run(..., StepCount(steps))`, and each trajectory is that body's positions after steps 1 to `StepCount(steps)`. |
| CalculesSimulator.Simulator.Simulate | sources/Implementations/Calcules/Simulator.cs:66-94 | Duplicate name: fails before any change. Otherwise: bodies advanced by `StepCount(steps)` steps, trajectories recorded, and the plotter gets each body's trajectory and then its name at the last point. Fails after the first `AddTrajectory` exactly when `steps <= 0` and there are bodies. The list itself is unchanged. |
| CalculesSimulator.Simulator.StepAndReport | sources/Implementations/Calcules/Simulator.cs:70-93 | The step loop and then the report, with the same outcomes as `Simulate` once the names are distinct. |
| LegacySimulator.ReferenceSkip | sources/Simulator.cs:60-66 | When the same object sits at places `i` and `j`, their contribution is zero. So the reference skip `body == other` agrees with skipping `i == j` plus the zero-distance skip. |
| LegacySimulator.RowOf | sources/Simulator.cs:58-71 | Entry `j` of row `i` is zero when `bodies[j]` is the same object as `bodies[i]`, and otherwise the pair's pull, as the inner `foreach` sees it. |
| LegacySimulator.Simulator.constructor | sources/Simulator.cs:9-10 | A new simulator has no bodies and the given `G` and square root. |
| LegacySimulator.Simulator.AddBody | sources/Simulator.cs:12 | The body is appended at the end of the list. |
| LegacySimulator.Simulator.PairPull | sources/Simulator.cs:62-70 | The contribution is `LegacyPull`: zero when `distance == 0`, else `force*(dx/distance)`, `force*(dy/distance)` with `force = G*m1*m2/(distance*distance)`. |
| LegacySimulator.Simulator.NetForce | sources/Simulator.cs:56-71 | The inner `foreach` skips the same object and sums row `i` of the contribution table, in list order. |
| LegacySimulator.Simulator.CalculateForces | sources/Simulator.cs:50-77 | The list built by `forces.Add` is `Forces` of the current states: one force per body, in `Bodies` order. |
| LegacySimulator.Simulator.StepOnce | sources/Simulator.cs:20-38 | Keeps `Progress` from `n` to `n + 1` steps: forces from the pre-step states, then each body advanced and its position appended. |
| LegacySimulator.Simulator.RunSteps | sources/Simulator.cs:18-39 | After the loop the bodies are `Run(..., StepCount(steps))`, and every trajectory holds one entry per step. |
| LegacySimulator.Simulator.Simulate | sources/Simulator.cs:14-48 | The same outcomes and final states as the newer `Simulate`: duplicate-name failure, the recorded trajectories, the plotter's calls, and the empty-trajectory failure when `steps <= 0`. |
| LegacySimulator.Simulator.StepAndReport | sources/Simulator.cs:18-47 | The step loop and then the report, as in the newer variant. |
| Physics.CalculesPull | sources/Implementations/Calcules/Simulator.cs:49-57 | The pull of `other` on `body` in the newer formula: zero when `dist == 0`, else `(f*dx/dist, f*dy/dist)` with `f = G*m1*m2/distSq`. Its contract: bodies at one point exert nothing, with no division. |
| Physics.LegacyPull | sources/Simulator.cs:62-70 | The pull in the older formula: zero when `distance == 0`, else `(force*(dx/distance), force*(dy/distance))` with `force = G*m1*m2/(distance*distance)`. Same contract: bodies at one point exert nothing. |
| Physics.PullsParallel | sources/Implementations/Calcules/Simulator.cs:49-57 | For any `sqrt`, the pull in either formula is parallel to the displacement `(dx, dy)` from `body` to `other`, so it acts along the line between them. The older formula's lines are sources/Simulator.cs:62-70. |
| Physics.Advance | sources/Implementations/Calcules/Simulator.cs:79-83 | One body's update under force `f`: the velocity becomes `v + f/m*dt`, and then the position moves by the NEW velocity times `dt`. The name and mass are kept. The older variant's lines sources/Simulator.cs:27-35 compute the same. |
| Physics.Pairs | sources/Implementations/Calcules/Simulator.cs:39-58 | The contribution table is square, with one row and one column per body. |
| Physics.Forces | sources/Implementations/Calcules/Simulator.cs:37-63 | One net force per body. |
| Physics.Step | sources/Implementations/Calcules/Simulator.cs:72-86 | A step keeps the number of bodies and their nonzero masses. |
| Physics.Run | sources/Implementations/Calcules/Simulator.cs:70-87 | A run of `n` steps keeps the number of bodies and their nonzero masses. |
| Physics.RunLastStep | sources/Implementations/Calcules/Simulator.cs:70-87 | Step `n + 1` is one `Step` from the state after `n` steps, so the loop can be run one step at a time. |
| Physics.StepKeepsBodies | sources/Simulator.cs:22-38 | A step keeps the count, the order, the names and the masses of the bodies. |
| Physics.RunKeepsBodies | sources/Simulator.cs:18-39 | So does a whole run. |
| Physics.Trajectory | sources/Implementations/Calcules/Simulator.cs:68-87 | A trajectory recorded over `n` steps has exactly `n` entries. |
| Physics.TrajectoryEntry | sources/Implementations/Calcules/Simulator.cs:70-87 | Entry `m` of a trajectory is the body's position after step `m + 1`, so the entries are in step order. |
| Physics.ZeroDistanceSkip | sources/Implementations/Calcules/Simulator.cs:51-53 | For a true square root, the skip `dist == 0` fires exactly when the two bodies are at the same point. |
| Physics.CoincidentPairSkipped | sources/Implementations/Calcules/Simulator.cs:49-53 | Two bodies at the same point contribute zero to each other, in either formula, with no division. |
| Physics.PairDistance | sources/Implementations/Calcules/Simulator.cs:51-52 | At distinct points `dist` is positive and its square is `distSq`. |
| Physics.PairForceLaw | sources/Implementations/Calcules/Simulator.cs:49-57 | At distinct points the pull is `G*m1*m2/distSq` times the unit vector `(dx/dist, dy/dist)`, which is a positive multiple of the displacement from `body` to `other`. |
| Physics.LegacyMatchesCalcules | sources/Simulator.cs:62-70 | Over the reals and a true square root, `G*m1*m2/(distance*distance)` times the direction equals the newer formula. |
| Physics.CalculesAntisymmetric | sources/Implementations/Calcules/Simulator.cs:49-57 | The pull of `b` on `a` is minus the pull of `a` on `b`, for any `sqrt` with `sqrt(0) == 0`. |
| Physics.LegacyAntisymmetric | sources/Simulator.cs:62-70 | The same antisymmetry for the older formula. |
| Physics.PairForceAntisymmetric | sources/Implementations/Calcules/Simulator.cs:49-57 | Newton's third law for whichever formula a simulator uses. |
| Physics.PairsAntisymmetric | sources/Implementations/Calcules/Simulator.cs:44-58 | Entry `(i, j)` of the contribution table is minus entry `(j, i)`. |
| Physics.ForcesSumToZero | sources/Implementations/Calcules/Simulator.cs:35-64 | Over exact arithmetic the forces of one pass add up to zero. |
| Physics.AdvanceMomentum | sources/Implementations/Calcules/Simulator.cs:79-83 | The velocity update adds `dt * f` to the body's momentum and keeps its mass. |
| Physics.Coast | sources/Simulator.cs:27-35 | Under zero force a body keeps its velocity and moves by `velocity * dt`. |
| Physics.StepConservesMomentum | sources/Implementations/Calcules/Simulator.cs:72-86 | Over exact arithmetic a step keeps the total momentum. |
| Physics.RunConservesMomentum | sources/Implementations/Calcules/Simulator.cs:70-87 | So does a whole run. |
| Physics.ForcesAgree | sources/Simulator.cs:50-77 | With a true square root, the older variant's forces equal the newer variant's. |
| Physics.RunsAgree | sources/Simulator.cs:18-39 | With a true square root, both variants make the same run from the same bodies. |
| Physics.LoneBodyFeelsNoForce | sources/Simulator.cs:54-76 | A lone body receives exactly one force, and it is zero. |
| Physics.LoneStep | sources/Simulator.cs:20-38 | One step of a lone body keeps its velocity and moves it by `velocity * dt`. |
| Physics.LoneBodyDrifts | sources/Simulator.cs:18-39 | Over any number of steps a lone body keeps its velocity and moves by `velocity * dt` per step. |
| Physics.LoneBodyPosition | sources/Simulator.cs:18-39 | After `n` steps a lone body is at `position + velocity * (n * dt)`. |
| Physics.ScenarioPulls | sources/Implementations/Calcules/Simulator.cs:49-57 | With `G = 1`, unit masses one unit apart pull each other with unit force, each toward the other. |
| Physics.ScenarioTable | sources/Implementations/Calcules/Simulator.cs:35-64 | Net forces of that scenario when `sqrt(1) == 1`: `(1, 0)` on A and `(-1, 0)` on B. |
| Physics.TwoBodyForces | sources/Implementations/Calcules/Simulator.cs:35-64 | The same forces for any true square root. |
| Physics.TwoBodyStep | sources/Implementations/Calcules/Simulator.cs:72-86 | One step of `0.01`: A moves at `(0.01, 0)` to `(0.0001, 0)`, and B at `(-0.01, 0)` to `(0.9999, 0)`. Velocity is updated before position. |
| Stepping.StepCount | sources/Implementations/Calcules/Simulator.cs:70 | `for (step = 0; step < steps; step++)` runs `steps` times when `steps > 0`, else never. |
| Stepping.NewTrajectories | sources/Implementations/Calcules/Simulator.cs:68 | `ToDictionary` succeeds exactly when the names are distinct. It then maps every body's name, and only those, to an empty trajectory. |
| Stepping.DistinctObjects | sources/Implementations/Calcules/Simulator.cs:74-86 | Bodies with distinct names are distinct objects, so updating one body in place never touches another. |
| Stepping.AdvanceBody | sources/Implementations/Calcules/Simulator.cs:79-83 | The velocity becomes `v + (f/m)*dt`, and then the position becomes `p + v'*dt` with the new velocity, as in `Physics.Advance`. |
| Stepping.ApplyForces | sources/Implementations/Calcules/Simulator.cs:74-86 | Every body is advanced under its own precomputed force. Every trajectory gains exactly the body's new position, and the dictionary's keys stay the same. |
| Stepping.Report | sources/Implementations/Calcules/Simulator.cs:89-93 | The plotter receives `Reported(...)`: per body, in list order, `AddTrajectory` and then `AddBodyName` at the last point. The report is complete exactly when no trajectory is empty. |
| Stepping.ReportOutcome | sources/Implementations/Calcules/Simulator.cs:89-93 | When every trajectory has `n` entries, every one has a last point exactly when `n > 0` or there are no bodies. |
| Stepping.RecordStep | sources/Implementations/Calcules/Simulator.cs:85 | Appending each body's position after step `n + 1` extends a record of `n` steps to one of `n + 1`. |
| Stepping.RecordedLast | sources/Implementations/Calcules/Simulator.cs:85-92 | A record of `n` steps has `n` entries per body. When `n > 0`, its last entry is the body's current position. |
| Sink.Plotter.constructor | sources/Plotter.cs:10-12 | A new plotter has received no calls. |
| Sink.Plotter.AddTrajectory | sources/Interfaces/IPlotter.cs:6 | The call is appended to the trace with the body's name and its trajectory. |
| Sink.Plotter.AddBodyName | sources/Interfaces/IPlotter.cs:5 | The call is appended to the trace with the body's name and the position. |
| Sink.Reported | sources/Implementations/Calcules/Simulator.cs:89-93 | The call sequence of the report loop: per body, `AddTrajectory(name, traj)` and then `AddBodyName(name, last(traj))`, ending right after an empty trajectory's `AddTrajectory`, where `Last()` throws. Its contract: at most two calls per body, and a report of any body opens with the first body's trajectory. |
| Sink.ReportLength | sources/Implementations/Calcules/Simulator.cs:89-93 | A report in which every trajectory has a last point makes two calls per body. |
| Sink.ReportOrder | sources/Implementations/Calcules/Simulator.cs:89-93 | Body `k` owns calls `2k` and `2k+1`: first its whole trajectory, then its name at the trajectory's last point. |
| Sink.FirstReportFails | sources/Implementations/Calcules/Simulator.cs:91-92 | When the first trajectory is empty, the report makes only its `AddTrajectory` call. |
| Sink.ReportAppend | sources/Implementations/Calcules/Simulator.cs:89-93 | Reporting two lists, the first with last points, is reporting one list after the other. |
| Sink.ReportNext | sources/Implementations/Calcules/Simulator.cs:89-93 | One more body with a last point adds exactly its two calls. |
| Sink.ReportStops | sources/Implementations/Calcules/Simulator.cs:91-92 | The report stops right after handing over the first empty trajectory. |
| SphereMesh.CreateSphere | sources/Implementations/3dGraphics/SphereMeshGenerator.cs:7-52 | The returned mesh holds the vertex list `Vertices` and the index list `Indices`, in the order the loops add them. |
| SphereMesh.AddVertices | sources/Implementations/3dGraphics/SphereMeshGenerator.cs:12-32 | The vertex loops add `x, y, z` of every grid point, ring by ring and column by column, for `0 <= lat <= latSegments` and `0 <= lon <= lonSegments`. |
| SphereMesh.AddIndices | sources/Implementations/3dGraphics/SphereMeshGenerator.cs:34-49 | The `uint` index loops add the six indices of every cell, row by row and column by column, computed with wrapping `uint` arithmetic. |
| SphereMesh.VertexCount | sources/Implementations/3dGraphics/SphereMeshGenerator.cs:12-32 | The vertex list has `3*(latSegments+1)*(lonSegments+1)` entries, or none when either count is negative. |
| SphereMesh.VertexOffset | sources/Implementations/3dGraphics/SphereMeshGenerator.cs:12-32 | The vertex at ring `lat`, column `lon` is the three entries starting at `3*(lat*(lonSegments+1)+lon)`. |
| SphereMesh.IndexCount | sources/Implementations/3dGraphics/SphereMeshGenerator.cs:34-49 | The index list has `6*latSegments*lonSegments` entries, or none when either count is negative. |
| SphereMesh.Quad | sources/Implementations/3dGraphics/SphereMeshGenerator.cs:38-47 | The six indices of cell `(lat, lon)`. `first = lat*(uint)(lonSegments+1) + lon` and `second = first + (uint)(lonSegments+1)` are computed with unchecked `uint` arithmetic (`U32`, `UAdd`, `UMul`: reduction modulo 2^32, including the cast at `lonSegments == int.MaxValue`). The cell is then `first, second, first+1, second, second+1, first+1`. Its contract: six entries per cell. |
| SphereMesh.SharedEdge | sources/Implementations/3dGraphics/SphereMeshGenerator.cs:41-47 | The two triangles of a cell share the edge `second`, `first + 1`: entries 1 and 3 are equal, and so are entries 2 and 5. |
| SphereMesh.QuadPosition | sources/Implementations/3dGraphics/SphereMeshGenerator.cs:41-47 | The six indices of cell `(lat, lon)` start at position `6*(lat*lonSegments+lon)` and are `first, second, first+1, second, second+1, first+1`. |
| SphereMesh.QuadCorners | sources/Implementations/3dGraphics/SphereMeshGenerator.cs:38-47 | Without wrap-around, `first` and `second` are the vertex numbers of `(lat, lon)` and `(lat+1, lon)`, so `second == first + lonSegments + 1`. Every index is below `(latSegments+1)*(lonSegments+1)`. |
| SphereMesh.TrianglesNonDegenerate | sources/Implementations/3dGraphics/SphereMeshGenerator.cs:41-47 | Without wrap-around, both triangles of every cell have three different corners. |
| SphereMesh.IndicesInRange | sources/Implementations/3dGraphics/SphereMeshGenerator.cs:38-47 | Without wrap-around, every index names an existing vertex: three times it is below the length of the vertex list. |

## Left out

- Floating point:
  - `double` and `float` arithmetic are exact `real` arithmetic here.
  - Rounding, overflow to infinity and NaN are not modelled.
  - The momentum, cancellation and agreement lemmas hold only over exact arithmetic.
- `Math.Sqrt` is a parameter of each simulator, not the library function.
  - `Root` demands only `sqrt(0) == 0`.
  - Lemmas that need more require `IsSqrt`.
- `MathF.Sin`, `MathF.Cos` and `MathF.PI`: the sphere's vertex coordinates are a caller-supplied function `at(lat, lon)`.
  - Only the number, order and position of the vertex entries are modelled.
  - Their trigonometric values are not.
- Body masses:
  - The source never checks a mass. The model requires every mass to be nonzero, because the velocity update divides by it.
  - `deltaTime` and `steps` are unconstrained, as in the source.
- Exceptions:
  - The two exceptions `Simulate` can raise are outcomes: `DuplicateName` from `ToDictionary`, and `EmptyTrajectory` from `Last()`.
  - Exception types and stack unwinding are not modelled.
- Trajectory lists:
  - The trajectory dictionary maps names to values, not to shared `List` objects.
  - The plotter receives the list object itself. Nothing appends to it after the report, so a value describes what the plotter sees.
- `CalculesSimulator.Simulator.AddDefaultBodies`: the solar-system table is a caller-supplied parameter of body states, and its constants are not reproduced. The commented-out moons are not part of the source's behaviour.
- Rendering and export are not part of this model:
  - `Render`, `Execute` and `ExecuteInteractive` (console prompt, time-stamped file names);
  - the plotters' drawing and PNG export;
  - `Plotter3D`, `OrbitWindow` and `Shader`.
- The plotter is only the trace of `AddTrajectory` and `AddBodyName` calls. `Save` is not modelled.
- Method splits:
  - `StepOnce`, `StepAndReport`, `NetForce`, `PairPull`, `AddVertices` and `AddIndices` are pieces of the source's single methods, split out so each proof stays small.
  - The six `indices.Add` calls of one cell are one append of six values.
- `SphereMesh.AddVertices`: `lat` and `lon` are unbounded integers, and the vertex list has no capacity limit. What the source does near the `int` limit is not modelled:
  - `lat <= latSegments` and `lon <= lonSegments` stay true forever once `latSegments` or `lonSegments` is `int.MaxValue`, because the counter wraps instead of passing the bound.
  - The inner loop adds three entries per turn. So whenever the looping counter makes the list grow, the `List<float>` capacity is exhausted and the call throws long before any wrap.
  - The call never ends only when `latSegments == int.MaxValue` and `lonSegments < 0`: the outer loop then adds nothing.
- `SphereMesh.QuadCorners`, `SphereMesh.TrianglesNonDegenerate` and `SphereMesh.IndicesInRange` are stated under `NoWrap`: at most 2^32 grid points.
  - Beyond that bound the `uint` indices wrap and are not proved in range.
  - A vertex list that large could not be allocated.
  - The index list itself is modelled with the wrap-around, for all inputs.
