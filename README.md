# FieldOfView — a Dafny model of the visibility scan

`UFieldOfViewComp` is an Unreal Engine actor component. On every tick it rebuilds the visibility polygon of its owner.

1. It empties its `vertices` array and adds the start location: the owner location plus `locationOffset`.
2. It casts `amountOfTraces` rays in decreasing angle order. Ray `i` is cast at `viewAngle/2 + yaw + rotationYawOffset − i·angleBetweenTraces`.
3. It compares each ray with the previous one, which it keeps in the `oldRay` field. Suppose the two disagree: their blocked flags differ, or both are blocked and their distances differ by more than `edgeDistThreshold`. Then `FindEdge` bisects the angle between them `resolutionOfEdgeDetection` times. The tick adds the near-side and far-side points it returns, skipping any that equal the zero vector.
4. It adds the ray's own point: the impact point if the ray was blocked, the trace end otherwise.
5. Finally `CreateMesh` lays a fan of triangles over the vertices, anchored at vertex 0.

The project has three modules:

- `ViewCast` (`viewcast.dfy`) holds the value types of `FieldOfViewComp.h`:
  - `Vector` stands for `FVector`, and `Zero` for `FVector::ZeroVector`;
  - `HitResult` holds the fields of the engine hit record that the component reads;
  - the class `ViewCastRes` stands for `FViewCastRes`, with its constructor and both assignment operators. Its field values as a datatype are `RayCast`.
- `Scan` (`scan.dfy`) states the algorithm of `FieldOfViewComp.cpp` on values, and proves what it promises:
  - the trace angles;
  - the discontinuity test (`Fires`) and FindEdge's sample test (`SameSide`);
  - the bisection (`Bisect`, `FindEdgeResult`);
  - the state after `n` loop iterations (`ScanAfter`) and the whole tick (`Tick`);
  - the triangle fan (`IsFan`).
- `FieldOfView` (`fieldofview.dfy`) holds the component as a class. It has the settings, the `oldRay` and `vertices` state, the predicate `ClampRanges`, which is the editor clamp ranges (FieldOfViewComp.h:69-94), and the predicate `Valid`, which adds that the derived step `angleBetweenTraces` is not negative. The constructor and `CalculateData` set the settings. `FindEdge`, `ScanRay` and `TickComponent` are loops over the component's state, proved equal to the `Scan` functions `FindEdgeResult`, the one-iteration step `StepVertices` and `Tick`. `CreateMesh` fills an array in a loop and is proved to produce a fan (`IsFan`).

The engine line trace is a parameter `trace: real -> HitResult`. It gives the hit record of the ray from the tick's start location at a given angle, out to `viewDistance`. The owner's location and yaw are parameters of `TickComponent`.

## Model

| member | source | states |
|---|---|---|
| ViewCast.ViewCastRes.constructor | FieldOfView/Source/FieldOfView/Public/FieldOfViewComp.h:19-20 | With the default arguments the record is unblocked, at distance 0 and angle 0, with the zero vector as its point; otherwise every field is the given argument |
| ViewCast.ViewCastRes.AssignCopy | FieldOfView/Source/FieldOfView/Public/FieldOfViewComp.h:21-28 | Copy assignment: afterwards all four fields equal the source record's fields from before the call |
| ViewCast.ViewCastRes.AssignHit | FieldOfView/Source/FieldOfView/Public/FieldOfViewComp.h:30-43 | Assigning a hit record: the blocked flag and the distance come from the hit; the point is the impact point when blocking and the trace end otherwise; the trace angle is unchanged |
| Scan.TraceAnglesNonIncreasing | FieldOfView/Source/FieldOfView/Private/FieldOfViewComp.cpp:48-50 | With a non-negative step, a later trace never has a larger angle than an earlier one |
| Scan.SweepSpansViewAngle | FieldOfView/Source/FieldOfView/Private/FieldOfViewComp.cpp:50 | When the step is viewAngle/(amountOfTraces−1): the first ray is at heading + viewAngle/2, the last at heading − viewAngle/2, and consecutive rays are exactly one step apart |
| Scan.FiresCharacterised | FieldOfView/Source/FieldOfView/Private/FieldOfViewComp.cpp:55-58 | Two unblocked rays never trigger refinement; two blocked rays trigger it exactly when their distances differ by more than the threshold; differing flags always trigger it; when it triggers, the previous ray passes FindEdge's sample test and the current ray fails it |
| Scan.BisectStepMovesOneSide | FieldOfView/Source/FieldOfView/Private/FieldOfViewComp.cpp:126-142 | One bisection iteration moves exactly one side to the midpoint, with the sample's point, and leaves the other side unchanged |
| Scan.BisectWidth | FieldOfView/Source/FieldOfView/Private/FieldOfViewComp.cpp:124-143 | After k iterations the signed width maxAngle − minAngle is the original width divided by 2^k |
| Scan.BisectWithin | FieldOfView/Source/FieldOfView/Private/FieldOfViewComp.cpp:124-143 | Both bracket ends stay within the original angle interval, in either orientation |
| Scan.BisectLabels | FieldOfView/Source/FieldOfView/Private/FieldOfViewComp.cpp:119-146 | Each side is either untouched, with its original angle and point (the zero vector in FindEdge), or was last set to a sample angle and that sample's point. The min side only takes samples that pass the test (same blocked flag as minRay and distance within the threshold); the max side only takes samples that fail it |
| Scan.BisectKeepsEdge | FieldOfView/Source/FieldOfView/Private/FieldOfViewComp.cpp:124-143 | Suppose the samples that pass the test are exactly the angles between minRay's angle and an edge angle. Then the edge stays inside the bracket after every number of iterations |
| Scan.BisectConverges | FieldOfView/Source/FieldOfView/Private/FieldOfViewComp.cpp:124-146 | Under the same single-edge hypothesis, after k iterations both returned sides are within \|original width\|/2^k of the edge |
| Scan.KeptEdgePointsOrdered | FieldOfView/Source/FieldOfView/Private/FieldOfViewComp.cpp:63-78 | The refined points the tick keeps: at most two, never the zero vector, each kept exactly when it is non-zero, the min-side point first and the max-side point last, and nothing else |
| Scan.NoRefinementKeepsNothing | FieldOfView/Source/FieldOfView/Private/FieldOfViewComp.cpp:119-146 | With zero iterations both outputs stay the zero vector, so the tick keeps no refined point |
| Scan.AppendEdgePointsKept | FieldOfView/Source/FieldOfView/Private/FieldOfViewComp.cpp:63-78 | The two conditional appends add exactly the kept refined points to the end of the list |
| Scan.StepVerticesAppends | FieldOfView/Source/FieldOfView/Private/FieldOfViewComp.cpp:55-97 | One loop iteration keeps the list it found and appends the iteration's points |
| Scan.StepPointsShape | FieldOfView/Source/FieldOfView/Private/FieldOfViewComp.cpp:55-97 | One iteration appends one to three points. The last is the ray's own point. Before it come no points unless refinement was triggered (i > 0 and the test fires), and otherwise exactly the kept refined points. None of them is the zero vector |
| Scan.ScanLast | FieldOfView/Source/FieldOfView/Private/FieldOfViewComp.cpp:98 | After at least one iteration, oldRay is the ray of the latest iteration |
| Scan.ScanStartsAtOrigin | FieldOfView/Source/FieldOfView/Private/FieldOfViewComp.cpp:36-47 | The vertex list is never empty and its first element is the start location |
| Scan.ScanIgnoresOldRay | FieldOfView/Source/FieldOfView/Private/FieldOfViewComp.cpp:55-98 | Nothing from the previous tick survives: after any iteration, vertices and oldRay do not depend on the oldRay the tick started with |
| Scan.ScanAppends | FieldOfView/Source/FieldOfView/Private/FieldOfViewComp.cpp:48-99 | Iteration n keeps the whole list built so far and appends its own points |
| Scan.ScanStep | FieldOfView/Source/FieldOfView/Private/FieldOfViewComp.cpp:55-97 | Iteration n keeps the earlier vertices as a prefix and appends one to three points. The last is the hit point of ray n. The points before it are none when no discontinuity was detected, and otherwise the kept FindEdge points between rays n−1 and n. None of them is zero |
| Scan.ScanStepCount | FieldOfView/Source/FieldOfView/Private/FieldOfViewComp.cpp:55-97 | Iteration n adds at least one point, and at most three when it refines an edge and exactly one otherwise |
| Scan.ScanVertexCount | FieldOfView/Source/FieldOfView/Private/FieldOfViewComp.cpp:36-99 | After n iterations the list has between 1 + n and 1 + n + 2·(discontinuities among the first n rays) vertices |
| Scan.ScanVertexCountWithoutRefinement | FieldOfView/Source/FieldOfView/Private/FieldOfViewComp.cpp:36-99 | With resolutionOfEdgeDetection = 0 the list has exactly 1 + n vertices, whatever the scene |
| Scan.FanWellFormed | FieldOfView/Source/FieldOfView/Private/FieldOfViewComp.cpp:150-157 | In a fan over V vertices every index is in [0, V), every third entry is the anchor 0, and triangle i shares the edge (0, i+1) with triangle i−1 |
| FieldOfView.FieldOfViewComp.constructor | FieldOfView/Source/FieldOfView/Private/FieldOfViewComp.cpp:9-31 | The defaults (120°, 120 traces, distance 1000, resolution 5, threshold 100, zero offsets), then a call of CalculateData: the step is 120/119; the result satisfies the clamp ranges and has a non-negative step |
| FieldOfView.FieldOfViewComp.CalculateData | FieldOfView/Source/FieldOfView/Private/FieldOfViewComp.cpp:103-106 | The step is viewAngle/(amountOfTraces − 1); the step times the number of gaps gives back viewAngle, and the step lies in [0, viewAngle], so the component is valid afterwards |
| FieldOfView.FieldOfViewComp.TickAnglesNonIncreasing | FieldOfView/Source/FieldOfView/Private/FieldOfViewComp.cpp:50 | In a valid component, the rays of a tick are cast in non-increasing angle order: ray j is at an angle no larger than ray i when i <= j |
| FieldOfView.FieldOfViewComp.FindEdge | FieldOfView/Source/FieldOfView/Private/FieldOfViewComp.cpp:117-147 | The out points are those of `FindEdgeResult` after resolutionOfEdgeDetection iterations. Exactly that many line traces are made, the j-th at the midpoint of the bracket after j iterations |
| FieldOfView.FieldOfViewComp.CreateMesh | FieldOfView/Source/FieldOfView/Private/FieldOfViewComp.cpp:148-163 | The index list has 3·(V − 2) entries, and triangle i is (0, i+1, i+2) |
| FieldOfView.FieldOfViewComp.ScanRay | FieldOfView/Source/FieldOfView/Private/FieldOfViewComp.cpp:50-98 | The state after one loop iteration for ray i is `StepVertices` applied to the state before. oldRay becomes ray i |
| FieldOfView.FieldOfViewComp.TickComponent | FieldOfView/Source/FieldOfView/Private/FieldOfViewComp.cpp:33-101 | vertices and oldRay are those of `Tick` for the oldRay the call started with. The first vertex is the start location. The count lies between 1 + amountOfTraces and 1 + amountOfTraces + 2·(discontinuities), and is exactly 1 + amountOfTraces without refinement. The triangles are the fan over the vertices. The clamp ranges still hold |

`ScanRay` is the body of the `for` loop of `TickComponent` (FieldOfViewComp.cpp:50-98), written as a method of its own. `TickComponent` calls it once per ray. It reads and updates the same fields in the same order as the loop body.

A tick does not always add two refined points per discontinuity. The code appends a refined point only when it is not the zero vector (FieldOfViewComp.cpp:63, 71), and `FindEdge` leaves a side at zero when the bisection never moved it (FieldOfViewComp.cpp:121-122). So the count of a tick with N rays lies between `1 + N` and `1 + N + 2·(discontinuities)`. The zero vector is also the sentinel for "no point produced", compared by exact equality as in the code. A refined point that genuinely lies at the origin is therefore dropped too.

## Left out

- The engine line trace (`Trace`, `LineTraceSingleByChannel`, the ignored-owner query parameter, FieldOfViewComp.cpp:165-172) is the oracle parameter `trace`. So the ray's end point (`DirFromAngle`, FieldOfViewComp.h:62-64) and `viewDistance` are not computed: the oracle stands for them.
- Trigonometry and IEEE single-precision rounding: angles, distances and coordinates are mathematical reals. `float` and `int32` widths are not modelled; `amountOfTraces` and `resolutionOfEdgeDetection` are unbounded integers.
- Debug drawing (FieldOfViewComp.cpp:43-46, 66-77, 83-95) has no effect on the state and is left out.
- Engine rendering glue is left out: the `procMesh` placement and mesh section, the empty normal/UV/tangent/colour arrays, `AssignMaterial`, `BeginPlay`, the tick setup and `CreateDefaultSubobject` (FieldOfViewComp.cpp:11, 30, 38-42, 108-115, 158-162, 173-183). `CreateMesh` returns the triangle index list instead of passing it to the mesh component.
- `GetOwnerLocation` and `GetOwnerRotation` are parameters of `TickComponent`. `FindEdge` recomputes the start location on each iteration; the oracle already fixes it.
- `PostEditChangeProperty` (FieldOfViewComp.cpp:185-191) only calls `CalculateData`, which is modelled. The UE reflection macros are left out too.
- The clamp ranges are enforced by the editor, so they are a precondition (`ClampRanges`, within `Valid`). The model does not clamp values written by other means.
- `angleBetweenTraces` is recomputed only by `CalculateData`. `Valid` records only that it is not negative, which `CalculateData` establishes. `TickComponent` uses the stored field as the code does, so `SweepSpansViewAngle` takes the relation to `viewAngle` and `amountOfTraces` as a hypothesis rather than assuming the field is up to date.
- FieldOfView.FieldOfViewComp.CreateMesh: requires at least two vertices. With fewer, `SetNum` would get a negative size, and the code does not handle that. `TickComponent` always has at least three.
- The local `FViewCastRes` records of the tick and of `FindEdge` are freshly allocated objects. The model does not capture that they live on the stack.
