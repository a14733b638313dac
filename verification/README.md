# Verified model of the planning, mapping and guarding components

This project models, in Dafny, the algorithmic core of a quadruped navigation stack and proves properties
of it for all inputs, all runs and all interleavings. Floating point is exact arithmetic over the reals,
machine integers are mathematical integers except where a file writes the wrap-around out.

| component | files |
|---|---|
| sliding occupancy map: ring buffer, inflation counters, per-frame hit/miss queue | VoxelWindow, Sliding, Inflation, InflationOffsets, LostInflation, GridMap, Evidence, MapRuns (on Remainders) |
| voxel traversal of a ray | RayCast |
| grid A* over a reused node pool | AStarSearch |
| B-splines: de Boor evaluation, derivatives, feasibility, stretching, interpolation | DeBoor, UniformBspline, SplineSpeed, SplineInterpolation |
| B-spline optimizer: costs with gradients, collision segments with their paths | BsplineCosts, BsplineOptimizer, CostLaws, CombinedCost, ReboundSegments |
| LiDAR/IMU synchronisation, filter time, local map window | ImuPropagation, LaserMapping, LocalMapBox |
| Livox driver: packet ring and wake-up protocol | LivoxQueue, LivoxWakeup |
| Nav2 bridge and sport-request guard | Nav2ScanBridge, Nav2History, CmdVelToSport |
| shared definitions and facts about products | Basics, Vectors, Products |

`dafny verify dfyconfig.toml` checks the whole project.

Code that updates objects, arrays or queues in place is modelled by classes and methods whose contracts tie
the new state to functions of the old one; the lemmas are about those functions. Concurrency is a state machine
over the atomic steps of the threads. Callbacks, timers, clocks, transforms and library results enter as
arbitrary parameters, so every statement holds for all of their values.

## What turned out not to hold

Each of these is a property one would expect. The model follows the code, and states when the property holds;
where a lemma is named first, it gives an input on which the property fails.

- After a slide the counters of entering cells are zero although occupied voxels that stayed may reach them
  (`SlideCanLoseInflation`). Such a counter is exact precisely when no retained occupied voxel reaches the cell
  (`EnteringExactIff`). After any run of frames and resets every counter is at most the number of occupied voxels
  around its cell, and equal to it for every voxel that never left the window since the last full reset
  (`CountersAfterRun`).
- Resetting a box clears its voxels in the window exactly when it has some there, or when its corners moved into the
  window enclose nothing (`BoundedBoxIff`); a box beside the window clears voxels of the border it lies beyond
  (`BesideTheWindow`).
- The ray traversal can visit a voxel that the ray never touches (`VoxelOffTheRay`). The voxels hold the ray for
  the whole of their stays exactly when no axis is travelled downwards from an integer coordinate
  (`StaysInsideIff`). That condition is about the stays: on a ray that breaks it, from (1, 1/2, 1/2) to
  (1/2, 1/2, 1/2), every visited voxel still touches the ray.
- The list form of the ray cast compares the distance of a voxel's lower corner with the length of the ray, and can
  drop the end voxel of a short ray (`ListCutShort`). The whole run is looked at exactly when no in-box voxel before
  the last has its corner beyond the cut-off (`ListWholeIff`). The form that fills an array compares that distance,
  not squared, with the squared length (`RaycastInto`); both lemmas cover it too.
- The segmentation of a colliding trajectory steps over the control point after each exit (`SteppedOver`). A fresh
  collision is inside a segment exactly when it does not come right after an exit, or a later fresh collision is
  looked at before the next free point (`FreshCoveredIff`); where the exits are is told by occupancy and freshness
  alone (`ExitsAreEnds`).
- Lengthening the time of a spline shortens it when there are fewer than twelve knots and the ratio is above one,
  except at eleven, where nothing changes (`LengthensIff`); four or five points give that few. A uniform spline stays
  valid for exactly the ratios of `UniformStretchIff`.
- `std::clamp` passes a NaN through, so a move is within the limits exactly where the command held numbers
  (`ClampWithinIff`).
- An odometry jump is also accepted when the reading follows the previous one by no time at all (`JumpInNoTime`), and
  the gap of one second is counted from the previous reading of any kind, not from the last one that was accepted, so
  a steady stream of far readings is refused for ever (`JumpNotForgotten`).
- A LiDAR loop-back empties the scan buffer but not the buffer of its begin times; the two stay paired exactly
  when no waiting scan is dropped (`LidarCallback`).
- The gradient handed to the solver has its vertical row cleared. It is tangent to the combined cost along level
  moves (`CombinedTangent`), and along all moves of the free columns exactly when the row it clears was zero on
  them (`TangentIff`).
- The feasibility penalty of one component lies above its tangents exactly when the limit is not negative
  (`HingeTangentIff`), and the distance penalty of one guide exactly when the clearance is not (`PushTangentIff`).

## What is taken for granted

- `OccupancyMap.Params.Sound`: the lower clamp is not above the upper one, and the unknown value does not count
  as occupied. The constructor requires it; the original takes its parameters as they come.
- `parameterizeToBspline` solves its overdetermined system by least squares; the interpolation result is about
  control points that satisfy it exactly. Exactly four boundary derivatives are passed in, as the code assumes
  after printing its error.
- Box deletion removes exactly the points of the half-open box
  (src/ws_fastlio/src/FAST_LIO/include/ikd-Tree/ikd_Tree.cpp:796).
- `last_lidar_end_time_` is read before it is first written; any value stands for it, and the time account starts
  at the end of the first undistorted frame.
- A bspline interval of zero divides by zero in the original and is excluded.

## Model

| member | source | states |
|---|---|---|
| VoxelWindow.LocalIndexIsEuclidean | src/SCAN-Planner/src/planner/plan_env/include/plan_env/grid_map.h:287-291 | the C remainder with its sign repair is the Euclidean remainder |
| VoxelWindow.Window.HashInvertsAddress | src/SCAN-Planner/src/planner/plan_env/src/grid_map.cpp:241-257 | every voxel of the window is recovered from its address, which lies in the buffer |
| VoxelWindow.Window.AddressInvertsHash | src/SCAN-Planner/src/planner/plan_env/src/grid_map.cpp:241-257 | every address of the buffer is the address of a voxel of the window |
| VoxelWindow.Window.CellsAreWindow | src/SCAN-Planner/src/planner/plan_env/include/plan_env/grid_map.h:277-299 | the buffer stores each voxel of the window exactly once |
| Sliding.AxisClearedIffLeaving | src/SCAN-Planner/src/planner/plan_env/src/grid_map.cpp:359-401 | along one axis, for either sign of the move, the cleared indices are exactly those that leave |
| Sliding.BelowOnEveryAxis | src/SCAN-Planner/src/planner/plan_env/src/grid_map.cpp:332-333 | a displacement is below the threshold exactly when each of its axes is |
| Sliding.ClearedIffLeaving | src/SCAN-Planner/src/planner/plan_env/src/grid_map.cpp:345-401 | the addresses cleared by a slide on any mix of axes and signs are exactly those of the voxels that leave the window |
| Sliding.CellsAfterMove | src/SCAN-Planner/src/planner/plan_env/src/grid_map.cpp:345-421 | a cleared address then stores a voxel the old window did not hold; every other address keeps its voxel |
| Sliding.JumpKeepsNothing | src/SCAN-Planner/src/planner/plan_env/src/grid_map.cpp:335-343 | a move by a whole window length keeps no voxel, so an all-unknown buffer is the right one |
| Sliding.SlideKeepsVoxels | src/SCAN-Planner/src/planner/plan_env/src/grid_map.cpp:345-421 | as a map from voxels to log-odds: retained voxels keep their value, entering ones are unknown |
| Inflation.ReachCountsVoxels | src/SCAN-Planner/src/planner/plan_env/src/grid_map.cpp:259-280 | with distinct offsets the counter specification is the number of occupied voxels that reach a cell |
| Inflation.Layer.BoundedAfterOccupying | src/SCAN-Planner/src/planner/plan_env/src/grid_map.cpp:288-300 | incrementing over the offsets keeps every counter at most its true count, and exact where no slide recycled the cell |
| Inflation.Layer.BoundedAfterFreeing | src/SCAN-Planner/src/planner/plan_env/src/grid_map.cpp:288-314 | the same for decrementing with the clamp at zero |
| Inflation.Layer.SlideKeepsBound | src/SCAN-Planner/src/planner/plan_env/src/grid_map.cpp:316-421 | the same for a slide that takes occupied voxels back from the cells that stay |
| Inflation.Layer.EnteringExactIff | src/SCAN-Planner/src/planner/plan_env/src/grid_map.cpp:403-415 | right after a slide an entering cell has its exact count precisely when no occupied voxel that stayed reaches it |
| LostInflation.SlideCanLoseInflation | src/SCAN-Planner/src/planner/plan_env/src/grid_map.cpp:403-415 | with the offsets the builder returns for a given cylinder, a concrete window and slide after which a cell beside an occupied voxel has counter zero |
| Inflation.ReachWitness | src/SCAN-Planner/src/planner/plan_env/src/grid_map.cpp:259-280 | a positive count has an occupied voxel at an offset |
| InflationOffsets.DiscInsideSquare | src/SCAN-Planner/src/planner/plan_env/src/grid_map.cpp:208-226 | the scanned square misses no displacement of the disc |
| InflationOffsets.RebuildInflationOffsets | src/SCAN-Planner/src/planner/plan_env/src/grid_map.cpp:208-226 | the list holds exactly the displacements of the cylinder, each once |
| InflationOffsets.CylinderIff | src/SCAN-Planner/src/planner/plan_env/src/grid_map.cpp:208-226 | in lengths, what that cylinder holds: strictly inside a positive radius, less than a voxel above and below the heights |
| OccupancyMap.GridMap.UpdateInflation | src/SCAN-Planner/src/planner/plan_env/src/grid_map.cpp:259-286 | every in-window cell that is not ignored moves by the number of offsets that hit it; flags stay equal to counter > 0 |
| OccupancyMap.GridMap.ApplyOccupancyUpdate | src/SCAN-Planner/src/planner/plan_env/src/grid_map.cpp:288-300 | stores the log-odds of that voxel alone and keeps the whole layer invariant |
| OccupancyMap.GridMap.ResetCellByAddress | src/SCAN-Planner/src/planner/plan_env/src/grid_map.cpp:302-314 | one voxel becomes unknown with counts zero; the layer invariant is kept |
| OccupancyMap.GridMap.CollectCleared | src/SCAN-Planner/src/planner/plan_env/src/grid_map.cpp:345-401 | the mask and the list name exactly the leaving addresses, each once |
| OccupancyMap.GridMap.TakeBackCleared | src/SCAN-Planner/src/planner/plan_env/src/grid_map.cpp:403-404 | the cells that stay lose exactly the occupied voxels that leave |
| OccupancyMap.GridMap.SlideBy | src/SCAN-Planner/src/planner/plan_env/src/grid_map.cpp:324-421 | a partial slide keeps the layer invariant, the retained log-odds and the record of recycled voxels |
| OccupancyMap.GridMap.UpdateSlidingMap | src/SCAN-Planner/src/planner/plan_env/src/grid_map.cpp:324-421 | moves to the sensor exactly when sliding is on and the sensor is the threshold or more from the origin on some axis; the log-odds map is the old one restricted to the new window, and the record of recycled voxels is kept, extended or emptied accordingly |
| OccupancyMap.GridMap.ResetBuffer | src/SCAN-Planner/src/planner/plan_env/src/grid_map.cpp:423-428 | all cells unknown, all counts zero, exactness regained everywhere |
| OccupancyMap.GridMap.ResetBox | src/SCAN-Planner/src/planner/plan_env/src/grid_map.cpp:430-447 | exactly the voxels of the clamped box become unknown; the layer invariant is kept |
| MapRuns.BoundedBoxIff | src/SCAN-Planner/src/planner/plan_env/src/grid_map.cpp:430-447 | the box moved into the window holds just the window's voxels of the box exactly when the box meets the window or nothing is left of it |
| MapRuns.BesideTheWindow | src/SCAN-Planner/src/planner/plan_env/include/plan_env/grid_map.h:301-307 | a concrete box beside the window whose reset clears a voxel that it does not hold |
| OccupancyMap.GridMap.SetCacheOccupancy | src/SCAN-Planner/src/planner/plan_env/src/grid_map.cpp:449-472 | the queue keeps listing, without repetition, exactly the voxels with a positive count |
| OccupancyMap.GridMap.ResolveVoxel | src/SCAN-Planner/src/planner/plan_env/src/grid_map.cpp:674-703 | one touched voxel moves by the hits >= misses verdict with saturation, and its counts return to zero |
| OccupancyMap.GridMap.DrainCache | src/SCAN-Planner/src/planner/plan_env/src/grid_map.cpp:671-704 | the queue ends empty with all counts zero; each queued voxel was settled exactly once and nothing else changed |
| OccupancyMap.GridMap.RaycastProcess | src/SCAN-Planner/src/planner/plan_env/src/grid_map.cpp:542-705 | a frame as a whole is: slide by that test, then one verdict per marked voxel computed from the number of its hits and marks; the record of recycled voxels is kept, extended by the entering ones or emptied as the window stays, slides or jumps |
| OccupancyMap.Resolve | src/SCAN-Planner/src/planner/plan_env/src/grid_map.cpp:678-703 | every stored log-odds stays unknown or within the clamps |
| OccupancyMap.GridMap.InflatedHasWitness | src/SCAN-Planner/src/planner/plan_env/src/grid_map.cpp:259-447 | in every reachable map each inflated cell has an occupied in-window voxel at an inflation offset |
| OccupancyMap.GridMap.OccupiedInflates | src/SCAN-Planner/src/planner/plan_env/src/grid_map.cpp:259-447 | a cell not recycled since the last full reset is inflated as soon as an occupied voxel reaches it |
| OccupancyMap.FrameComposes | src/SCAN-Planner/src/planner/plan_env/src/grid_map.cpp:542-705 | slide, gathering and draining compose into one statement about voxels |
| OccupancyMap.GridMap.constructor | src/SCAN-Planner/src/planner/plan_env/src/grid_map.cpp:108-131 | an empty map satisfies the layer and queue invariants |
| OccupancyMap.GridMap.ResetAllMapData | src/SCAN-Planner/src/planner/plan_env/src/grid_map.cpp:228-239 | every invariant holds again with exactness everywhere |
| OccupancyMap.GridMap.GatherMarks | src/SCAN-Planner/src/planner/plan_env/src/grid_map.cpp:449-472 | after the marks of a frame each count is the number of marks that name its voxel |
| OccupancyMap.MarksAreCounted | src/SCAN-Planner/src/planner/plan_env/src/grid_map.cpp:449-472 | the counts of a voxel are the numbers of marks that name it, all of them and the hits alone |
| Evidence.OrderKept | src/SCAN-Planner/src/planner/plan_env/src/grid_map.cpp:678-703 | of two voxels that get the same verdicts the one with the higher log-odds keeps at least the other's |
| Evidence.HitsRaise | src/SCAN-Planner/src/planner/plan_env/src/grid_map.cpp:678-703 | n frames that hits win in range raise the log-odds by n steps up to the clamp, from any stored value, unknown included |
| Evidence.MissesLower | src/SCAN-Planner/src/planner/plan_env/src/grid_map.cpp:678-703 | n frames that misses win in range lower the log-odds by n steps down to the clamp |
| Evidence.OutOfRange | src/SCAN-Planner/src/planner/plan_env/src/grid_map.cpp:691-703 | out of range a voxel forgets its history, unless it is saturated and hit |
| Evidence.OccupiedIff | src/SCAN-Planner/src/planner/plan_env/src/grid_map.cpp:678-703 | how many winning hit frames make a voxel occupied |
| Evidence.AnyPastIff | src/SCAN-Planner/src/planner/plan_env/src/grid_map.cpp:678-703 | frames make every voxel occupied whatever came before exactly when they make an unknown one so |
| MapRuns.Run | src/SCAN-Planner/src/planner/plan_env/src/grid_map.cpp:324-705 | any run of frames, box resets and full resets keeps the layer invariant, leaves every voxel the log-odds that its own resets, absences and verdicts make, and with sliding on leaves the origin nearer than the threshold to the last sensor index on every axis |
| MapRuns.FollowsSensor | src/SCAN-Planner/src/planner/plan_env/src/grid_map.cpp:324-343 | with sliding on the origin of the window stays nearer than the threshold, on every axis, to where the sensor was in the latest frame |
| MapRuns.CountersAfterRun | src/SCAN-Planner/src/planner/plan_env/src/grid_map.cpp:259-705 | after any run each counter is at most the number of occupied voxels around its cell, and equal to it for every voxel that stayed in the window since the last full reset |
| MapRuns.WatchedOdds | src/SCAN-Planner/src/planner/plan_env/src/grid_map.cpp:542-705 | over frames that each find a voxel in the window and mark it, its log-odds are what the verdicts add up to |
| RayCast.Mod1IsFraction | src/SCAN-Planner/src/planner/plan_env/src/raycast.cpp:10-12 | the double fmod is the distance above the floor, also for negative values |
| RayCast.NextAdvances | src/SCAN-Planner/src/planner/plan_env/src/raycast.cpp:277-321 | a step before the end moves one axis by one cell and never past its target |
| RayCast.Cast.MovesFirst | src/SCAN-Planner/src/planner/plan_env/src/raycast.cpp:287-318 | the earliest crossing is taken, and of equal ones that of z, then that of y |
| RayCast.TraversalReachesEnd | src/SCAN-Planner/src/planner/plan_env/src/raycast.cpp:228-321 | the traversal is over after exactly |dx|+|dy|+|dz| steps, in the end voxel, and successive voxels share a face |
| RayCast.TracedRayInVoxel | src/SCAN-Planner/src/planner/plan_env/src/raycast.cpp:228-321 | between entry and exit time the traced ray is inside the closed cube of the current voxel |
| RayCast.SegmentCovered | src/SCAN-Planner/src/planner/plan_env/src/raycast.cpp:228-321 | unless an axis is travelled downwards from an integer, every point of the segment lies in a visited voxel |
| RayCast.StaysInsideIff | src/SCAN-Planner/src/planner/plan_env/src/raycast.cpp:228-321 | every visited voxel holds the ray during the whole of its stay exactly when no axis is travelled downwards from an integer coordinate |
| RayCast.VoxelOffTheRay | src/SCAN-Planner/src/planner/plan_env/src/raycast.cpp:14-23 | a concrete ray visits a voxel it never touches |
| RayCast.RayCaster.SetInput | src/SCAN-Planner/src/planner/plan_env/src/raycast.cpp:228-275 | sets up the traversal; returns false exactly when start and end voxel coincide |
| RayCast.RayCaster.Step | src/SCAN-Planner/src/planner/plan_env/src/raycast.cpp:277-321 | reports the current voxel and moves on exactly when it is not the last |
| RayCast.Traverse | src/SCAN-Planner/src/planner/plan_env/src/grid_map.cpp:622-642 | the step loop terminates and marks the voxels of the whole run in order, each sharing a face with the next, without the one in which the ray ends |
| RayCast.Raycast | src/SCAN-Planner/src/planner/plan_env/src/raycast.cpp:128-226 | the list holds the in-box voxels of the run in order, cut at the end, at the first in-box corner beyond the end, or by the size limit |
| RayCast.RaycastInto | src/SCAN-Planner/src/planner/plan_env/src/raycast.cpp:25-126 | the array gets the in-box voxels of the run behind those it holds, cut at the end or at the first in-box corner whose distance exceeds the squared length |
| RayCast.CutsIff | src/SCAN-Planner/src/planner/plan_env/src/raycast.cpp:184-202 | in coordinates, which voxel ends either form of the list |
| RayCast.ListHolds | src/SCAN-Planner/src/planner/plan_env/src/raycast.cpp:184-202 | a list holds exactly the visited voxels whose lower corner is in the half-open box |
| RayCast.ListWholeIff | src/SCAN-Planner/src/planner/plan_env/src/raycast.cpp:128-226 | unless it gave up, the cast looks at the whole run exactly when no in-box voxel before the last is beyond the cut-off |
| RayCast.ListCutShort | src/SCAN-Planner/src/planner/plan_env/src/raycast.cpp:184-202 | whatever the box around both voxels, the list of a concrete short ray is its first voxel alone |
| AStarSearch.Search.RelaxKeepsValid | src/SCAN-Planner/src/planner/path_searching/src/dyn_a_star.cpp:227-280 | looking at one neighbour keeps every pushed cell linked to a closed parent with the exact score, and pushes a cell at most once |
| AStarSearch.Search.RelaxLooks | src/SCAN-Planner/src/planner/path_searching/src/dyn_a_star.cpp:227-280 | looking at a free neighbour leaves it, if open, with a score no higher than before and no higher than by way of the expanded cell |
| AStarSearch.Search.RelaxKeepsLooked | src/SCAN-Planner/src/planner/path_searching/src/dyn_a_star.cpp:227-280 | it raises no score above what any closed cell with an edge to it offers |
| AStarSearch.Search.PopKeepsValid | src/SCAN-Planner/src/planner/path_searching/src/dyn_a_star.cpp:207-225 | closing any member of the open set keeps the invariant, whatever order the heap yields |
| AStarSearch.Search.ScoreIsCost | src/SCAN-Planner/src/planner/path_searching/src/dyn_a_star.cpp:261-279 | along a chain of parents the score difference is the exact length of the chain |
| AStarSearch.Search.ParentClosed | src/SCAN-Planner/src/planner/path_searching/src/dyn_a_star.cpp:80-92 | every parent was closed before its child, so following parents is acyclic |
| AStarSearch.FreshSearchValid | src/SCAN-Planner/src/planner/path_searching/src/dyn_a_star.cpp:188-202 | a new round starts valid whatever earlier rounds left in the pool |
| AStarSearch.RetrievePath | src/SCAN-Planner/src/planner/path_searching/src/dyn_a_star.cpp:80-92 | terminates with a repetition-free chain from the goal to the start whose length is the goal's score |
| AStarSearch.WalkStaysClosed | src/SCAN-Planner/src/planner/path_searching/src/dyn_a_star.cpp:206-297 | when nothing is open, free walks from the start stay among the closed cells |
| AStarSearch.ExhaustedMeansUnreachable | src/SCAN-Planner/src/planner/path_searching/src/dyn_a_star.cpp:206-297 | an exhausted search proves the end unreachable through free in-bounds neighbours |
| AStarSearch.AStar.AstarSearch | src/SCAN-Planner/src/planner/path_searching/src/dyn_a_star.cpp:146-298 | terminates; success gives an edge path with exact score, no longer than by way of any closed cell with an edge to the goal; it fails only where the end is unreachable or the time limit has passed after the last expansion and not before; no cell is pushed twice in a round |
| AStarSearch.AStar.GetPath | src/SCAN-Planner/src/planner/path_searching/src/dyn_a_star.cpp:300-309 | the path in travel order is a walk from start to end |
| AStarSearch.AStar.RelaxNode | src/SCAN-Planner/src/planner/path_searching/src/dyn_a_star.cpp:243-279 | the pool node, the open set and the pushes change as one relaxation says; a free neighbour already open takes the lower of its score and the one by way of the expanded cell |
| AStarSearch.AStar.Expand | src/SCAN-Planner/src/planner/path_searching/src/dyn_a_star.cpp:227-280 | afterwards every edge of the closed cell leads to a pushed or blocked cell, whose score if open is no higher than by that edge |
| AStarSearch.AStar.CloseOne | src/SCAN-Planner/src/planner/path_searching/src/dyn_a_star.cpp:210-225 | any member of the open set may be closed; it is closed once |
| AStarSearch.AStar.Turn | src/SCAN-Planner/src/planner/path_searching/src/dyn_a_star.cpp:207-280 | each turn keeps the search invariant and closes one more pool cell |
| ImuPropagation.IntervalsAddUp | src/ws_fastlio/src/FAST_LIO/src/IMU_Processing.hpp:248-296 | over sorted messages the prediction intervals are non-negative and add up to the time covered |
| ImuPropagation.FrameConserved | src/ws_fastlio/src/FAST_LIO/src/IMU_Processing.hpp:248-306 | one frame propagates by exactly the time between the frame ends precisely when its last message lies between them |
| ImuPropagation.ImuProcess.ImuInit | src/ws_fastlio/src/FAST_LIO/src/IMU_Processing.hpp:156-218 | the running mean is the mean of all messages averaged so far |
| ImuPropagation.ImuProcess.UndistortFrame | src/ws_fastlio/src/FAST_LIO/src/IMU_Processing.hpp:220-306 | keeps: intervals since the end of the first undistorted frame are non-negative and sum to the last frame end minus that first end |
| ImuPropagation.ImuProcess.Process | src/ws_fastlio/src/FAST_LIO/src/IMU_Processing.hpp:346-380 | a frame with messages is undistorted exactly when at least a hundred messages were averaged before; else its messages are averaged and the time account is untouched |
| LaserMappingNode.Stream.CutKeepsOk | src/ws_fastlio/src/FAST_LIO/src/laserMapping.cpp:383-435 | a cut leaves only stamps >= the frame end, hands over only stamps <= it, and loses, doubles or reorders nothing |
| LaserMappingNode.LaserMapping.LidarCallback | src/ws_fastlio/src/FAST_LIO/src/laserMapping.cpp:283-308 | scan and time buffers stay paired exactly when no loop-back drops a waiting scan |
| LaserMappingNode.LaserMapping.ImuCallback | src/ws_fastlio/src/FAST_LIO/src/laserMapping.cpp:350-380 | an older stamp clears the buffer; otherwise the stream grows in order |
| LaserMappingNode.LaserMapping.SyncPackages | src/ws_fastlio/src/FAST_LIO/src/laserMapping.cpp:383-435 | a frame is completed exactly when a scan and a message wait and the stream has reached the frame's end, told from the scan, the pending frame and the mean scan time; it is a cut of the stream, and an incomplete one takes nothing |
| LaserMappingNode.LaserMapping.TimerCallback | src/ws_fastlio/src/FAST_LIO/src/laserMapping.cpp:958-992 | each ready frame is cut; the first is dropped, a later one with messages is undistorted exactly when at least a hundred messages were handed over since; over any run without IMU loop-back the time account holds, starting at the end of the first undistorted frame |
| LocalMapBox.SlabIsLeftBehind | src/ws_fastlio/src/FAST_LIO/src/laserMapping.cpp:251-277 | the slab of a moving axis holds exactly what that axis leaves behind |
| LocalMapBox.SlabsDeleteDifference | src/ws_fastlio/src/FAST_LIO/src/laserMapping.cpp:251-281 | the deleted boxes cover old box minus new box and meet the new one nowhere; if the move is no longer than the sides they hold nothing else |
| LocalMapBox.LocalMap.LasermapFovSegment | src/ws_fastlio/src/FAST_LIO/src/laserMapping.cpp:235-281 | each call shifts every axis of the cube as the face the LiDAR is near asks, keeps a LiDAR inside the cube inside if the cube is three ranges wide, and no retained point that was ever inside the window lies outside the current one |
| LocalMapBox.StaysInside | src/ws_fastlio/src/FAST_LIO/src/laserMapping.cpp:251-275 | a LiDAR inside the cube ends farther from the face it was near, by the length of the move |
| LocalMapBox.LocalMap.MovDistIs | src/ws_fastlio/src/FAST_LIO/src/laserMapping.cpp:260-260 | the move is 0.45 of what the cube has beyond three ranges, at least half a range, and keeps a LiDAR inside a cube three ranges wide |
| DeBoor.SpanEncloses | src/SCAN-Planner/src/planner/bspline_opt/src/uniform_bspline.cpp:60-72 | the span search stops in bounds on a span whose knots enclose the clamped parameter |
| DeBoor.NearestInDomain | src/SCAN-Planner/src/planner/bspline_opt/src/uniform_bspline.cpp:60-66 | a parameter outside the domain is taken to its nearer end |
| DeBoor.AlphaInUnit | src/SCAN-Planner/src/planner/bspline_opt/src/uniform_bspline.cpp:82-90 | every blending factor lies in [0, 1] |
| DeBoor.ValueConvex | src/SCAN-Planner/src/planner/bspline_opt/src/uniform_bspline.cpp:60-93 | the value is a convex combination of p + 1 successive control points |
| DeBoor.ValueWithin | src/SCAN-Planner/src/planner/bspline_opt/src/uniform_bspline.cpp:60-93 | the value keeps every componentwise limit the control points keep |
| UniformBsplines.UniformBspline.constructor | src/SCAN-Planner/src/planner/bspline_opt/src/uniform_bspline.cpp:14-41 | the knots are the uniform ones and strictly increasing |
| UniformBsplines.UniformBspline.EvaluateDeBoor | src/SCAN-Planner/src/planner/bspline_opt/src/uniform_bspline.cpp:60-93 | terminates in bounds for every parameter and in-place rounds compute the triangle's value |
| UniformBsplines.UniformBspline.GetDerivative | src/SCAN-Planner/src/planner/bspline_opt/src/uniform_bspline.cpp:99-123 | a valid spline of one degree less |
| UniformBsplines.SecondDerivativePoint | src/SCAN-Planner/src/planner/bspline_opt/src/uniform_bspline.cpp:163-172 | the acceleration expression of the check is the control point of the second derivative spline |
| UniformBsplines.FeasibleMeansBounded | src/SCAN-Planner/src/planner/bspline_opt/src/uniform_bspline.cpp:134-192 | a spline accepted by the check has first and second derivative splines that never leave the enlarged limits |
| SplineSpeed.SplineSlow | src/SCAN-Planner/src/planner/bspline_opt/src/uniform_bspline.cpp:60-123 | between any two times the spline moves on each axis by at most the limit its derivative's control points keep, times the time between |
| SplineSpeed.PolarDifference | src/SCAN-Planner/src/planner/bspline_opt/src/uniform_bspline.cpp:74-123 | neighbouring places of de Boor's triangle differ by the knot gap times the triangle of the derivative spline over the degree |
| SplineSpeed.PiecesJoin | src/SCAN-Planner/src/planner/bspline_opt/src/uniform_bspline.cpp:60-93 | the polynomials of neighbouring spans agree at their common knot |
| SplineSpeed.FeasibleMovesSlowly | src/SCAN-Planner/src/planner/bspline_opt/src/uniform_bspline.cpp:134-192 | a spline accepted by the check moves within the enlarged velocity limit, and its velocity spline changes within the enlarged acceleration limit |
| UniformBsplines.UniformBspline.CheckFeasibility | src/SCAN-Planner/src/planner/bspline_opt/src/uniform_bspline.cpp:134-192 | accepts exactly the splines whose velocity and acceleration control points have every component within limit * (1 + tolerance) + 0.0001, and reports a bound on the offending ones |
| UniformBsplines.StretchedSpans | src/SCAN-Planner/src/planner/bspline_opt/src/uniform_bspline.cpp:194-205 | with twelve knots or more stretching adds the same gain to each inner span, changes no outer one, and scales their total by the ratio |
| UniformBsplines.StretchedIncreasingIff | src/SCAN-Planner/src/planner/bspline_opt/src/uniform_bspline.cpp:194-205 | with twelve knots or more they stay increasing exactly when no inner span is shrunk to nothing |
| UniformBsplines.ShortIncreasingIff | src/SCAN-Planner/src/planner/bspline_opt/src/uniform_bspline.cpp:194-205 | with fewer than twelve knots they stay increasing exactly when the one span that changes does not shrink to nothing |
| UniformBsplines.LengthensIff | src/SCAN-Planner/src/planner/bspline_opt/src/uniform_bspline.cpp:194-205 | the time of the spline grows exactly for ratios above one with more than eleven knots, or below one with fewer than eleven |
| UniformBsplines.UniformStretchIff | src/SCAN-Planner/src/planner/bspline_opt/src/uniform_bspline.cpp:194-205 | a uniform spline can be stretched by exactly the positive ratios, or with fewer than twelve knots by those whose excess over one, times the knots missing to eleven, is below one |
| UniformBsplines.UniformBspline.LengthenTime | src/SCAN-Planner/src/planner/bspline_opt/src/uniform_bspline.cpp:194-205 | the in-place loops stretch the knots so, for every vector the indices fit |
| SplineInterpolation.WriteSystem | src/SCAN-Planner/src/planner/bspline_opt/src/uniform_bspline.cpp:209-265 | refuses exactly non-positive intervals and fewer than four points; otherwise writes the stated matrix and right-hand sides |
| SplineInterpolation.StencilRow | src/SCAN-Planner/src/planner/bspline_opt/src/uniform_bspline.cpp:232-247 | a row times a column picks three successive control points |
| SplineInterpolation.CubicAtKnot | src/SCAN-Planner/src/planner/bspline_opt/src/uniform_bspline.cpp:60-93 | at a knot the cubic is the 1-4-1 mean of three control points |
| SplineInterpolation.ExactSolutionInterpolates | src/SCAN-Planner/src/planner/bspline_opt/src/uniform_bspline.cpp:209-265 | an exact solution passes through every point at its knot time and its derivative splines take the given end velocities and accelerations |
| SplineInterpolation.DerivativeEnds | src/SCAN-Planner/src/planner/bspline_opt/src/uniform_bspline.cpp:99-123 | the derivative splines at a knot are the middle differences of three control points |
| BsplineCosts.ScatterTransposes | src/SCAN-Planner/src/planner/bspline_opt/src/bspline_optimizer.cpp:473-512 | adding a difference's slope to its columns is the transpose of taking the difference |
| BsplineCosts.SquaresExpand | src/SCAN-Planner/src/planner/bspline_opt/src/bspline_optimizer.cpp:473-512 | sums of squared differences expand exactly, with the accumulated gradient as linear term |
| BsplineCosts.TangentBelow | src/SCAN-Planner/src/planner/bspline_opt/src/bspline_optimizer.cpp:641-713 | for hinge penalties the accumulated gradient is a tangent from below with a quadratic gap |
| BsplineCosts.HingeTangentIff | src/SCAN-Planner/src/planner/bspline_opt/src/bspline_optimizer.cpp:658-676 | the feasibility penalty lies above its tangents exactly when the limit is not negative |
| BsplineCosts.PushTangent | src/SCAN-Planner/src/planner/bspline_opt/src/bspline_optimizer.cpp:422-439 | the distance penalty lies above its tangents by at most three clearances times the squared step |
| BsplineCosts.PushTangentIff | src/SCAN-Planner/src/planner/bspline_opt/src/bspline_optimizer.cpp:422-439 | it lies above its tangents exactly when the clearance is not negative |
| BsplineCosts.DistanceTangent | src/SCAN-Planner/src/planner/bspline_opt/src/bspline_optimizer.cpp:402-440 | with fixed base points and directions the distance cost lies above its tangent, within a quadratic form |
| BsplineOptimizers.SmoothnessExpands | src/SCAN-Planner/src/planner/bspline_opt/src/bspline_optimizer.cpp:473-512 | cost(q+d) = cost(q) + <gradient(q), d> + cost(d) in both branches, for any number of control points |
| BsplineOptimizers.CalcSmoothnessCost | src/SCAN-Planner/src/planner/bspline_opt/src/bspline_optimizer.cpp:473-512 | the loop accumulates that cost and gradient in place |
| CostLaws.JerkCost | src/SCAN-Planner/src/planner/bspline_opt/src/bspline_optimizer.cpp:473-498 | the cost vanishes exactly when every third difference does, is at least the square of each, and a further control point adds the square of the one it ends |
| CostLaws.BendCost | src/SCAN-Planner/src/planner/bspline_opt/src/bspline_optimizer.cpp:499-512 | the same for second differences in the other branch |
| BsplineOptimizers.FeasibilityTangent | src/SCAN-Planner/src/planner/bspline_opt/src/bspline_optimizer.cpp:641-713 | 0 <= cost(q+d) - cost(q) - <gradient(q), d> <= a fixed quadratic form of d |
| BsplineOptimizers.CalcFeasibilityCost | src/SCAN-Planner/src/planner/bspline_opt/src/bspline_optimizer.cpp:641-713 | the loops accumulate that cost and gradient axis by axis |
| CostLaws.FeasibilityZeroIff | src/SCAN-Planner/src/planner/bspline_opt/src/bspline_optimizer.cpp:641-713 | the cost vanishes exactly when every velocity and acceleration keeps its limit on every axis |
| CostLaws.FeasibilityGrows | src/SCAN-Planner/src/planner/bspline_opt/src/bspline_optimizer.cpp:641-713 | a further control point adds the squares of what its velocity and acceleration have beyond the limits |
| BsplineOptimizers.CalcDistanceCostRebound | src/SCAN-Planner/src/planner/bspline_opt/src/bspline_optimizer.cpp:418-440 | the loop accumulates the distance cost and gradient of the inner columns only |
| CostLaws.DistanceZeroIff | src/SCAN-Planner/src/planner/bspline_opt/src/bspline_optimizer.cpp:418-440 | for a positive clearance the cost vanishes exactly when every inner control point is the clearance past all its base points |
| CostLaws.PushPieces | src/SCAN-Planner/src/planner/bspline_opt/src/bspline_optimizer.cpp:426-438 | a shortfall is charged its cube up to the clearance, and from there the cube's second-order continuation |
| CombinedCosts.CombinedTangent | src/SCAN-Planner/src/planner/bspline_opt/src/bspline_optimizer.cpp:1148-1171 | along level moves of the free columns the vector given to the solver is tangent to the combined cost, from below and with a quadratic gap |
| CombinedCosts.WholeTangent | src/SCAN-Planner/src/planner/bspline_opt/src/bspline_optimizer.cpp:1148-1171 | the gradient before its vertical row is cleared is so along every move of the free columns |
| CombinedCosts.TangentIff | src/SCAN-Planner/src/planner/bspline_opt/src/bspline_optimizer.cpp:1148-1171 | the vector given to the solver is tangent along every move of the free columns exactly when the row it clears was zero on them |
| CombinedCosts.StationaryIsLeast | src/SCAN-Planner/src/planner/bspline_opt/src/bspline_optimizer.cpp:1148-1171 | where that vector vanishes no level move of the free columns lowers the cost |
| CombinedCosts.BsplineOptimizer.CombineCostRebound | src/SCAN-Planner/src/planner/bspline_opt/src/bspline_optimizer.cpp:1148-1171 | places the columns, and returns the weighted sum of the three costs and its gradient on the free columns with the vertical row cleared |
| ReboundSegments.CollectIsProper | src/SCAN-Planner/src/planner/bspline_opt/src/bspline_optimizer.cpp:727-790 | segments are in order with exit_k <= enter_(k+1), end on a free point and have only occupied ones strictly inside |
| ReboundSegments.FreshCoveredIff | src/SCAN-Planner/src/planner/bspline_opt/src/bspline_optimizer.cpp:727-790 | a fresh collision looked for is strictly inside a segment exactly when it is not right after an exit or a later one is looked at in the same run of occupied points |
| ReboundSegments.ExitsAreEnds | src/SCAN-Planner/src/planner/bspline_opt/src/bspline_optimizer.cpp:769-785 | occupancy and freshness alone tell where the segments end |
| ReboundSegments.SteppedOver | src/SCAN-Planner/src/planner/bspline_opt/src/bspline_optimizer.cpp:785-785 | a concrete fresh collision that no segment covers |
| ReboundSegments.GivesUpInside | src/SCAN-Planner/src/planner/bspline_opt/src/bspline_optimizer.cpp:768-783 | giving up means a fresh collision after which every control point is occupied |
| ReboundSegments.CollectSegments | src/SCAN-Planner/src/planner/bspline_opt/src/bspline_optimizer.cpp:721-790 | the nested loops compute those segments or give up, in bounds for every size |
| ReboundSegments.CoarseInOrder | src/SCAN-Planner/src/planner/bspline_opt/src/bspline_optimizer.cpp:795-827 | disjoint runs of ordered segments are ordered |
| ReboundSegments.TakeAnswer | src/SCAN-Planner/src/planner/bspline_opt/src/bspline_optimizer.cpp:800-826 | one answer keeps, joins or drops exactly one segment |
| ReboundSegments.FindPaths | src/SCAN-Planner/src/planner/bspline_opt/src/bspline_optimizer.cpp:792-827 | terminates for every sequence of answers; path k was found for the ends of segment k and order is kept; each collected segment has its path or was dropped by a named answer, segments join only where a search failed, and usable answers throughout leave the collected segments |
| ReboundSegments.LookedAtIff | src/SCAN-Planner/src/planner/bspline_opt/src/bspline_optimizer.cpp:721-730 | which control points are looked at, without division |
| ReboundSegments.CheckCollisionAndRebound | src/SCAN-Planner/src/planner/bspline_opt/src/bspline_optimizer.cpp:718-827 | both loops together, including when the call gives up; the collected segments hold the fresh collisions looked at, as that condition says |
| LivoxQueue.RoundupPowerOf2 | src/ws_livox/src/livox_ros_driver2/src/comm/ldq.h:16-26 | the least power of two not below the size, up to the largest of 32 bits |
| LivoxQueue.LidarDataQueue.PushAny | src/ws_livox/src/livox_ros_driver2/src/comm/ldq.cpp:108-121 | appends to the first-in first-out contents and disturbs no packet waiting |
| LivoxQueue.LidarDataQueue.Pop | src/ws_livox/src/livox_ros_driver2/src/comm/ldq.cpp:69-98 | removes and returns the oldest packet |
| LivoxQueue.LidarDataQueue.FullAndEmpty | src/ws_livox/src/livox_ros_driver2/src/comm/ldq.cpp:100-106 | the index tests say exactly that the contents are empty or fill the ring |
| LivoxQueue.LidarDataQueue.constructor | src/ws_livox/src/livox_ros_driver2/src/comm/ldq.cpp:9-36 | an empty ring of at least the size asked for, up to the largest of 32 bits |
| LivoxWakeup.StepKeeps | src/ws_livox/src/livox_ros_driver2/src/lds.cpp:170-196 | every step of every thread keeps: a non-empty queue is about to be announced, a wake-up is pending, or the consumer still gets to it |
| LivoxWakeup.NoLostWakeUp | src/ws_livox/src/livox_ros_driver2/src/lds.cpp:99-123 | no interleaving leaves the publisher waiting on a zero semaphore beside a non-empty queue with idle producers |
| LivoxWakeup.ReachableIsSafe | src/ws_livox/src/livox_ros_driver2/src/lddc.cpp:118-184 | packets leave each queue in the order stored, queues never overflow, pending wake-ups never exceed the lidars |
| LivoxWakeup.StepUsesWork | src/ws_livox/src/livox_ros_driver2/src/lddc.cpp:162-184 | every step but an arrival uses up a bounded measure of work |
| LivoxWakeup.EverythingIsTaken | src/ws_livox/src/livox_ros_driver2/src/lddc.cpp:118-231 | unless packets keep arriving the threads come to rest within that bound, and only when every stored packet has been taken |
| LivoxWakeup.Driver.PushLidarData | src/ws_livox/src/livox_ros_driver2/src/lds.cpp:170-196 | the call is a run of producer steps; a full queue drops the packet but still announces |
| LivoxWakeup.ArrivalIsStored | src/ws_livox/src/livox_ros_driver2/src/lds.cpp:183-196 | a packet that arrives is stored exactly when its queue holds fewer than the size, whatever other threads do meanwhile |
| LivoxWakeup.Driver.Distribute | src/ws_livox/src/livox_ros_driver2/src/lddc.cpp:118-138 | the call is a run of consumer steps that empties every queue |
| Nav2ScanBridges.KeptThins | src/scan_nav2_navigation/src/nav2_scan_bridge.cpp:237-256 | the SCAN path is a subsequence from the first pose to the last or within 1e-6 of it, gaps >= spacing except perhaps the last, dropped interior waypoints nearer than the spacing |
| Nav2ScanBridges.ApartIff | src/scan_nav2_navigation/src/nav2_scan_bridge.cpp:240-252 | what far and near mean, in coordinates |
| Nav2ScanBridges.Thin | src/scan_nav2_navigation/src/nav2_scan_bridge.cpp:210-262 | the loop computes that subsequence and refuses fewer than two waypoints |
| Nav2ScanBridges.NextKeepsValid | src/scan_nav2_navigation/src/nav2_scan_bridge.cpp:98-209 | goals, ticks, rejections and results keep the request invariant |
| Nav2ScanBridges.ReachableIsSafe | src/scan_nav2_navigation/src/nav2_scan_bridge.cpp:98-209 | at most one request of the current goal is on its way, exactly one while planning for an active goal, and each published path answers the goal of its moment |
| Nav2ScanBridges.PublishedAreUsable | src/scan_nav2_navigation/src/nav2_scan_bridge.cpp:210-268 | every SCAN path published in a run is such a thinned path of at least two waypoints |
| Nav2Histories.RunTells | src/scan_nav2_navigation/src/nav2_scan_bridge.cpp:98-209 | after every run the fields hold what the history of messages says: whether a goal is active, whether an answer is awaited and since when |
| Nav2Histories.EventDoes | src/scan_nav2_navigation/src/nav2_scan_bridge.cpp:98-268 | what each event does, from the history alone: it requests a plan exactly for a new goal or a due tick with the planner ready, and publishes the thinned plan exactly on the awaited usable answer |
| Nav2ScanBridges.Nav2ScanBridge.GoalCallback | src/scan_nav2_navigation/src/nav2_scan_bridge.cpp:98-116 | a goal that cannot be transformed changes nothing; any other supersedes and requests |
| Nav2ScanBridges.Nav2ScanBridge.TimerCallback | src/scan_nav2_navigation/src/nav2_scan_bridge.cpp:118-137 | stops at the goal, else requests only when idle and due |
| Nav2ScanBridges.Nav2ScanBridge.ResultCallback | src/scan_nav2_navigation/src/nav2_scan_bridge.cpp:188-207 | results of superseded or finished goals publish nothing |
| Nav2ScanBridges.Nav2ScanBridge.GoalResponseCallback | src/scan_nav2_navigation/src/nav2_scan_bridge.cpp:177-187 | only a rejection of the current goal ends the planning |
| Nav2ScanBridges.Nav2ScanBridge.PublishPaths | src/scan_nav2_navigation/src/nav2_scan_bridge.cpp:210-268 | publishes exactly the usable transformed paths |
| CmdVelToSports.ClampWithinIff | src/SCAN-Planner/src/planner/plan_manage/src/cmd_vel_to_sport.cpp:84-86 | a clamped value is within the limit exactly when the input is a number |
| CmdVelToSports.ClampedIsNearest | src/SCAN-Planner/src/planner/plan_manage/src/cmd_vel_to_sport.cpp:84-86 | each velocity sent is the admissible value nearest to the command's on the same axis |
| CmdVelToSports.PlausibleIff | src/SCAN-Planner/src/planner/plan_manage/src/cmd_vel_to_sport.cpp:95-97 | a plausible reading has three finite coordinates none farther from zero than permitted |
| CmdVelToSports.StateTells | src/SCAN-Planner/src/planner/plan_manage/src/cmd_vel_to_sport.cpp:82-127 | the fields always hold what the history of messages says, in particular which odometry readings count |
| CmdVelToSports.EventSends | src/SCAN-Planner/src/planner/plan_manage/src/cmd_vel_to_sport.cpp:129-185 | what each event sends, from the history alone: a move exactly with fresh command, counting fresh odometry and required fresh confidence; a stop exactly when the last request was a move |
| CmdVelToSports.SentStopsOnce | src/SCAN-Planner/src/planner/plan_manage/src/cmd_vel_to_sport.cpp:148-185 | requests form runs of moves each followed by at most one stop, never starting with a stop |
| CmdVelToSports.SentWithinLimits | src/SCAN-Planner/src/planner/plan_manage/src/cmd_vel_to_sport.cpp:82-89 | every move is within the velocity limits wherever the commands held numbers |
| CmdVelToSports.MoveAfterJump | src/SCAN-Planner/src/planner/plan_manage/src/cmd_vel_to_sport.cpp:91-119 | after a reading that did not count, a move needs a later one within the permitted jump of the last that counted, or following a gap |
| CmdVelToSports.JumpInNoTime | src/SCAN-Planner/src/planner/plan_manage/src/cmd_vel_to_sport.cpp:91-119 | two readings of one time, farther apart than the permitted jump, both count and the next tick moves |
| CmdVelToSports.JumpNotForgotten | src/SCAN-Planner/src/planner/plan_manage/src/cmd_vel_to_sport.cpp:91-119 | while no reading follows a gap and all stay beyond the jump none counts, however long that takes |
| CmdVelToSports.CmdVelToSport.OdomCallback | src/SCAN-Planner/src/planner/plan_manage/src/cmd_vel_to_sport.cpp:91-119 | the callback judges a reading so |
| CmdVelToSports.CmdVelToSport.PublishCommand | src/SCAN-Planner/src/planner/plan_manage/src/cmd_vel_to_sport.cpp:148-185 | the timer sends so |

## Left out

- ROS publishers, subscriptions, parameters, transforms, logging, visualisation and message conversion.
- L-BFGS, the QR solve, point-cloud registration, the k-d tree and the Kalman update, beyond their results.
- Rounding and overflow of floating point, and the fixed width of the frame stamp, flag and counter types.
- OccupancyMap.GridMap.RaycastProcess: the marks of a frame are an arbitrary list; which voxels the rays mark, and the
  early end of a ray at a voxel already traversed or ended in (flag_rayend_, flag_traverse_), are not modelled.
- OccupancyMap.GridMap.UpdateSlidingMap: the box of recently updated voxels (local_bound_min_, local_bound_max_) is
  not modelled; positions are given as voxel indices.
- RayCast.RaycastInto: the array is taken to have room for every voxel of the ray; the original writes unchecked.
- AStarSearch.AStar.AstarSearch: which member the heap yields is left open, so optimality is not stated; heuristics
  and fScore do not appear. Conversion between coordinates and indices is not part of this model.
- AStarSearch.ExhaustedMeansUnreachable: when occupancy depends on the heading, only walks through cells free for every
  heading are covered, because a cell blocked from one heading keeps stale state and may never be pushed.
- UniformBsplines.UniformBspline.CheckFeasibility: the returned ratio is not modelled, because it takes a square root;
  the two maxima it is computed from are.
- UniformBsplines.UniformBspline.LengthenTime: with eleven knots the original divides zero by zero and never uses the
  quotient; zero stands for it.
- ImuPropagation.ImuProcess.UndistortFrame: rotations, poses, gyroscope means and covariances, and the backward
  compensation of points are not modelled.
- LaserMappingNode.LaserMapping.SyncPackages: the frame record is filled when the frame completes; the original fills
  begin and end time one step earlier, where nothing reads them.
- LaserMappingNode.LaserMapping.ImuCallback: the correction of stamps by a measured offset happens before the call.
- BsplineOptimizers.CalcDistanceCostRebound: the renewed collision check it may make first, which can add base points,
  is a separate component here.
- ReboundSegments.CheckCollisionAndRebound: how base points and directions are derived from a path is not modelled.
- The fitness cost of the refinement stage, which adds only another quadratic form.
- LivoxWakeup.StepKeeps: index reads and writes of the packet ring are atomic and in program order; lidars are always
  sampling, the output format is a supported one, and no exit is requested.
- LivoxWakeup.ReachableIsSafe: the queues are sequences, the contents that LivoxQueue.LidarDataQueue.PushAny and Pop are
  proved to keep; the ring indices are not steps of the wake-up protocol.
- LivoxWakeup.EverythingIsTaken: packets refused by a full queue are not part of what was stored.
- Nav2ScanBridges.ReachableIsSafe: the goal counter does not wrap, and each request gets at most one reply.
- The preprocessing, the closed-loop controller, global localization and the user-interface scripts, which would add
  easier members or depend on modules outside the repository.
