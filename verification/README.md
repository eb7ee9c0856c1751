# Verified model of the mapping and RTK fusion core

This project models the algorithms and protocols at the core of the lidar-inertial-visual mapping system and its
RTK extensions, and proves what they promise. Reals stand for doubles.

- **Time-series alignment** (`WarpGrid`, `DtwOptimum`, `SearchWindows`, `CostMatrix`, `WarpPaths`, `Dtw`, `Paa`,
  `ExpandedResWindow`, `WindowCells`, `WindowSize`, `FastDtw`): dynamic time warping over the whole matrix and inside a
  search window, averaging, projection of a coarse path and the halving recursion, ending in statements about the whole
  stack: a legal path, its cost, never below the exact distance, exact for short series, and a linear number of cells
  evaluated.
- **Realtime global filter** (`Matrices`, `KalmanAlgebra`, `EsikfModel`, `ExponentialMap`, `EsikfLinearisation`,
  `RtkQueue`, `GlobalEsikf`, `EsikfUpdates`): the error-state filter with its covariance algebra, the derivatives that
  its jacobians and its transition stand for, how far a measurement moves the state towards what was observed, and its
  time-ordered RTK queue; the matcher of the global backend beside it.
- **Voxel octree** (`OctreeModel`, `OctreeGeometry`, `OctreeCache`, `OctreePoints`, `OctreeHistory`, `VoxelOctoTrees`,
  `VoxelForest`, `VoxelMaps`): the adaptive tree as a value and in memory, cubes, cached planes and points, when a node
  is fitted and closed, the map of trees over builds and scans.
- **Data cutting and propagation times** (`DataCut`, `ImuPropagation`, `SyncRuns`, `SyncAccounts`, `SyncBatches`,
  `SyncExamples`, `SyncImages`, `LivMapper`): the queues, the cut of lidar frames at image times, the alternation of
  packages and the books of points, samples, images, fixes and time.
- **Global backend** (`ScanContext`, `ScanCloud`, `RingKeys`, `LoopCandidates`, `KeyframeQueue`, `PoseGraph`,
  `BackendFrames`, `BackendRuns`): place descriptors, loop candidates, the keyframe queue with its worker, the
  bookkeeping of the pose graph, and interleaved runs of queue, RTK arrivals and graph together.
- **Shared timestamp** (`TimestampShare`): the sequence lock between lidar and camera driver, as interleaved loads and
  stores.
- **CGI check value** (`LinearRegister`, `CrcWord`, `CgiCrc`): the reflected CRC-32 of section 8 of RFC 1952 with zero
  initial value and no final complement, and the errors it detects.

`Basics` holds what several of them share.

Each imperative part of the source is a class or a method with the source's loops, proved against a function or a
relation; the properties of that function or relation are separate lemmas. Libraries (rotations, the LDLT solver, the
plane fit, the square root, polar angles, point-cloud registration, the gate of a residual) are parameters of which
only what a lemma names in its `requires` is assumed.

Where the code does not do what one would expect of it, the project says exactly when it does:

- `reserve(maxI + maxJ - 1)` is called with -1 when both series have one point, which throws. `FastDtw` proves when the
  recursion gets there: never with a positive radius (unless given two such series), and with radius zero exactly when
  halving brings both sizes to three together.
- In a window that no path crosses, the walk back of the warping leaves the matrix, or leaves the window and returns its
  path with an infinite distance (`DtwOptimum.StraysIff`, `DtwOptimum.AlignedIffCrossed`). Every window the program
  builds is crossed (`ExpandedResWindow.RefinedWindowIsCrossed`).
- The backend drops RTK observations older than five seconds before it looks for the nearest, so a larger tolerance is
  not honoured: an observation within it can be missed, or a farther one used. `RtkQueue.BackendMatchIsGlobalIff` says
  exactly when neither happens; `RtkQueue.LargerToleranceIsNotHonoured` and `RtkQueue.NearerOldOneIsPassedOver` are
  inputs for which each does.
- RTK fixes are kept in order of arrival, and the loop over them stops at the first that is beyond the cut, so a fix
  that was overtaken can be missed. `DataCut.NewestForAllIff` says exactly when none is, `DataCut.OvertakenIsMissed` is
  an input for which one is.
- `imu_cbk` accepts a sample with the stamp of the one before. When a cut fell on that stamp in between, the sample is
  dropped (`SyncBatches.BatchesAreCompleteIff`, `SyncExamples.LateTwinIsLost`).
- Keyframes that the callback accepted and the worker took can still be turned away. None is exactly when each is apart
  from the one taken before it (`BackendRuns.EveryTakenIsNodeIff`), and so as long as the queue has dropped none
  (`BackendRuns.WithoutDropsEveryTakenIsNode`); `BackendRuns.DropHidesKeyframe` shows one that is.
- The filter's transition keeps the velocity error although the prediction sets the velocity anew. Its velocity rows are
  right exactly for the errors that `EsikfLinearisation.VelocityRowsDescribeIff` names, wrong for every pure velocity
  error, and never the derivative (`EsikfLinearisation.VelocityRowsAreNoDerivative`).
- Points carried over to the next cloud are stored with the time of the cut as base and read with
  `last_lio_update_time`. Until the inertial filter is initialised the two differ and those points are shifted
  (`SyncAccounts.CarriedPointsKeepTimesIff`, `SyncExamples.StartupShiftsCarriedPoint`).
- An image at whose time a cut was made is shown in the next cycle only if the cut left, or arrivals brought, a lidar
  frame and an inertial sample; until then it waits (`SyncImages.CoveredIsServed`).
- The propagation steps leave out the end of an interval that holds a single sample
  (`ImuPropagation.StepsFillInterval`).
- A split that freezes a leaf resets the new-point count of the parent and not of the leaf; both counts are reset later
  anyway, and `VoxelOctoTrees.VoxelOctoTree.CutOctoTree` says so.

## Model

| member | source | states |
|---|---|---|
| DtwOptimum.PredecessorExplains | src/fast_livo/include/FastDTW/DTW.h:158-180 | The neighbour the tie-breaking rules pick is the one whose value, plus the local cost, explains a cell's finite value |
| DtwOptimum.PredecessorIsLeast | src/fast_livo/include/FastDTW/DTW.h:158-180 | The walk back never moves to a cell of greater value than another it could have moved to; of equal ones it prefers the diagonal one, then the one nearest to the axis, then the lower one |
| DtwOptimum.TracebackCost | src/fast_livo/include/FastDTW/DTW.h:287-332 | The traceback from a finite cell is a legal path from (0,0) that stays inside the window and costs exactly the cell's value |
| DtwOptimum.ValueIsLeast | src/fast_livo/include/FastDTW/DTW.h:256-285 | No legal path inside the window to a cell is cheaper than the value the recurrence gives it |
| DtwOptimum.ValueFiniteIffReachable | src/fast_livo/include/FastDTW/DTW.h:298-312 | A cell has a finite value exactly when some legal path inside the window reaches it; elsewhere infinity stands for "no path" |
| DtwOptimum.WindowedWarpIsOptimal | src/fast_livo/include/FastDTW/DTW.h:235-335 | Windowed warping of a crossable window returns a legal path inside it whose summed local cost is the distance, and no legal path inside is cheaper |
| DtwOptimum.FullIsCrossable | src/fast_livo/include/FastDTW/DTW.h:100-124 | The whole matrix always holds a legal path, so the full variant always has an answer |
| DtwOptimum.FullWarpIsExact | src/fast_livo/include/FastDTW/DTW.h:82-185 | Full warping returns the minimum over all legal warp paths and a path that attains it |
| DtwOptimum.WiderIsNoWorse | src/fast_livo/include/FastDTW/DTW.h:235-335 | If one window lies in another, the distance in the wider one is not greater |
| DtwOptimum.StraysIff | src/fast_livo/include/FastDTW/DTW.h:290-332 | The walk back from a cell leaves the matrix if and only if the cell is off the main diagonal and no neighbour of any cell diagonally below it is reachable |
| DtwOptimum.AlignedIffCrossed | src/fast_livo/include/FastDTW/DTW.h:235-335 | The windowed algorithm ends with a finite distance if and only if some legal path crosses the window; otherwise its walk leaves the matrix or its path leaves the window at infinite distance |
| Dtw.CalcWarpCost | src/fast_livo/include/FastDTW/DTW.h:29-37 | The loop sums the local costs of a path |
| SearchWindows.MarkGrows | src/fast_livo/include/FastDTW/SearchWindow.h:304-324 | Marking a cell puts it in the window and takes no cell away |
| SearchWindows.MarkAllIsHull | src/fast_livo/include/FastDTW/SearchWindow.h:304-324 | After any marks a cell is in the window exactly when it lies between two cells of its column that were in it or were marked |
| SearchWindows.WalkIsExact | src/fast_livo/include/FastDTW/SearchWindow.h:96-112 | On a usable window the iterator visits each cell exactly once, in column-major order, nothing else, and as many as the kept size |
| SearchWindows.DestinationIsFurthest | src/fast_livo/include/FastDTW/SearchWindow.h:188-290 | Each of the eight moves ends at the furthest cell in its direction that is at most radius away and inside the matrix |
| SearchWindows.SpreadWindowIsHull | src/fast_livo/include/FastDTW/SearchWindow.h:175-294 | The expanded window is, column by column, the hull of the old cells and the furthest cells in the eight directions |
| WindowCells.ExpandedReaches | src/fast_livo/include/FastDTW/SearchWindow.h:175-302 | From every cell of the window the expanded one reaches the whole radius, in all eight directions, or the edge of the matrix |
| WindowCells.ExpandedStaysNear | src/fast_livo/include/FastDTW/SearchWindow.h:175-302 | Below and above every cell of the expanded window, in its column, is one no further than the radius from the window |
| SearchWindows.SearchWindow.constructor | src/fast_livo/include/FastDTW/SearchWindow.h:114-118 | A new window holds no cell and has size 0 |
| SearchWindows.SearchWindow.MarkVisited | src/fast_livo/include/FastDTW/SearchWindow.h:304-324 | In-place marking keeps the size equal to the number of cells, and the modification count moves exactly when the window changes |
| SearchWindows.SearchWindow.MoveTowards | src/fast_livo/include/FastDTW/SearchWindow.h:188-290 | One direction of the expansion marks exactly the furthest cell and never one outside the matrix |
| SearchWindows.SearchWindow.CollectCells | src/fast_livo/include/FastDTW/SearchWindow.h:180-185 | The cells read before the expansion are those of the walk, in its order |
| SearchWindows.SearchWindow.ExpandSearchWindow | src/fast_livo/include/FastDTW/SearchWindow.h:175-294 | The loop over a frozen list of cells yields the window that SpreadWindowIsHull describes |
| SearchWindows.SearchWindow.ExpandWindow | src/fast_livo/include/FastDTW/SearchWindow.h:296-302 | A positive radius expands by one and then by the rest; otherwise nothing changes |
| SearchWindows.SearchWindowIterator.constructor | src/fast_livo/include/FastDTW/SearchWindow.h:81-84 | A new iterator has the whole walk ahead of it |
| SearchWindows.SearchWindowIterator.Next | src/fast_livo/include/FastDTW/SearchWindow.h:96-112 | Each call hands out the first of the cells still to come and leaves the others |
| CostMatrix.AddressOrders | src/fast_livo/include/FastDTW/MemoryResidentMatrix.h:28-52 | Two different cells never share a storage index |
| CostMatrix.AddressIsPosition | src/fast_livo/include/FastDTW/MemoryResidentMatrix.h:28-52 | A cell's storage index is its place in the iterator's order |
| CostMatrix.MemoryResidentMatrix.constructor | src/fast_livo/include/FastDTW/MemoryResidentMatrix.h:28-35 | The offset of every column is the number of cells in the columns before it |
| CostMatrix.MemoryResidentMatrix.Get | src/fast_livo/include/FastDTW/MemoryResidentMatrix.h:43-52 | Reads outside the window give infinity |
| CostMatrix.MemoryResidentMatrix.Put | src/fast_livo/include/FastDTW/MemoryResidentMatrix.h:37-41 | A store changes the cell it names and no other |
| WarpPaths.WarpPath.Reserving | src/fast_livo/include/FastDTW/WarpPath.h:63-67 | A negative capacity is the one thing that fails |
| WarpPaths.WarpPath.AddFirst | src/fast_livo/include/FastDTW/WarpPath.h:41-43 | The two index vectors grow together at the front |
| Dtw.FillWindow | src/fast_livo/include/FastDTW/DTW.h:254-282 | The loop over the iterator leaves the value of the recurrence in every cell of the compact matrix |
| Dtw.StepBack | src/fast_livo/include/FastDTW/DTW.h:316-328 | The five-way comparison chooses the predecessor of the specification |
| Dtw.ReadPath | src/fast_livo/include/FastDTW/DTW.h:287-332 | The walk back over the compact matrix ends as specified: refused for two single points, strayed when it leaves the matrix, or a path |
| Dtw.WarpInWindow | src/fast_livo/include/FastDTW/DTW.h:235-335 | Windowed dynamic time warping returns the specified alignment, also in windows that no path crosses |
| Dtw.FillFull | src/fast_livo/include/FastDTW/DTW.h:102-123 | The nested loops leave the value of the recurrence in every cell |
| Dtw.WarpFull | src/fast_livo/include/FastDTW/DTW.h:82-185 | Full dynamic time warping returns distance and path of FullWarp |
| Paa.BlockSizeIsEven | src/fast_livo/include/FastDTW/PAA.h:32-38 | Every block has floor(n/m) or ceil(n/m) points, and none is empty |
| Paa.BlockEnds | src/fast_livo/include/FastDTW/PAA.h:33-57 | The blocks start at the first point and end at the last |
| Paa.BlockStartGrows | src/fast_livo/include/FastDTW/PAA.h:35-56 | Block starts strictly increase, so the blocks partition the points |
| Paa.ShrunkIsValid | src/fast_livo/include/FastDTW/PAA.h:49-55 | The averaged times still strictly increase and there are exactly m of them |
| Paa.AveragesConserveSum | src/fast_livo/include/FastDTW/PAA.h:42-53 | Averages weighted by block size add up to the sum of the original values |
| Paa.BlockIsAveraged | src/fast_livo/include/FastDTW/PAA.h:42-55 | Each shrunk time and coordinate, as often as its block has points, adds up to the original values of just that block |
| Paa.PAA.constructor | src/fast_livo/include/FastDTW/PAA.h:25-58 | The constructor's loop produces the shrunk series and the block sizes |
| ExpandedResWindow.BlockOffsetIsStart | src/fast_livo/include/FastDTW/ExpandedResWindow.h:45-54 | The running sums of aggregate sizes are the block starts of the averaging |
| ExpandedResWindow.BlockIsHeld | src/fast_livo/include/FastDTW/ExpandedResWindow.h:70-74 | Marking the bottom and top rows puts every cell of a block into the window |
| ExpandedResWindow.ProjectionHoldsBlocks | src/fast_livo/include/FastDTW/ExpandedResWindow.h:39-80 | The projection holds the whole block of every cell of the coarse path |
| WindowCells.ProjectionIsHull | src/fast_livo/include/FastDTW/ExpandedResWindow.h:39-80 | The projection holds exactly the blocks of the coarse path, the two bridge cells of each diagonal move, and in every column what lies between |
| ExpandedResWindow.FinePath | src/fast_livo/include/FastDTW/ExpandedResWindow.h:39-80 | Any coarse path has a legal fine path through its blocks |
| ExpandedResWindow.ProjectionIsCrossed | src/fast_livo/include/FastDTW/ExpandedResWindow.h:28-80 | The projection leaves no column empty, contains (0,0) and the last cell, and is crossed by a legal fine path |
| ExpandedResWindow.RefinedWindowIsCrossed | src/fast_livo/include/FastDTW/ExpandedResWindow.h:28-85 | So does the window after expansion, for any radius |
| ExpandedResWindow.NextBlock | src/fast_livo/include/FastDTW/ExpandedResWindow.h:48-54 | currentI and currentJ are always the corner of the current block |
| ExpandedResWindow.ProjectPath | src/fast_livo/include/FastDTW/ExpandedResWindow.h:39-80 | The constructor's loop marks exactly the projection |
| ExpandedResWindow.NewExpandedResWindow | src/fast_livo/include/FastDTW/ExpandedResWindow.h:25-85 | The constructed window is the refined window |
| FastDtw.FastWarp | src/fast_livo/include/FastDTW/FastDTW.h:28-52 | For every two series and radius the recursion ends with a legal path from (0,0) to the last cell whose summed cost is the distance |
| FastDtw.FastWarpIsUpperBound | src/fast_livo/include/FastDTW/FastDTW.h:31-37 | The distance is never below the exact one and equals it when either series has at most radius + 2 points |
| FastDtw.FastWarpRefinesCoarse | src/fast_livo/include/FastDTW/FastDTW.h:43-49 | The result costs no more than any fine path that runs through the blocks of the coarse result |
| WindowSize.SpreadIsThin | src/fast_livo/include/FastDTW/SearchWindow.h:175-294 | Expanding by a radius widens by twice the radius how far a column's top may lie over the bottom of a column so many further right |
| WindowSize.ProjectionIsThin | src/fast_livo/include/FastDTW/ExpandedResWindow.h:39-80 | In the projection a cell more than one block further right is at most one block further down |
| WindowSize.RefinedWindowIsLinear | src/fast_livo/include/FastDTW/ExpandedResWindow.h:25-85 | The constructed window has at most (most + 1 + 2 radius) (columns + rows - 1) cells, where no block has more than `most` points |
| FastDtw.CellsAlongIsLinear | src/fast_livo/include/FastDTW/FastDTW.h:28-52 | Whatever paths the levels below return, all levels together evaluate at most (8 + 4 radius) cells per point |
| FastDtw.FastWarpIsLinear | src/fast_livo/include/FastDTW/FastDTW.h:28-52 | So FastDTW evaluates a number of cells linear in the two lengths, with a factor linear in the radius |
| FastDtw.PositiveRadiusIsSafe | src/fast_livo/include/FastDTW/FastDTW.h:34-45 | With a positive radius the recursion meets two one-point series only if it was given them |
| FastDtw.ZeroRadiusFailsOnThrees | src/fast_livo/include/FastDTW/FastDTW.h:34-45 | With radius zero it does exactly when repeated halving brings both sizes to three at the same time |
| FastDtw.ThreePointsFail | src/fast_livo/include/FastDTW/FastDTW.h:34-45 | Two series of three points with radius zero are such a case |
| FastDtw.GetWarpInfoBetween | src/fast_livo/include/FastDTW/FastDTW.h:28-52 | The program returns FastWarp, or fails, exactly in the cases named above, and evaluates as many cells as FastWarpIsLinear bounds |
| Matrices.Adjoint | src/fast_livo/src/global_esikf.cpp:135-136 | Moving a matrix across the dot product transposes it, the identity behind every covariance step |
| Matrices.CongruentKeepsCovariance | src/fast_livo/src/global_esikf.cpp:135-136 | A P A' of a symmetric positive semidefinite P is symmetric positive semidefinite |
| Matrices.SymmetricIsUnchanged | src/fast_livo/src/global_esikf.cpp:136-136 | Symmetrisation leaves a symmetric matrix as it is |
| Matrices.SymmetrisedIsSymmetric | src/fast_livo/src/global_esikf.cpp:136-136 | Symmetrisation makes any square matrix symmetric |
| KalmanAlgebra.PropagationKeepsCovariance | src/fast_livo/src/global_esikf.cpp:128-136 | F P F' + Q stays symmetric positive semidefinite |
| KalmanAlgebra.JosephKeepsCovariance | src/fast_livo/src/global_esikf.cpp:231-235 | The Joseph form stays symmetric positive semidefinite for any gain at all |
| KalmanAlgebra.GainEquation | src/fast_livo/src/global_esikf.cpp:219-228 | When the solver solves for the innovation covariance S, S X S = S, be it singular, the gain K satisfies K S = P H' |
| KalmanAlgebra.OptimalUpdateIsProjection | src/fast_livo/src/global_esikf.cpp:226-235 | With that gain the Joseph result equals (I - K H) P |
| KalmanAlgebra.OptimalUpdateRemoves | src/fast_livo/src/global_esikf.cpp:226-235 | P minus the Joseph result is K S K' |
| KalmanAlgebra.OptimalUpdateNeverRaisesVariance | src/fast_livo/src/global_esikf.cpp:226-235 | So the update raises the variance of no direction |
| EsikfModel.WrapAngleTurns | src/fast_livo/src/global_esikf.cpp:257-262 | Wrapping ends in [-pi, pi] and changes the angle by whole turns only |
| EsikfModel.PredictedIsValid | src/fast_livo/src/global_esikf.cpp:120-137 | Prediction keeps a valid state, its covariance included |
| EsikfModel.PredictionKeepsIncrement | src/fast_livo/src/global_esikf.cpp:125-125 | With orthonormal rotations the motion between the old and new global pose is the local increment |
| ExponentialMap.RemainderIsSecondOrder | src/fast_livo/src/global_esikf.cpp:239-246 | With Rodrigues' formula for the exponential map, what it does to a vector beyond the first order is of second order in the rotation: entries up to s of the rotation and u of the vector leave at most s s u (s + 2) |
| EsikfLinearisation.DerivativeIsUnique | src/fast_livo/src/global_esikf.cpp:127-130 | A prediction has at most one derivative at the zero error, so no other matrix than the ones below will do |
| EsikfLinearisation.PositionRowsAreDerivative | src/fast_livo/src/global_esikf.cpp:125-130 | The position rows of the transition are the derivative of the predicted position by the injected error, with an error of at most 9 u s s for entries up to s |
| EsikfLinearisation.AttitudeRowsAreDerivative | src/fast_livo/src/global_esikf.cpp:125-129 | The attitude rows give, for every body-fixed vector, the derivative of where it points after the prediction |
| EsikfLinearisation.VelocityRowsDescribeIff | src/fast_livo/src/global_esikf.cpp:126-130 | For every error, the velocity rows give the change of the predicted velocity up to the second order if and only if the velocity error is what the attitude error makes of the increment, over dt |
| EsikfLinearisation.VelocityErrorIsForgotten | src/fast_livo/src/global_esikf.cpp:126-135 | They fail for every pure velocity error: the prediction does not depend on it, the transition keeps it |
| EsikfLinearisation.VelocityRowsAreNoDerivative | src/fast_livo/src/global_esikf.cpp:126-130 | The velocity rows are the derivative of the predicted velocity for no state, increment or dt |
| EsikfModel.InitialisedIsValid | src/fast_livo/src/global_esikf.cpp:139-163 | Initialisation leaves a valid state |
| EsikfModel.InitialisationExplainsObservation | src/fast_livo/src/global_esikf.cpp:145-153 | After initialisation the predicted antenna position, and velocity when valid, are those observed |
| EsikfModel.UpdatedIsValid | src/fast_livo/src/global_esikf.cpp:214-237 | An update by any innovation, jacobian and solver result leaves a valid state |
| EsikfModel.AcceptedUpdateNeverRaisesVariance | src/fast_livo/src/global_esikf.cpp:219-236 | When the solver solves for S, be it singular, an accepted update raises no state variance |
| EsikfLinearisation.AntennaJacobianIsDerivative | src/fast_livo/src/global_esikf.cpp:165-176 | The position jacobian is the derivative of the predicted antenna position by the injected error |
| EsikfLinearisation.VelocityJacobianIsDerivative | src/fast_livo/src/global_esikf.cpp:178-190 | The velocity jacobian is the derivative of the predicted antenna velocity |
| GlobalEsikf.RealtimeGlobalEsikf.Configure | src/fast_livo/src/global_esikf.cpp:16-29 | Configuration resets queue, state and covariance to the stated values |
| GlobalEsikf.RealtimeGlobalEsikf.PushRtk | src/fast_livo/src/global_esikf.cpp:31-40 | The queue stays sorted and bounded; a stamp that is not finite changes nothing |
| GlobalEsikf.RealtimeGlobalEsikf.Predict | src/fast_livo/src/global_esikf.cpp:120-137 | In-place prediction yields the predicted state and keeps the covariance semidefinite |
| GlobalEsikf.RealtimeGlobalEsikf.InitializeFromRtk | src/fast_livo/src/global_esikf.cpp:139-163 | In-place initialisation yields the initial state |
| GlobalEsikf.RealtimeGlobalEsikf.KalmanUpdate | src/fast_livo/src/global_esikf.cpp:214-237 | An accepted update yields the updated state; a rejected one changes neither state nor covariance |
| GlobalEsikf.RealtimeGlobalEsikf.UpdatePosition | src/fast_livo/src/global_esikf.cpp:165-176 | The position update in place, with the innovation, jacobian and noise of which PositionIsTaken and AntennaIsExplained tell the effect |
| GlobalEsikf.RealtimeGlobalEsikf.UpdateVelocity | src/fast_livo/src/global_esikf.cpp:178-190 | The velocity update in place |
| GlobalEsikf.RealtimeGlobalEsikf.UpdateHeading | src/fast_livo/src/global_esikf.cpp:192-212 | The heading update in place, with the numerical derivative of the yaw |
| GlobalEsikf.RealtimeGlobalEsikf.ProcessLivo | src/fast_livo/src/global_esikf.cpp:42-112 | One frame: propagate or reset, use the matched observation once, keep the filter valid; a disabled filter or a stamp that is not finite changes nothing |
| EsikfUpdates.UpdateExplains | src/fast_livo/src/global_esikf.cpp:214-237 | With S y equal to the innovation z, an accepted update moves the state by an error e for which H e is z less R y, and is H P H' y: the part the state accounts for, with the noise taking the other |
| EsikfUpdates.AcceptedIffWithinGate | src/fast_livo/src/global_esikf.cpp:214-228 | An update is accepted if and only if the solver succeeds and z' y, the innovation weighted by its covariance, is within the gate |
| EsikfUpdates.PositionIsTaken | src/fast_livo/src/global_esikf.cpp:165-176 | The position update takes observed less predicted antenna position, with its noise and gate, or changes nothing |
| EsikfUpdates.VelocityIsTaken | src/fast_livo/src/global_esikf.cpp:178-190 | The velocity update takes observed less predicted antenna velocity, or changes nothing |
| EsikfUpdates.HeadingIsTaken | src/fast_livo/src/global_esikf.cpp:192-212 | The heading update takes the observed less the nominal yaw, wrapped, or changes nothing |
| EsikfUpdates.AntennaIsExplained | src/fast_livo/src/global_esikf.cpp:165-176 | After an accepted fix the linearised antenna is where it was observed, but for variance times weighted innovation: without variance it is there |
| EsikfUpdates.AntennaVelocityIsExplained | src/fast_livo/src/global_esikf.cpp:178-190 | After an accepted velocity the linearised antenna velocity is the observed one, but for variance times weighted innovation |
| EsikfUpdates.YawIsExplained | src/fast_livo/src/global_esikf.cpp:192-212 | After an accepted heading the linearised yaw is the observed one up to whole turns, but for the noise, and it turned the short way |
| EsikfUpdates.ObservationIsTaken | src/fast_livo/src/global_esikf.cpp:97-103 | A matched observation is taken in three steps, each from the state the one before left: position always, velocity and heading where valid |
| EsikfUpdates.FirstMatchAnchors | src/fast_livo/src/global_esikf.cpp:60-112 | The first match puts the antenna where and as fast as observed, with the local attitude; only later ones update; without a match the state is the moved one |
| EsikfUpdates.InitialisationExplainsHeading | src/fast_livo/src/global_esikf.cpp:139-146 | The heading innovation vanishes after initialisation, if replacing the yaw gives that yaw |
| EsikfUpdates.InitialUncertainty | src/fast_livo/src/global_esikf.cpp:155-162 | Initially each coordinate is as uncertain as observed, or as the defaults where not, and no two are correlated |
| EsikfUpdates.PropagationFollowsLocal | src/fast_livo/src/global_esikf.cpp:51-73 | A frame at most a second after the last moves the pose by the local increment at the velocity and rate it then states; a first one sets the pose; any other changes nothing |
| EsikfUpdates.PredictedUncertainty | src/fast_livo/src/global_esikf.cpp:128-136 | Each coordinate gathers variance at its own rate on top of what the transition carries |
| RtkQueue.Push | src/fast_livo/src/global_esikf.cpp:35-39 | Insertion keeps the newest observations up to the limit |
| RtkQueue.PushKeepsOrder | src/fast_livo/src/global_esikf.cpp:35-39 | The queue is sorted and bounded under out-of-order arrival |
| RtkQueue.MatchRealtime | src/fast_livo/src/global_esikf.cpp:77-96 | The early-exit scan finds the match the specification names |
| RtkQueue.RealtimeMatchIsUnique | src/fast_livo/src/global_esikf.cpp:77-96 | There is only one such match |
| RtkQueue.RealtimeMatchIsComplete | src/fast_livo/src/global_esikf.cpp:77-96 | A match is found exactly when an observation lies within the tolerance, and it is a nearest of all |
| RtkQueue.FindNearestRtk | src/fast_livo/src/optimization.cpp:732-755 | The backend's scan finds the match its specification names |
| RtkQueue.BackendMatchIsComplete | src/fast_livo/src/optimization.cpp:735-751 | It finds a match exactly when some observation lies within the tolerance and is at most five seconds old |
| RtkQueue.BackendMatchIsGlobalIff | src/fast_livo/src/optimization.cpp:735-751 | For any tolerance, a match is found whenever an observation lies within it, and is nearest of all, exactly when nothing lies within it or some nearest observation is at most five seconds old |
| RtkQueue.BackendMatchIsGlobal | src/fast_livo/src/optimization.cpp:735-751 | So it always is with a tolerance of at most five seconds |
| RtkQueue.LargerToleranceIsNotHonoured | src/fast_livo/src/optimization.cpp:735-737 | With tolerance 10 a single observation six seconds old is missed |
| RtkQueue.NearerOldOneIsPassedOver | src/fast_livo/src/optimization.cpp:735-751 | With tolerance 10, of one 5.5 seconds old and one six seconds ahead the farther is used |
| RtkQueue.EveryRunIsAccounted | src/fast_livo/src/global_esikf.cpp:93-96 | On every run the queue is sorted and bounded and each observation is used at most once |
| RtkQueue.UsedStampsNeverGoBack | src/fast_livo/src/global_esikf.cpp:93-96 | With in-order arrival the stamps used never go back |
| OctreeModel.SettledShape | src/fast_livo/src/voxel_map.cpp:144-224 | Fitting and splitting never exceed the last layer |
| OctreeModel.UpdatedShape | src/fast_livo/src/voxel_map.cpp:226-297 | Nor does adding a point |
| OctreeGeometry.PointInOctant | src/fast_livo/src/voxel_map.cpp:179-193 | A point of a cube lies in the closed octant it is sent to |
| OctreeGeometry.SettledFramed | src/fast_livo/src/voxel_map.cpp:144-224 | Fitting and splitting keep every leaf the matching octant and every buffered point in its cube |
| OctreeGeometry.UpdatedFramed | src/fast_livo/src/voxel_map.cpp:226-297 | Adding a point of the root cube keeps both |
| OctreeCache.SettledCaches | src/fast_livo/src/voxel_map.cpp:144-224 | After fitting, every node's plane is the fit of its buffer without its newest points |
| OctreeCache.UpdatedCaches | src/fast_livo/src/voxel_map.cpp:226-297 | Adding a point keeps this for every node, with at most five newest points; planes have no leaves and at most the maximum of points, frozen nodes keep no points |
| OctreePoints.DistributedByOctant | src/fast_livo/src/voxel_map.cpp:177-197 | Splitting hands every leaf exactly the points of its octant, in order, and makes no other leaf |
| OctreePoints.AddedPointIsKept | src/fast_livo/src/voxel_map.cpp:226-297 | Right after a point was added, the node its lookup finds holds it as its newest point or is frozen |
| OctreeHistory.ClosesIff | src/fast_livo/src/voxel_map.cpp:226-297 | A point closes an open node exactly when it is a full plane, an overfull node of the last layer, or fitted at once with too many points; one that stays open keeps its buffer and the point, and is fitted anew exactly after more than five new ones |
| OctreeHistory.ClosedStays | src/fast_livo/src/voxel_map.cpp:226-297 | A closed node changes no more, but for what its leaves are handed |
| OctreeHistory.SplitPassesOn | src/fast_livo/src/voxel_map.cpp:170-197 | Splitting hands each leaf the points of its octant, and there is a leaf exactly where there are some |
| OctreeHistory.FittedHolds | src/fast_livo/src/voxel_map.cpp:144-224 | A first fit leaves every node with what it was handed: fitted exactly above its threshold, its plane the fit of the first points, closed only with at least the maximum, and open without leaves only with all its points |
| OctreeHistory.UpdateHolds | src/fast_livo/src/voxel_map.cpp:226-297 | Adding a point keeps this for every node of the tree, with the point among what it was handed |
| OctreeHistory.EveryNodeHolds | src/fast_livo/src/voxel_map.cpp:144-297 | So every closed node was handed at least the maximum of points, every open one without leaves holds just those it was handed, and every cached plane is the fit of the first of them |
| OctreeCache.UpdateIsLocal | src/fast_livo/src/voxel_map.cpp:226-312 | Adding a point is the update of the node find_correspond names, put back in place |
| OctreeCache.UpdateTouchesOnlyLocated | src/fast_livo/src/voxel_map.cpp:226-312 | Every node outside that subtree is as before; those above it keep their own fields |
| OctreeCache.NodesPersist | src/fast_livo/src/voxel_map.cpp:226-297 | Every node stays at its place, and a frozen node keeps its plane even if its last fit was not a plane |
| OctreeCache.ResidualIsMostProbable | src/fast_livo/src/voxel_map.cpp:792-865 | A residual is found exactly when a plane with none above it passes the gate, and it is a most probable one, with the plane and the layer of the node it belongs to |
| VoxelOctoTrees.VoxelOctoTree.constructor | src/fast_livo/include/voxel_map.h:154-169 | A new node is unfitted, empty and open for updates |
| VoxelOctoTrees.VoxelOctoTree.InitOctoTree | src/fast_livo/src/voxel_map.cpp:144-168 | In-place fitting yields the settled tree; nodes stay separate |
| VoxelOctoTrees.VoxelOctoTree.CutOctoTree | src/fast_livo/src/voxel_map.cpp:170-224 | In-place splitting yields the cut tree, up to the parent's count of new points that it may reset |
| VoxelOctoTrees.VoxelOctoTree.UpdateOctoTree | src/fast_livo/src/voxel_map.cpp:226-297 | In-place adding yields the updated tree, of which ClosesIff and UpdateHolds tell when it is fitted and closed |
| VoxelOctoTrees.VoxelOctoTree.FindCorrespond | src/fast_livo/src/voxel_map.cpp:299-312 | The node found is the one at the located place |
| VoxelForest.RootHolds | src/fast_livo/src/voxel_map.cpp:640-659 | A point lies in the closed cube its key names, also for negative coordinates |
| VoxelForest.RootCubeIs | src/fast_livo/src/voxel_map.cpp:650-659 | The cube of a root voxel has the voxel size and lies at its key |
| VoxelForest.BuiltByVoxel | src/fast_livo/src/voxel_map.cpp:636-669 | Building makes a voxel for exactly the keys that occur, each the settled tree of exactly its own points |
| VoxelForest.UpdatedByVoxel | src/fast_livo/src/voxel_map.cpp:695-719 | Updating takes every voxel through its own points alone, in order |
| VoxelForest.EveryMapIsGood | src/fast_livo/src/voxel_map.cpp:611-720 | After one build and any scans every tree has its shape, cubes, points and cached planes in order |
| VoxelForest.EveryMapHolds | src/fast_livo/src/voxel_map.cpp:611-720 | After one build and any scans there is a tree for exactly the voxels that points fell into, and node by node it holds what those points call for |
| VoxelForest.FrozenPlanesAreFinal | src/fast_livo/src/voxel_map.cpp:695-719 | Over any later scan every node stays and frozen planes never change |
| VoxelMaps.VoxelMapManager.BuildVoxelMap | src/fast_livo/src/voxel_map.cpp:636-669 | The two loops over points and over the trees in memory build the specified map, and no two trees share a node |
| VoxelMaps.VoxelMapManager.UpdateVoxelMap | src/fast_livo/src/voxel_map.cpp:695-719 | The loop over a scan updates the trees in memory to the specified map, and no two trees share a node |
| VoxelMaps.VoxelMapManager.BuildSingleResidual | src/fast_livo/src/voxel_map.cpp:792-865 | The recursion over the tree in memory yields the specified search |
| DataCut.CarriedTimesIff | src/fast_livo/src/LIVMapper.cpp:1473-1474 | Carried points keep their absolute times exactly when they are read with the base they were stored with |
| DataCut.FrameConserves | src/fast_livo/src/LIVMapper.cpp:1489-1502 | Splitting a frame loses no point, doubles none and moves none in time |
| DataCut.FrameKeepsOrder | src/fast_livo/src/LIVMapper.cpp:1489-1502 | Both parts of a frame in time order are in time order |
| DataCut.CutConserves | src/fast_livo/src/LIVMapper.cpp:1473-1505 | Nor does a whole cut |
| DataCut.CutSeparates | src/fast_livo/src/LIVMapper.cpp:1487-1501 | What is newly put in the current cloud lies before the cut, what is kept for the next does not |
| DataCut.LeadingIsExact | src/fast_livo/src/LIVMapper.cpp:1482-1505 | The frames that are cut are exactly those that start no later than the cut |
| DataCut.BatchIsWithin | src/fast_livo/src/LIVMapper.cpp:1460-1469 | A batch is exactly the samples of the whole history in (last update, cut] |
| DataCut.KeptFixIsNewest | src/fast_livo/src/LIVMapper.cpp:1447-1456 | In any order of arrival the RTK fix kept is the last usable one before the first beyond the cut; with fixes in order, the newest valid one of the interval, if there is any |
| DataCut.NewestForAllIff | src/fast_livo/src/LIVMapper.cpp:1447-1456 | In whatever order valid fixes were appended, the fix kept is the newest of every interval if and only if, for every fix, those popped at its time end with one of its time |
| DataCut.NewestForAllIffInOrder | src/fast_livo/src/LIVMapper.cpp:1447-1456 | For fixes with different stamps this is just their order |
| ImuPropagation.StepsFillInterval | src/fast_livo/src/IMU_Processing.cpp:326-376 | The steps sum to the whole interval exactly when it holds two samples, or one that coincides with its end or follows a sample at its start |
| ImuPropagation.OneSampleIsNotEnough | src/fast_livo/src/IMU_Processing.cpp:355-360 | With one sample inside the interval the time after it is left out |
| ImuPropagation.OffsetsIncrease | src/fast_livo/src/IMU_Processing.cpp:355-425 | Steps and pose offsets never go back; a step is positive, and a later offset greater, exactly when the samples behind them have later stamps |
| ImuPropagation.Propagate | src/fast_livo/src/IMU_Processing.cpp:325-431 | The loop sums the specified steps and saves the specified offsets |
| SyncRuns.EveryRunKeepsInv | src/fast_livo/src/LIVMapper.cpp:1391-1557 | From power on packages strictly alternate, each visual one has the time of the one before, queues stay ordered, and once initialised all clocks agree after each visual package; inertial samples may share stamps |
| SyncAccounts.EveryRunBalances | src/fast_livo/src/LIVMapper.cpp:1473-1509 | After initialisation, on any continuation, every point received was handed out once, waits in the next cloud or in the queue, at its own absolute time; each package starts where the last one ended |
| SyncBatches.BatchesAreCompleteIff | src/fast_livo/src/LIVMapper.cpp:1460-1469 | On such a continuation every package holds exactly the samples accepted for its interval if and only if no accepted sample has the time of the last cut (imu_cbk accepts equal stamps, and such a late twin is popped and dropped) |
| SyncExamples.LateTwinIsLost | src/fast_livo/src/LIVMapper.cpp:1238-1244 | A run in which such a sample is accepted and handed out by no package |
| SyncAccounts.CarriedPointsKeepTimesIff | src/fast_livo/src/LIVMapper.cpp:1473-1509 | At a cut the carried points keep their times exactly when the filter is initialised (or there are none) |
| SyncExamples.StartupShiftsCarriedPoint | src/fast_livo/src/IMU_Processing.cpp:587-618 | A run that shows a carried point shifted while the filter still counts samples |
| SyncAccounts.PropagationIsCovered | src/fast_livo/src/IMU_Processing.cpp:244-253 | Samples handed to the propagation cover the time since the last update, so StepsFillInterval applies on every run |
| SyncAccounts.PackageFixIsNewest | src/fast_livo/src/LIVMapper.cpp:1442-1457 | Every package holds the last usable fix before the first beyond its time, the newest valid one of its interval when fixes are in order |
| SyncImages.CycleDecides | src/fast_livo/src/LIVMapper.cpp:1401-1549 | The image at the head is shown, thrown away, cut at and kept, or left waiting, each exactly in one case: thrown away only if its capture is before the last update, cut at exactly when lidar and inertial samples reach it |
| SyncImages.ImageAcceptedIff | src/fast_livo/src/LIVMapper.cpp:1298-1330 | An image is accepted exactly if a lidar frame has come and it is at least 20 ms after the last accepted one |
| SyncImages.SampleAcceptedIff | src/fast_livo/src/LIVMapper.cpp:1192-1258 | A sample is accepted exactly if a lidar frame has come and it is not before the last accepted one |
| SyncImages.FixAcceptedIff | src/fast_livo/src/LIVMapper.cpp:970-979 | A valid fix is queued behind the latest, and the oldest leaves only when 5000 wait |
| SyncImages.EveryRunFits | src/fast_livo/src/LIVMapper.cpp:1334-1557 | On every run the accepted images, in order, are those shown in visual packages or thrown away, then the queue; each thrown away was too late in its cycle; the fixes waiting are the latest; the filter is initialised exactly when enough samples were handed out and goes on from the last of them |
| SyncImages.CoveredIsServed | src/fast_livo/src/LIVMapper.cpp:1413-1549 | A covered image is cut at in the next cycle, and shown in the one after exactly when a lidar frame and a sample are there by then |
| LivMapper.LIVMapper.ImuCbk | src/fast_livo/src/LIVMapper.cpp:1192-1258 | A sample that goes back in time is refused, others are appended |
| LivMapper.LIVMapper.ImgCbk | src/fast_livo/src/LIVMapper.cpp:1298-1330 | An image less than 20 ms after the last one is refused, others are appended |
| LivMapper.LIVMapper.RtkCbk | src/fast_livo/src/LIVMapper.cpp:974-979 | Valid fixes are appended and the oldest beyond 5000 dropped |
| LivMapper.LIVMapper.TakeImu | src/fast_livo/src/LIVMapper.cpp:1460-1469 | The loop pops up to the cut and keeps what is after the last update |
| LivMapper.LIVMapper.TakeRtk | src/fast_livo/src/LIVMapper.cpp:1447-1456 | The loop pops up to the cut and keeps the last usable fix |
| LivMapper.LIVMapper.SplitFrame | src/fast_livo/src/LIVMapper.cpp:1485-1502 | The loop over a frame distributes its points as specified |
| LivMapper.LIVMapper.TakeFrames | src/fast_livo/src/LIVMapper.cpp:1473-1505 | The loop over the queue yields the two clouds of the cut |
| LivMapper.LIVMapper.SyncPackages | src/fast_livo/src/LIVMapper.cpp:1334-1557 | In-place synchronisation is the specified step, with every guard; CycleDecides tells which image is shown, thrown away, cut at or left waiting |
| LivMapper.LIVMapper.ProcessImu | src/fast_livo/src/IMU_Processing.cpp:578-623 | Initialisation counting, or propagation that moves the update time, the propagation end and the last sample |
| LivMapper.LIVMapper.RunOnce | src/fast_livo/src/LIVMapper.cpp:712-719 | One turn of the main loop is one step of the runs |
| ScanContext.ScanContextDistance | src/fast_livo/src/optimization.cpp:816-838 | The double loop computes the least mean cosine distance over all shifts |
| ScanContext.BestIsLeast | src/fast_livo/src/optimization.cpp:819-837 | The result is at most 1, at most every shift's distance, and one of these |
| ScanContext.ShiftDistanceIsMean | src/fast_livo/src/optimization.cpp:822-835 | A shift has a distance exactly if two columns that meet are not empty; one less it is the value that their cosines lie above and below by as much |
| ScanContext.CosineIs | src/fast_livo/src/optimization.cpp:828-832 | Columns have a cosine exactly if the product of their lengths is not below 1e-6, and it times that product is their dot product |
| ScanContext.DistanceIgnoresShifts | src/fast_livo/src/optimization.cpp:820-826 | Rotating either descriptor, or both, by any sectors leaves the distance unchanged |
| ScanContext.DistanceIsSymmetric | src/fast_livo/src/optimization.cpp:816-838 | The distance is symmetric |
| ScanContext.CauchySchwarz | src/fast_livo/src/optimization.cpp:829-831 | The dot product of two columns is at most the product of their lengths |
| ScanContext.DistanceRange | src/fast_livo/src/optimization.cpp:819-837 | Between nonnegative descriptors the distance lies in [0, 1] |
| ScanContext.SelfDistance | src/fast_livo/src/optimization.cpp:819-837 | A descriptor is at distance 0 from every rotation of itself if a column is not empty, and at 1 otherwise |
| ScanCloud.MakeScanContext | src/fast_livo/src/optimization.cpp:757-774 | The loop over the points computes the greatest height of every cell |
| ScanCloud.CellHoldsPoint | src/fast_livo/src/optimization.cpp:768-771 | A point lies within the radii of its ring and the angles of its sector, the outer edge included |
| ScanCloud.LevelIsGreatest | src/fast_livo/src/optimization.cpp:772-773 | A cell holds the greatest height of its points, or 0 |
| ScanCloud.DescriptorIgnoresOrder | src/fast_livo/src/optimization.cpp:762-774 | The descriptor depends only on which points there are |
| ScanCloud.RingKeyIgnoresShift | src/fast_livo/src/optimization.cpp:776-776 | The ring key is the same for every rotation (and is pinned ring by ring in RingKeys) |
| RingKeys.DeviationsCancel | src/fast_livo/src/optimization.cpp:776-776 | The entries of every ring lie above and below its key by as much |
| RingKeys.KeyIsBetween | src/fast_livo/src/optimization.cpp:776-776 | Each key lies between the least and the greatest entry of its ring |
| RingKeys.KeyMovesByShare | src/fast_livo/src/optimization.cpp:776-776 | Raising one entry by x moves the key of its ring by x over the number of sectors, and no other key |
| ScanCloud.DescriptorTurned | src/fast_livo/src/optimization.cpp:766-771 | A turn of the cloud by whole sectors rotates the descriptor by as many |
| ScanCloud.TurnedPlaceIsRecognised | src/fast_livo/src/optimization.cpp:757-838 | A turned place has the same ring key and distance 0 unless its descriptor is empty |
| ScanCloud.CloudDistanceRange | src/fast_livo/src/optimization.cpp:757-838 | Between any two clouds the distance lies in [0, 1] |
| LoopCandidates.PartialSort | src/fast_livo/src/optimization.cpp:796-799 | The short list holds the nearest ring keys, in order |
| LoopCandidates.DetectLoopCandidate | src/fast_livo/src/optimization.cpp:780-814 | The candidate is more than the excluded number of frames back and nearest among the ten nearest ring keys; it is accepted exactly below the threshold |
| LoopCandidates.SmallDatabaseIsSearchedWhole | src/fast_livo/src/optimization.cpp:795-813 | With at most ten eligible frames the candidate is nearest of all |
| LoopCandidates.KeyDistanceZero | src/fast_livo/src/optimization.cpp:793-793 | Two ring keys are at distance 0 exactly when they are equal |
| LoopCandidates.ListedIff | src/fast_livo/src/optimization.cpp:796-799 | A frame is on every short list if and only if fewer others are no further than the list is long |
| LoopCandidates.RevisitIsListedIff | src/fast_livo/src/optimization.cpp:791-799 | A frame with the ring key of the query is on every short list if and only if at most nine other eligible frames share the key |
| LoopCandidates.RevisitIsProposed | src/fast_livo/src/optimization.cpp:780-814 | So a place seen before under another heading is accepted if at most nine other eligible frames share its ring key |
| LoopCandidates.RevisitIsAccepted | src/fast_livo/src/optimization.cpp:780-814 | The same in terms of the whole database: the candidate is long enough before, and near enough |
| LoopCandidates.EnoughIffEligible | src/fast_livo/src/optimization.cpp:785-789 | The search gives up exactly when no frame is long enough before the current one |
| KeyframeQueue.EveryFrameIsAccounted | src/fast_livo/src/optimization.cpp:342-351 | Accepted equals dropped plus taken plus queued; the queue is bounded and frames leave it in order |
| KeyframeQueue.EveryRunKeepsInv | src/fast_livo/src/optimization.cpp:312-352 | Neighbouring accepted keyframes are apart in distance, angle or time on every run |
| KeyframeQueue.AcceptedIff | src/fast_livo/src/optimization.cpp:312-352 | A keyframe is accepted exactly if it is far, turned or late enough after the last accepted one and has a hundred points; the oldest is dropped for it exactly when the queue is full |
| KeyframeQueue.StoppedOnEmptyQueue | src/fast_livo/src/optimization.cpp:563-576 | In every run after which the worker is stopped there is a turn at which it found the queue empty after a stop request and stopped |
| KeyframeQueue.StopDrainsQueue | src/fast_livo/src/optimization.cpp:299-310 | After a stop request the worker takes all that is left, in order, and stops |
| KeyframeQueue.KeyframeBuffer.SyncedCallback | src/fast_livo/src/optimization.cpp:312-352 | The callback in place: selection, bounded push, oldest dropped |
| KeyframeQueue.KeyframeBuffer.BackendTurn | src/fast_livo/src/optimization.cpp:556-582 | One turn of the worker in place |
| PoseGraph.GrownKeepsInv | src/fast_livo/src/optimization.cpp:598-714 | Any new keyframe leaves equal arrays, a chain, each factor that nodes and fixes call for and no other, once each, loop edges that equal the loop factors, and no loop missed |
| PoseGraph.EveryGraphIsSound | src/fast_livo/src/optimization.cpp:594-730 | After any keyframes every loop edge joins a frame to one more than the excluded number before it that was nearest among the nearest ring keys at that time and confirmed by the registration, and a node without one had nothing to close |
| PoseGraph.FactorsMatchFixes | src/fast_livo/src/optimization.cpp:598-680 | After any keyframes the prior, odometry, position, velocity and heading factors are there exactly where nodes and their fixes call for them, each once |
| PoseGraph.Optimization.MatchRtk | src/fast_livo/src/optimization.cpp:604-605 | The fix of a keyframe is the backend match, and none without GPS |
| PoseGraph.Optimization.FindLoop | src/fast_livo/src/optimization.cpp:682-704 | A loop is closed exactly when it is enabled, proposed, near enough and confirmed |
| PoseGraph.Optimization.ProcessKeyframe | src/fast_livo/src/optimization.cpp:594-720 | In-place processing: a keyframe too near the last changes nothing, another grows all arrays and factors as specified |
| BackendFrames.NewFixes | src/fast_livo/src/optimization.cpp:638-645 | A new node brings one position factor for the observation it matched, and none without |
| BackendRuns.EveryRunIsSound | src/fast_livo/src/optimization.cpp:312-755 | However callback, RTK arrivals and the worker's steps interleave, the graph and both queues are sound, position factors and the observation in work are the used ones, and nodes and the keyframe in work are the taken ones that pass the gates a second time |
| BackendRuns.NoFixIsUsedTwice | src/fast_livo/src/optimization.cpp:753-753 | However they interleave, an observation stands behind no more position factors than it arrived times |
| BackendRuns.EveryMatchFits | src/fast_livo/src/optimization.cpp:601-603 | On every run a node has an observation only with the receiver enabled, and one within the tolerance of its time |
| BackendRuns.FixesGoForward | src/fast_livo/src/optimization.cpp:735-754 | If observations arrive in time order, the position factors use them in time order |
| BackendRuns.NodesFollowTheQueue | src/fast_livo/src/optimization.cpp:556-596 | The nodes of the graph are a subsequence of the keyframes the worker took, and of those accepted |
| BackendRuns.EveryTakenIsNodeIff | src/fast_livo/src/optimization.cpp:584-596 | On every run all keyframes taken are nodes, the one in work included, if and only if each is apart from the one taken before it |
| BackendRuns.WithoutDropsEveryTakenIsNode | src/fast_livo/src/optimization.cpp:321-351 | As long as the queue has dropped nothing they are, since the callback made the same check |
| BackendRuns.DropHidesKeyframe | src/fast_livo/src/optimization.cpp:344-346 | On every run that drops a keyframe between two near ones, the second of these is accepted, taken and no node of the graph |
| BackendRuns.DroppingRunExists | src/fast_livo/src/optimization.cpp:344-346 | There is such a run |
| BackendRuns.TakeUp | src/fast_livo/src/optimization.cpp:562-575 | The worker's first critical section in memory is the step that takes a keyframe |
| BackendRuns.MatchUp | src/fast_livo/src/optimization.cpp:732-755 | The second is the step that matches an observation |
| BackendRuns.GrowGraph | src/fast_livo/src/optimization.cpp:598-714 | The rest of its work, on its own state, is the step that grows the graph |
| TimestampShare.WriterKeepsInv | src/livox_ros_driver2/src/lddc.cpp:210-220 | Every store of the writer keeps the protocol invariant |
| TimestampShare.ReaderKeepsInv | src/mvs_ros2_driver/src/grab_trigger.cc:176-222 | Every load of the reader keeps it |
| TimestampShare.EveryRunKeepsInv | src/livox_ros_driver2/src/lddc.cpp:192-220 | So it holds after any interleaving of loads and stores |
| TimestampShare.DeliveriesAreGenuine | src/mvs_ros2_driver/src/grab_trigger.cc:182-191 | Every accepted pair is one the writer published, and accepted sequences strictly increase |
| TimestampShare.RunAccountsForEveryPublication | src/mvs_ros2_driver/src/grab_trigger.cc:206-216 | The reported misses are exactly the publications between two deliveries |
| TimestampShare.UndisturbedReadDelivers | src/mvs_ros2_driver/src/grab_trigger.cc:180-192 | A read attempt that no store interrupts delivers the newest publication |
| LinearRegister.FeedIsLinear | src/chcnav/src/hc_cgi_protocol_process_node/hc_cgi_protocol.c:27-41 | Feeding is linear over exclusive or |
| LinearRegister.FeedIsInjective | src/chcnav/src/hc_cgi_protocol_process_node/hc_cgi_protocol.c:27-41 | For a fixed stream the register can be run backwards |
| LinearRegister.BurstIsSeen | src/chcnav/src/hc_cgi_protocol_process_node/hc_cgi_protocol.c:3-17 | A nonzero stream confined to as many bits as the register holds leaves a nonzero register |
| CrcWord.StepIsUndone | src/chcnav/src/hc_cgi_protocol_process_node/hc_cgi_protocol.c:10-13 | One bit-serial step can be undone |
| CrcWord.StepIsRedone | src/chcnav/src/hc_cgi_protocol_process_node/hc_cgi_protocol.c:10-13 | And its inverse redone |
| CrcWord.ShiftIsLinear | src/chcnav/src/hc_cgi_protocol_process_node/hc_cgi_protocol.c:10-13 | One step is linear over exclusive or |
| CrcWord.PolynomialIsReflected | src/chcnav/src/hc_cgi_protocol_process_node/hc_cgi_protocol.c:10-13 | The constant is the CRC-32 polynomial with its highest power in the lowest bit, power by power |
| CgiCrc.ByteUpdateIsEightSteps | src/chcnav/src/hc_cgi_protocol_process_node/hc_cgi_protocol.c:35-37 | The byte-wise update equals eight bit-serial steps |
| CgiCrc.CrcConcat | src/chcnav/src/hc_cgi_protocol_process_node/hc_cgi_protocol.c:33-38 | The value of a longer stream is computed piece by piece |
| CgiCrc.ReturnCrc32Value | src/chcnav/src/hc_cgi_protocol_process_node/hc_cgi_protocol.c:3-17 | The loop makes eight steps |
| CgiCrc.GetCrc32Value | src/chcnav/src/hc_cgi_protocol_process_node/hc_cgi_protocol.c:27-41 | The loop computes the value of the stream; a null buffer gives 0 |
| CgiCrc.CheckCrc32 | src/chcnav/src/hc_cgi_protocol_process_node/hc_cgi_protocol.c:50-60 | 0 exactly for a passing frame, else -1; for fewer than four bytes the check value is read outside the buffer |
| CgiCrc.PassesIffZeroResidue | src/chcnav/src/hc_cgi_protocol_process_node/hc_cgi_protocol.c:50-60 | A frame passes exactly when the value over its whole length is 0 |
| CgiCrc.BurstsAreDetected | src/chcnav/src/hc_cgi_protocol_process_node/hc_cgi_protocol.c:50-60 | Two passing frames of the same length whose bits differ only within 32 consecutive ones are equal |
| CgiCrc.FourByteErrorsAreDetected | src/chcnav/src/hc_cgi_protocol_process_node/hc_cgi_protocol.c:50-60 | Two passing frames that differ only within four consecutive bytes are equal, at any length |

## Left out

- Rounding, overflow and NaN of floating-point numbers: reals throughout; finiteness tests of the source are flags.
- 64-bit overflow of the shared sequence number and of the voxel keys.
- Memory ordering weaker than an interleaving of single loads and stores; restart of the lidar driver and remapping by the camera driver, after which sequence numbers begin again.
- The distance-only variants of dynamic time warping (`src/fast_livo/include/FastDTW/DTW.h:41-79` and `187-233`): one stops short of the last row, the other takes the size of the first series for both.
- `isInWindow`, which differs from the stored window for untouched columns and is not used by the warping.
- Time series labels and printing.
- Dtw.WarpInWindow: asks for a window that holds (0,0) and has no untouched column, as every window of the program is; for an untouched one the source reserves places in the matrix that nothing fills. After a walk has left the matrix the model says no more.
- The two index vectors of a warp path are one sequence of cells.
- Of the exponential map Rodrigues' formula is assumed where derivatives are stated, with its two coefficients enclosed by the first terms of their series. The heading jacobian is a difference quotient, as in the source, and not compared with a derivative.
- Rotations, the plane fit, the LDLT solver, the square root, registration and the probability of a residual: parameters, as said above. Plane ids, the plane covariance and the stale normal of a node that is no plane are not modelled.
- The neighbour voxel tried after a failed residual compares voxel units with metres.
- The lidar "loop back" branch, which clears one of two parallel buffers; frames of the model do not go back in time and are not empty. The two lidar buffers, and the two image buffers, are one queue each.
- The ONLY_LIO mode, the static frame counter of one data set, time offsets and the file logs of the callbacks.
- The states and noise of the inertial propagation, and the compensation of single points: only steps, offsets and clocks are modelled.
- SyncRuns.EveryRunKeepsInv: events have positive stamps and lidar frames come in order; what the source does with frames that go back is the branch above.
- ImuPropagation.StepsFillInterval: the first propagation after power on begins at a member that no constructor sets, so it is covered only from the first visual package on.
- Factor noise models, the optimiser and the smoothing of the global correction; the second test of the cloud size in `syncedCallback` after conversion, which equals the first for the clouds the front end publishes.
- Ties in the partial sort of ring keys: the model takes the lower index, and all statements about candidates hold for any short list.
- Waking and saving: spurious wake-ups and the save request of the backend worker do not change the queue.
- Visual map, image patches, driver configuration, message decoding, publishers and files: no state or arithmetic of interest.
