# Verified model of the driving stack's hard cores

This project models eight components of the vehicle's software in Dafny and proves what they
guarantee. `dafny verify dfyconfig.toml` checks everything.

| component | files |
|---|---|
| Skeleton ordering: stamped hash table, component ranking, counting sort | `Sorting`, `SkeletonSpec`, `StampedTable`, `Buckets`, `SkeletonOrder` |
| Zhang-Suen thinning: tables, three drivers, corner pass | `ZhangSuen`, `ZhangSuenRules`, `ThinningDrivers`, `ChunkWitness`, `CornerPass`, `CornersAtOnce` |
| Savitzky-Golay filter and masked smoother | `Polynomials`, `GaussJordan`, `Vandermonde`, `SavitzkyGolay`, `MaskedSmooth`, `LocalLines` |
| Costmap inflation | `InflationLevels`, `InflationWave`, `Inflation`, `InflationExact`, `InflationGap` |
| Rolling log-odds lane map | `RingWindow`, `LaneMap`, `LaneScan`, `LaneRuns`, `LaneSlots`, `LaneEvidence`, `LaneMapper`, `LaneDefaults` |
| Decisions and the intersection maneuver | `Slots`, `DecisionSpec`, `Decider`, `DecisionTraces`, `NewObstacles`, `ReportedActions`, `HandledMemory`, `SharedSpec`, `SharedState`, `Maneuver`, `ManeuverSteps`, `StopLines`, `RealStops`, `FalseStops` |
| Non-maximum suppression | `Nms`, `NmsOverlap` |
| Obstacle tracks | `TrackerSpec`, `TrackerRules`, `TrackerRuns`, `TrackIds`, `ObstacleMemory` |

`Arithmetic` and `Options` hold what several of them need.

Code that changes fields, arrays or buffers is modelled by classes and methods with loops; each
method is proved against a function on values, and the laws about whole runs are lemmas about these
functions. Numbers are mathematical: `real` for floating point, unbounded integers, with 32-bit
arithmetic written out in the hash, the stamp and the track ids. Clock readings, transforms, the
exponential function, the distance of two points and the cost of a distance are parameters. A ROS
callback or one call of a tree node is one atomic step: the executor spins and ticks in one thread.

## What the proofs found

* `lane_mapper.cpp` cuts the scanned rectangle at `width_ - 1` and `height_ - 1` without the origin of
  the window. What a frame then does is proved for every scan (`LaneSlots.FrameUpdatesCell`,
  `LaneScan.ExactIff`, `LaneScan.SeenExactIff`), and two consequences are exact:
  * A cell scanned outside the window writes into the slot of a cell inside. This happens with the
    parameters that `mapping.cpp` declares: the corners of the region of interest are 13.46 m away, half
    the window is 12.5 m (`LaneDefaults.DeclaredScanLeavesTheWindow`). A region that reaches less far
    than half the window less a cell never does it (`LaneScan.ShortReachIsExact`).
  * As soon as an origin coordinate is positive, window cells of the region of interest are not scanned
    and get hits only (`LaneScan.ScannedIff`, `LaneScan.NothingLeftOutIff`,
    `LaneDefaults.DeclaredScanLeavesOut`).
* `lane_mapper.hpp` calls the speckle window 3x3; the loops are half-open and the window is 2x2
  (`LaneRuns.SpeckleWindow`).
* The comment at the head of `decision.hpp` says that an obstacle without an id is the same one when
  its distance did not jump. The code compares class and world position within 1.8 m, for ids as
  well, and does not use `same_obstacle_tol`; the model follows the code.
* The docstring of `zhang_suen_thinning` promises identical output. `_thin_graphed` rounds `max_iter` up
  to whole chunks, so it returns the image of the other drivers for all masks if and only if the chunk
  length divides `max_iter` (`ChunkWitness.ChunksAlwaysAgreeIff`; for every other pair of settings
  `ChunkWitness.ChunkedImageDiffers` has a mask). On one mask it also does with at most `max_iter` pixels
  (`ThinningDrivers.ChunksAgree`). `_thin_fused` fails without a round, `_thin_conv` does not.
* `_corners` makes two rounds of its four orientations. The second one never changes anything
  (`CornersAtOnce.SecondRoundIdle`): the passes delete exactly the staircase corners of the image they
  start from, because deleting one orientation makes no new corner (`CornersAtOnce.CornersAreDeleted`).
* `inflation_layer.cpp` spreads costs over 4-neighbours and lets the first obstacle to reach a cell keep
  it. With several obstacles a cell within the radius of one may get no cost at all: with R = 10 and obstacles at s, s + (-3, 8) and s + (8, -3), the cell s + (7, 7) at
  squared distance 98 from s stays free, because its neighbours nearer to s belong to the other two,
  which are 101 away (`InflationGap.UpdateMissesCell`). What every cell gets is proved for any obstacles
  (`Inflation.InflationLayer.UpdateCosts`, `InflationExact.NearestIff`), and so is when whole scenes are
  exact (`InflationExact.SceneExactIff`); around every isolated obstacle they are
  (`InflationExact.IsolatedExact`).
* A need to stop is tied to a real stop sign only because the rule of the class `stopline` does not
  mark stop signs and a sign is forgotten within 10^9 s, the age of the initial sign time. Both are
  needed: with other settings under which a line can trigger an intersection, there is a run without a
  sign that latches a need to stop (`FalseStops.StopNeedsSignIff`).
* Track ids are confirmation numbers modulo 2^32. Two confirmed tracks share an id exactly when their
  numbers differ by a multiple of it (`TrackIds.SharedIdIff`), and every 2^32nd confirmation gets the id
  0, which means no obstacle (`TrackIds.ConfirmedAsZeroIff`, with a run in `TrackIds.IdsRunOut`).
* The masked smoother writes 0 for a sample whose window holds no valid sample; `MaskedSmooth.LinesKeptIff`
  says exactly which samples are reproduced. Below a used window of 3 it returns the values as they are,
  invalid ones included (`MaskedSmooth.InvalidIgnoredIff`).

## Model

| member | source | states |
|---|---|---|
| SkeletonOrder.SkelScratch.OrderSkeletonPixels | src/vision_cpp/src/thinning.cpp:8-94 | whatever earlier calls left in the scratch memory, the output is the pixels with rows in [v_min, v_min + rows), sorted by (component mean u, label, row descending, u ascending); needs room for the distinct labels in the table |
| SkeletonSpec.CppOrderIsPyOrder | src/vision_py/vision_py/thinning.py:320-325 | on the same length-filtered pixels, in whatever order they are delivered, the C++ order is the lexsort order of the Python routine |
| SkeletonSpec.OrderedPolylines | src/vision_cpp/src/thinning.cpp:49-93 | the output is a permutation of the pixels in range; every component is contiguous in it, runs from near rows to far ones, and components go left to right, by their labels where the mean columns are equal |
| SkeletonSpec.CountIsSize | src/vision_py/vision_py/thinning.py:319-319 | the count of a label is the number of pixels that carry it |
| SkeletonSpec.LongKeptIff | src/vision_py/vision_py/thinning.py:319-321 | the filter keeps exactly the pixels whose component has at least the least length |
| SkeletonSpec.MeanBetween | src/vision_cpp/src/thinning.cpp:49-54 | the mean by which components are ordered lies between the leftmost and the rightmost column of the component |
| SkeletonOrder.EmittedIsOrdered | src/vision_cpp/src/thinning.cpp:60-93 | what the buckets emit, one after the other, is the sorted order of the pixels in range |
| SkeletonOrder.KeyOrder | src/vision_cpp/src/thinning.cpp:60-67 | a pixel with a smaller bucket number never comes later in the key order, and equal numbers mean the same component and row |
| SkeletonOrder.ScatterStep | src/vision_cpp/src/thinning.cpp:74-79 | placing one column keeps every bucket a stable selection of its pixels and never writes into another bucket |
| SkeletonOrder.EmitStep | src/vision_cpp/src/thinning.cpp:84-93 | sorting and emitting one bucket extends the sorted output by exactly the pixels of that bucket |
| SkeletonOrder.SortedOrderRanks | src/vision_cpp/src/thinning.cpp:49-58 | inverting the sorted permutation of the components gives each component its rank |
| SkeletonOrder.DistinctAtMost | src/vision_cpp/src/thinning.cpp:14-15 | there are never more distinct labels than pixels, so 8192 pixels always leave room in the table |
| StampedTable.EmptyHolds | src/vision_cpp/src/thinning.cpp:15-19 | a table in which no slot carries the current stamp is an empty map, whatever stale slots it holds |
| StampedTable.FreeMeansAbsent | src/vision_cpp/src/thinning.cpp:29-38 | a free slot on the probe sequence of a label proves that the label has no id yet |
| StampedTable.ProbeEnds | src/vision_cpp/src/thinning.cpp:28-47 | while fewer labels than slots are stored, the probe sequence of a new label meets a free slot within kSlots steps |
| StampedTable.ClaimHolds | src/vision_cpp/src/thinning.cpp:31-38 | claiming the first free slot adds exactly label -> next dense id and keeps every earlier label reachable |
| StampedTable.HitIsId | src/vision_cpp/src/thinning.cpp:39-44 | a current slot with the label answers with that label's id |
| SkeletonOrder.SkelScratch.BeginCall | src/vision_cpp/src/thinning.cpp:15-19 | after the new stamp, including its wrap-around at 2^32, the table is empty and no slot is stamped ahead of time |
| SkeletonOrder.SkelScratch.Probe | src/vision_cpp/src/thinning.cpp:28-46 | the loop ends at the slot of the label or at the first free one |
| SkeletonOrder.SkelScratch.Intern | src/vision_cpp/src/thinning.cpp:26-47 | a known label keeps its id, a new one gets the next dense id |
| SkeletonOrder.SkelScratch.CollectComponents | src/vision_cpp/src/thinning.cpp:21-47 | labels are listed once in order of first appearance, with each pixel's dense id and each component's pixel count and column sum |
| SkeletonOrder.SkelScratch.RankComponents | src/vision_cpp/src/thinning.cpp:49-58 | rank is the place of each component in the (mean u, label) order |
| SkeletonOrder.SkelScratch.CountBuckets | src/vision_cpp/src/thinning.cpp:68-71 | bucket[b + 1] is the number of pixels of bucket b |
| SkeletonOrder.SkelScratch.AccumulateBuckets | src/vision_cpp/src/thinning.cpp:72-72 | bucket[b] is the number of pixels in the buckets before b |
| SkeletonOrder.SkelScratch.ScatterColumns | src/vision_cpp/src/thinning.cpp:74-79 | every bucket holds the columns of exactly its pixels |
| SkeletonOrder.SkelScratch.EmitBuckets | src/vision_cpp/src/thinning.cpp:81-93 | the emitted coordinates are those of the sorted pixels |
| ZhangSuen.TableIsBitwise | src/vision_py/vision_py/thinning.py:17-33 | on every image, one sub-step by the 9-bit table deletes the same pixels as the bitwise sub-step |
| ZhangSuenRules.PeelsIff | src/vision_py/vision_py/thinning.py:24-32 | a pixel leaves a sub-step if and only if two to six of its eight directions are on, exactly one direction is off with the next one on, and each of the two triples of the sub-step has one that is off |
| ZhangSuenRules.StableIff | src/vision_py/vision_py/thinning.py:115-128 | a round changes nothing if and only if no pixel meets that condition for either sub-step |
| ZhangSuenRules.NothingLeftToPeel | src/vision_py/vision_py/thinning.py:285-290 | after as many rounds as there are pixels no pixel meets it |
| ZhangSuenRules.SolidShrinks | src/vision_py/vision_py/thinning.py:115-128 | a round takes the upper left corner, at least, off every solid rectangle of two or more rows and columns |
| ZhangSuenRules.SolidIsThinned | src/vision_py/vision_py/thinning.py:285-297 | so after any number of rounds the returned image of such a rectangle lacks that corner |
| ZhangSuenRules.CutsCornerIff | src/vision_py/vision_py/thinning.py:36-46 | a corner pass of one orientation deletes exactly the pixels with two neighbours, those of the two named directions |
| ZhangSuen.CornerTableIsBitwise | src/vision_py/vision_py/thinning.py:42-46 | on every image, a corner pass by table deletes the same pixels as the bitwise one |
| ZhangSuen.DecodeInvertsCode | src/vision_py/vision_py/thinning.py:49-51 | the convolution code is a number below 512 from which the eight neighbours and the centre are read back |
| ZhangSuen.CornerCode | src/vision_py/vision_py/thinning.py:36-46 | the target code belongs to exactly the two named neighbours and no other |
| ZhangSuen.BuildTables | src/vision_py/vision_py/thinning.py:17-33 | both tables hold, for every code, whether the sub-step keeps the pixel |
| ZhangSuen.BuildEntry | src/vision_py/vision_py/thinning.py:19-32 | one code: the loops over the bits give the Zhang-Suen condition of both sub-steps |
| ZhangSuen.BuildCornerTables | src/vision_py/vision_py/thinning.py:42-46 | every entry is 1 except that of the target neighbours |
| ThinningDrivers.ThinConv | src/vision_py/vision_py/thinning.py:72-96 | for every max_iter and every nonzero check_every the result is the corner pass after exactly max_iter iterations; a zero check_every is the division error |
| ThinningDrivers.ThinFused | src/vision_py/vision_py/thinning.py:147-160 | the same for the fused driver; without a round its counter is unset, which is the error result |
| ThinningDrivers.ThinGraphed | src/vision_py/vision_py/thinning.py:204-220 | the result is the corner pass after max_iter rounded up to a multiple of K iterations |
| ThinningDrivers.ChunksStopThereIff | src/vision_py/vision_py/thinning.py:211-217 | running whole chunks stops at the image of max_iter rounds exactly when K divides max_iter or that image no longer changes |
| ThinningDrivers.RoundsDelete | src/vision_py/vision_py/thinning.py:285-290 | every round before the last one deletes a pixel |
| ThinningDrivers.StableAfterAllPixels | src/vision_py/vision_py/thinning.py:285-290 | as many rounds as the masks have pixels are always enough |
| ThinningDrivers.ChunksAgree | src/vision_py/vision_py/thinning.py:211-217 | on one mask, the rounding also changes nothing when the mask has at most max_iter pixels |
| ChunkWitness.ChunksAlwaysAgreeIff | src/vision_py/vision_py/thinning.py:204-220 | the chunked driver returns the image of max_iter rounds for all masks if and only if K divides the number of rounds |
| ChunkWitness.ChunkedImageDiffers | src/vision_py/vision_py/thinning.py:204-220 | for every other max_iter and K, a mask for which it returns another image |
| ChunkWitness.StairShrinks | src/vision_py/vision_py/thinning.py:115-128 | a round takes exactly one step off a stair of two diagonals |
| ThinningDrivers.ZhangSuenThinning | src/vision_py/vision_py/thinning.py:285-297 | what each driver returns, for every max_iter; it is the same image for all of them when K divides max_iter or the masks have at most max_iter pixels |
| ThinningDrivers.UnchangedCountIsFinal | src/vision_py/vision_py/thinning.py:83-87 | if the pixel count is what it was some iterations ago, no later iteration changes the image |
| ThinningDrivers.IterationsShrink | src/vision_py/vision_py/thinning.py:85-85 | iterations only delete |
| ThinningDrivers.IterationsAdd | src/vision_py/vision_py/thinning.py:178-182 | running chunks one after the other is running their iterations |
| ThinningDrivers.IterateBitwise | src/vision_py/vision_py/thinning.py:115-128 | the loop over the two sub-steps computes one iteration |
| ThinningDrivers.CornersBitwise | src/vision_py/vision_py/thinning.py:131-139 | the two rounds of four orientations |
| ThinningDrivers.CornersByTable | src/vision_py/vision_py/thinning.py:91-94 | the same by tables |
| ThinningDrivers.Graph.Chunk | src/vision_py/vision_py/thinning.py:178-182 | replaying the chunk applies K iterations to the buffer |
| ThinningDrivers.Graph.Corner | src/vision_py/vision_py/thinning.py:184-185 | replaying the corner graph applies the corner pass to the buffer |
| CornerPass.CornersKeepComponents | src/vision_py/vision_py/thinning.py:131-139 | after all eight simultaneous deletions two remaining pixels are 8-connected exactly when they were before, and no component disappears |
| CornerPass.OneOrientation | src/vision_py/vision_py/thinning.py:134-138 | the same for the simultaneous deletions of one orientation |
| CornerPass.CornersApart | src/vision_py/vision_py/thinning.py:89-90 | no neighbour of a deleted corner is deleted in the same pass |
| CornersAtOnce.CornersAreDeleted | src/vision_py/vision_py/thinning.py:131-139 | the eight passes delete exactly the pixels that are a staircase corner of the image they start from |
| CornersAtOnce.SecondRoundIdle | src/vision_py/vision_py/thinning.py:131-139 | the second round of the four orientations changes nothing |
| CornersAtOnce.StepKeepsCorners | src/vision_py/vision_py/thinning.py:134-138 | deleting the corners of one orientation makes no new corner and leaves those of the other orientations |
| CornersAtOnce.NoCornerReturned | src/vision_py/vision_py/thinning.py:285-297 | no pixel of a returned image is a staircase corner |
| CornerPass.Rerouted | src/vision_py/vision_py/thinning.py:36-38 | a path between remaining pixels can be led around every deleted corner |
| Vandermonde.VanderPinv | src/path_generation_cpp/src/centerline_generator.cpp:64-108 | for distinct offsets, at least as many as coefficients, applying the result to any samples gives their least-squares polynomial |
| Vandermonde.LeftInverse | src/path_generation_cpp/src/centerline_generator.cpp:62-63 | pinv A = I: on the samples of a polynomial the result gives back its coefficients |
| Vandermonde.PinvIsTheFit | src/path_generation_cpp/src/centerline_generator.cpp:62-63 | any least-squares polynomial of the samples is the one the pseudo-inverse computes |
| Vandermonde.Invert | src/path_generation_cpp/src/centerline_generator.cpp:85-98 | Gauss-Jordan turns [A^T A | I] into rows whose left half is the identity, keeping left half = right half times A^T A |
| Vandermonde.FindPivot | src/path_generation_cpp/src/centerline_generator.cpp:86-88 | the chosen row is at or below c and has the largest entry of the column |
| Vandermonde.EliminateColumn | src/path_generation_cpp/src/centerline_generator.cpp:86-97 | one pivot step keeps the invariant and makes column c a unit column |
| Vandermonde.TimesTransposed | src/path_generation_cpp/src/centerline_generator.cpp:100-107 | the product of the right half with A^T |
| GaussJordan.PivotExists | src/path_generation_cpp/src/centerline_generator.cpp:86-90 | the pivot is never zero, because A^T A is nonsingular |
| GaussJordan.RightHalfInverts | src/path_generation_cpp/src/centerline_generator.cpp:75-98 | when the left half is the identity the right half inverts A^T A |
| GaussJordan.SwapRows | src/path_generation_cpp/src/centerline_generator.cpp:89-89 | swapping rows keeps the invariant |
| GaussJordan.DivideRow | src/path_generation_cpp/src/centerline_generator.cpp:90-91 | dividing a row by a nonzero pivot keeps the invariant |
| GaussJordan.SubtractRow | src/path_generation_cpp/src/centerline_generator.cpp:92-97 | subtracting a multiple of another row keeps the invariant |
| Polynomials.GramInjective | src/path_generation_cpp/src/centerline_generator.cpp:62-63 | full column rank: with enough distinct offsets only the zero vector is mapped to zero by A^T A |
| Polynomials.FitUnique | src/path_generation_cpp/src/centerline_generator.cpp:62-63 | the least-squares polynomial is unique |
| Polynomials.FitIsClosest | src/path_generation_cpp/src/centerline_generator.cpp:62-63 | no polynomial of that many coefficients comes closer to the samples |
| SavitzkyGolay.SmoothingKeepsPolynomials | src/path_generation_cpp/src/centerline_generator.cpp:741-765 | deriv 0 returns every polynomial of degree <= sg_polyorder unchanged at every sample, both ends included |
| SavitzkyGolay.SlopeOfPolynomials | src/path_generation_cpp/src/centerline_generator.cpp:747-752 | deriv 1 gives the exact derivative of every such polynomial in the interior |
| SavitzkyGolay.SlopeOfLinesAtEnds | src/path_generation_cpp/src/centerline_generator.cpp:700-719 | deriv 1 gives the exact slope of a straight line at both ends |
| SavitzkyGolay.Smoother.Kernel | src/path_generation_cpp/src/centerline_generator.cpp:679-739 | a cached or newly built kernel does what its key says: interior weights and edge rows evaluate the window's least-squares polynomial |
| SavitzkyGolay.Smoother.Apply | src/path_generation_cpp/src/centerline_generator.cpp:741-765 | every output sample is the value or slope of the polynomial fitted to its window, near an end to the first or last window |
| SavitzkyGolay.InteriorIsLocalFit | src/path_generation_cpp/src/centerline_generator.cpp:747-752 | an interior sample is the value or slope, at the middle, of any least-squares polynomial of the samples around it |
| SavitzkyGolay.EndIsLocalFit | src/path_generation_cpp/src/centerline_generator.cpp:755-763 | a sample near an end is the value or slope, at its own place, of any least-squares polynomial of the first or last window |
| SavitzkyGolay.ApplyInterior | src/path_generation_cpp/src/centerline_generator.cpp:747-752 | the correlation over the full windows |
| SavitzkyGolay.ApplyEnds | src/path_generation_cpp/src/centerline_generator.cpp:755-763 | the samples without a full window |
| SavitzkyGolay.BuildKernel | src/path_generation_cpp/src/centerline_generator.cpp:684-738 | interior weights and edge rows of a new kernel |
| MaskedSmooth.MaskedSmooth | src/path_generation_cpp/src/centerline_generator.cpp:457-489 | with a used window below 3 the values are returned; otherwise every output is the centre value of the least-squares line through the valid samples of its window |
| MaskedSmooth.UsedWindowIsGreatestOdd | src/path_generation_cpp/src/centerline_generator.cpp:461-466 | the used window is the greatest odd number that is at most the window and the number of samples |
| LocalLines.OutputIsBestLine | src/path_generation_cpp/src/centerline_generator.cpp:465-487 | every output lies on a line that no other line beats, by the sum of the squared gaps to the valid samples up to half the used window away; with a single one there it is that sample, with none 0 |
| MaskedSmooth.SmoothAt | src/path_generation_cpp/src/centerline_generator.cpp:472-486 | one output, from the five sums and the guarded divisions |
| MaskedSmooth.DetIsPairSquares | src/path_generation_cpp/src/centerline_generator.cpp:483-483 | the determinant is the sum of squared differences over pairs of valid offsets |
| MaskedSmooth.DetTellsTwo | src/path_generation_cpp/src/centerline_generator.cpp:483-486 | det > 0.5 exactly when the window has at least two valid samples |
| MaskedSmooth.LineFits | src/path_generation_cpp/src/centerline_generator.cpp:483-484 | the closed formula is the least-squares line |
| MaskedSmooth.InvalidValuesIgnored | src/path_generation_cpp/src/centerline_generator.cpp:475-475 | from a used window of 3 on, an output depends on the valid samples alone |
| MaskedSmooth.InvalidIgnoredIff | src/path_generation_cpp/src/centerline_generator.cpp:457-489 | the whole output is a function of the valid samples if and only if the used window is 3 or more or every sample is valid; below that the values themselves are returned, invalid ones included |
| MaskedSmooth.AffineDataKept | src/path_generation_cpp/src/centerline_generator.cpp:457-489 | data affine in the index on the valid samples is reproduced at every valid sample, and at every invalid one with two valid samples in its window |
| MaskedSmooth.LinesKeptIff | src/path_generation_cpp/src/centerline_generator.cpp:472-486 | a sample is reproduced for every line if and only if it is valid or its window holds two valid samples |
| Inflation.InflationLayer.UpdateCosts | src/navigation2/nav2_costmap_2d/plugins/inflation_layer.cpp:190-317 | ends, keeps every lookup and every list index in bounds, and applies to the master map, in the bounds, the costs of the reached cells, as `InflationExact.RaisedByIs` says in numbers; each is reached from the nearest of the obstacles that its reached neighbours offer it, and a cell is left out exactly when none is offered |
| Inflation.CombineRaises | src/navigation2/nav2_costmap_2d/plugins/inflation_layer.cpp:286-292 | the new value is the greater one of a known value and the cost; an unknown cell takes the cost where it is above 0, or at least 253 when unknown cells are not inflated, and stays 255 otherwise |
| InflationExact.CostOfReached | src/navigation2/nav2_costmap_2d/plugins/inflation_layer.cpp:270-293 | a reached cell in the bounds holds what its old value and the cost of the distance it was reached from make of it |
| InflationExact.RaisedByIs | src/navigation2/nav2_costmap_2d/plugins/inflation_layer.cpp:270-293 | the same with the numbers written out: at least the old value and at least the cost, and one of them |
| InflationExact.UntouchedStays | src/navigation2/nav2_costmap_2d/plugins/inflation_layer.cpp:281-293 | cells outside the bounds, and cells that no scanned obstacle within the radius could reach, keep their value |
| InflationExact.ScanIsNoWider | src/navigation2/nav2_costmap_2d/plugins/inflation_layer.cpp:226-234 | an obstacle further outside the bounds than the radius is not scanned |
| InflationExact.SourcesAre | src/navigation2/nav2_costmap_2d/plugins/inflation_layer.cpp:243-251 | the scan lists exactly the lethal cells, and the unknown ones when it inflates around them, of the widened bounds |
| InflationExact.LoneObstacleInflates | src/navigation2/nav2_costmap_2d/plugins/inflation_layer.cpp:190-317 | a costmap with one lethal cell: after the update every cell in the bounds within the radius has been raised by the cost of its true distance, and every other cell is as it was |
| InflationExact.NearestIff | src/navigation2/nav2_costmap_2d/plugins/inflation_layer.cpp:253-309 | for any obstacles, a cell gets the distance of its nearest obstacle exactly when a reached neighbour offers it one |
| InflationExact.SceneExactIff | src/navigation2/nav2_costmap_2d/plugins/inflation_layer.cpp:253-309 | without ties, every cell within the radius gets the distance of its nearest obstacle if and only if each has a neighbour that is nearer to that obstacle and has it as nearest obstacle too |
| InflationExact.SurelyExact | src/navigation2/nav2_costmap_2d/plugins/inflation_layer.cpp:253-309 | with or without ties, it is enough that such a neighbour belongs to one of the nearest obstacles alone |
| InflationExact.ExactIsHanded | src/navigation2/nav2_costmap_2d/plugins/inflation_layer.cpp:253-309 | with or without ties, where all distances are exact every cell has such a neighbour for one of its nearest obstacles |
| InflationExact.PathExact | src/navigation2/nav2_costmap_2d/plugins/inflation_layer.cpp:295-307 | a cell to which steps lead away from an obstacle, over cells that are nearest to it alone, gets its cost |
| InflationExact.DiskExactlyReached | src/navigation2/nav2_costmap_2d/plugins/inflation_layer.cpp:253-309 | an obstacle that is the nearest one in its whole disk reaches exactly the in-grid cells with dx^2 + dy^2 <= R^2 |
| InflationExact.OwnedDiskExact | src/navigation2/nav2_costmap_2d/plugins/inflation_layer.cpp:253-309 | around such an obstacle every cell is raised by the cost of its true distance: a known value to the greater of both, an unknown one to the cost where that is enough |
| InflationExact.IsolatedExact | src/navigation2/nav2_costmap_2d/plugins/inflation_layer.cpp:253-309 | so it is around every obstacle with no other within two radii |
| InflationExact.OneObstacleExact | src/navigation2/nav2_costmap_2d/plugins/inflation_layer.cpp:253-309 | with a single obstacle the cells within the radius, and no others, are reached, each raised by the cost of its true distance |
| InflationGap.CellMissed | src/navigation2/nav2_costmap_2d/plugins/inflation_layer.cpp:253-309 | a scene with three obstacles in which a cell within the radius of one of them is never reached |
| InflationGap.UpdateMissesCell | src/navigation2/nav2_costmap_2d/plugins/inflation_layer.cpp:190-317 | an update of that costmap leaves the cell free |
| Inflation.NeverAboveExact | src/navigation2/nav2_costmap_2d/plugins/inflation_layer.cpp:270-293 | no cost exceeds that of the distance to the nearest obstacle |
| Inflation.NeverLowered | src/navigation2/nav2_costmap_2d/plugins/inflation_layer.cpp:278-293 | cells outside the bounds keep their value and no known cost goes down |
| Inflation.ObstaclesStayLethal | src/navigation2/nav2_costmap_2d/plugins/inflation_layer.cpp:275-293 | lethal obstacles in the bounds stay lethal |
| Inflation.ScanIsWideEnough | src/navigation2/nav2_costmap_2d/plugins/inflation_layer.cpp:218-234 | every obstacle within the radius of a cell in the bounds is scanned |
| InflationWave.WaveSettles | src/navigation2/nav2_costmap_2d/plugins/inflation_layer.cpp:256-309 | when all bins are used up, what was reached has been offered, every obstacle is its own source, and every offer reached its cell or a nearer one did |
| InflationWave.NextBinKeeps | src/navigation2/nav2_costmap_2d/plugins/inflation_layer.cpp:256-309 | when a bin is used up, every offer within its distance has reached its cell |
| InflationWave.ProcessKeeps | src/navigation2/nav2_costmap_2d/plugins/inflation_layer.cpp:261-307 | one visit marks the cell and serves its four neighbours; every open offer is seen or still waits, and no reached cell has been offered a nearer obstacle |
| InflationWave.BinsFollowDistance | src/navigation2/nav2_costmap_2d/plugins/inflation_layer.cpp:346-348 | the bins order listed cells exactly by their distance, whatever obstacles they came from |
| InflationExact.StepTowards | src/navigation2/nav2_costmap_2d/plugins/inflation_layer.cpp:295-307 | every cell of the disk other than the source has a 4-neighbour nearer to the source |
| InflationLevels.GenerateIntegerDistances | src/navigation2/nav2_costmap_2d/plugins/inflation_layer.cpp:390-428 | on the disk of radius R + 2 the level of p is below that of q exactly when |p|^2 < |q|^2, levels run from 0 at the origin to the returned maximum |
| InflationLevels.FillLevels | src/navigation2/nav2_costmap_2d/plugins/inflation_layer.cpp:413-424 | the running level over the sorted points, entered into the matrix |
| Inflation.InflationLayer.ComputeCaches | src/navigation2/nav2_costmap_2d/plugins/inflation_layer.cpp:352-388 | the caches hold the distance and the cost of every offset up to one cell beyond the radius |
| Inflation.InflationLayer.DistanceLookup | src/navigation2/nav2_costmap_2d/include/nav2_costmap_2d/inflation_layer.hpp:189-196 | the cached distance of two cells near enough, whatever their order |
| Inflation.InflationLayer.CostLookup | src/navigation2/nav2_costmap_2d/include/nav2_costmap_2d/inflation_layer.hpp:206-213 | the cached cost of two cells near enough, whatever their order |
| Inflation.InflationLayer.Enqueue | src/navigation2/nav2_costmap_2d/plugins/inflation_layer.cpp:328-350 | an unseen cell within the radius goes to the bin of its distance, any other is dropped |
| Inflation.InflationLayer.PaintCell | src/navigation2/nav2_costmap_2d/plugins/inflation_layer.cpp:275-293 | the cost is applied inside the bounds only |
| Inflation.InflationLayer.SeedObstacles | src/navigation2/nav2_costmap_2d/plugins/inflation_layer.cpp:241-251 | the first bin lists exactly the obstacles of the scanned region |
| Inflation.InflationLayer.RunWave | src/navigation2/nav2_costmap_2d/plugins/inflation_layer.cpp:253-309 | the loop over the bins, which grow while they are used up |
| Inflation.InflationLayer.MatchSize | src/navigation2/nav2_costmap_2d/plugins/inflation_layer.cpp:120-129 | radius, grid size and caches belong together |
| RingWindow.IdxInjective | src/mapping_cpp/src/lane_mapper.cpp:27-29 | two cells of one window share a slot only if they are the same cell |
| RingWindow.IdxOnto | src/mapping_cpp/src/lane_mapper.cpp:27-29 | every slot stores exactly one cell of the window |
| RingWindow.PModIsMod | src/mapping_cpp/src/lane_mapper.cpp:8-11 | the C remainder with its correction is the remainder in [0, n) |
| RingWindow.ClearedResidues | src/mapping_cpp/src/lane_mapper.cpp:72-87 | the lines between the old and the new origin take the slots of exactly the lines that enter the window |
| LaneMapperObject.LaneMapper.Recenter | src/mapping_cpp/src/lane_mapper.cpp:59-92 | cells of the overlap keep their value, entering cells are blank, everything is blank on the first call and after a jump |
| LaneMapperObject.LaneMapper.ClearColumn | src/mapping_cpp/src/lane_mapper.cpp:45-51 | blanks the slots of one column and no other |
| LaneMapperObject.LaneMapper.ClearRow | src/mapping_cpp/src/lane_mapper.cpp:53-57 | blanks the slots of one row and no other |
| LaneMapperObject.LaneMapper.constructor | src/mapping_cpp/src/lane_mapper.cpp:14-19 | an empty map before the first frame |
| LaneMapperObject.LaneMapper.Reset | src/mapping_cpp/src/lane_mapper.cpp:21-25 | forgets all frames |
| LaneMapperObject.LaneMapper.ClearLeaving | src/mapping_cpp/src/lane_mapper.cpp:80-87 | of two overlapping windows the common cells keep their value and the entering ones are blank |
| LaneMapperObject.LaneMapper.Insert | src/mapping_cpp/src/lane_mapper.cpp:94-213 | after any sequence of calls the map is what the run of all frames since the last reset makes of it, and no evidence and no touched slot is left |
| LaneMapperObject.LaneMapper.ApplyFrame | src/mapping_cpp/src/lane_mapper.cpp:97-212 | the three passes on the slots, for any rectangle |
| LaneMapperObject.LaneMapper.SplatPass | src/mapping_cpp/src/lane_mapper.cpp:102-145 | the loops over points and cells |
| LaneMapperObject.LaneMapper.RoiPass | src/mapping_cpp/src/lane_mapper.cpp:151-204 | the scan of the rectangle |
| LaneMapperObject.LaneMapper.Leftovers | src/mapping_cpp/src/lane_mapper.cpp:206-212 | the hits outside the scan |
| LaneMapperObject.LaneMapper.ApplyLogOdds | src/mapping_cpp/src/lane_mapper.cpp:40-43 | adds, clamps and marks one slot |
| LaneSlots.SplatAllAt | src/mapping_cpp/src/lane_mapper.cpp:102-145 | the evidence of a cell is the greatest splat value that reaches it |
| LaneEvidence.EvidenceIsGaussian | src/mapping_cpp/src/lane_mapper.cpp:104-136 | a point gives a cell the Gaussian of its distance, of the width sigma_base + sigma_per_m r + sigma_per_m2 r^2, over 1 + (r / range_ref)^2 |
| LaneEvidence.DistanceIs | src/mapping_cpp/src/lane_mapper.cpp:110-133 | the distance is that of the centre of the cell from the point turned by the yaw and moved to the pose |
| LaneEvidence.PointsMoveRigidly | src/mapping_cpp/src/lane_mapper.cpp:109-111 | a robot that turns and drives keeps the distances of its points |
| LaneEvidence.SplatReach | src/mapping_cpp/src/lane_mapper.cpp:113-127 | the splat covers every cell whose centre is within three widths along both axes, and less than one and a half cells more |
| LaneEvidence.EvidenceIsStrongest | src/mapping_cpp/src/lane_mapper.cpp:134-142 | the evidence of a frame for a cell is that of a point whose splat reaches it, and no point gives more |
| LaneEvidence.HitsRaise | src/mapping_cpp/src/lane_mapper.cpp:147-211 | in a frame without misses a cell of evidence e > 0 goes from v to v + e l_hit limited to [l_min, l_max], and rises for l_hit > 0 unless it is at l_max; without evidence it keeps its value |
| LaneEvidence.MissesLower | src/mapping_cpp/src/lane_mapper.cpp:189-202 | a frame with misses lowers every scanned cell without evidence that is not at l_min, for l_miss < 0 |
| LaneEvidence.MixedUpdate | src/mapping_cpp/src/lane_mapper.cpp:193-201 | where the scan stays in the window, a scanned cell changes by e l_hit + (1 - e) l_miss / (1 + (x / range_ref)^2) |
| LaneEvidence.EnoughHitsOccupy | src/mapping_cpp/src/lane_mapper.cpp:197-221 | a cell in the window since frame k is occupied once the hits since then add up: n frames of evidence at least e with n e l_hit >= l_occupied |
| LaneSlots.LeftAllAt | src/mapping_cpp/src/lane_mapper.cpp:206-212 | what is left of the evidence counts as one hit, however often its slot was touched |
| LaneSlots.RoiCellsAt | src/mapping_cpp/src/lane_mapper.cpp:172-204 | the scan applies to the slot of a cell the updates of the scanned cells that share it, in scan order; the first takes the evidence |
| LaneSlots.FrameUpdatesCell | src/mapping_cpp/src/lane_mapper.cpp:102-212 | whatever a frame scans, its three passes together apply to every cell of the window exactly its updates: those of the scanned cells sharing its slot, or the leftover hit |
| LaneScan.SharersAreScanned | src/mapping_cpp/src/lane_mapper.cpp:172-188 | the cells that share a slot are the scanned cells congruent to its cell modulo the window, each once |
| LaneScan.FrameIsExact | src/mapping_cpp/src/lane_mapper.cpp:148-204 | a frame without misses, or whose scan stays in the window, gives every cell of the window the one update meant for it |
| LaneScan.ExactIff | src/mapping_cpp/src/lane_mapper.cpp:148-204 | where misses weigh anything and no evidence is a full hit, these are the only such frames |
| LaneScan.SeenExactIff | src/mapping_cpp/src/lane_mapper.cpp:166-202 | in a frame with misses the seen flags come out as meant, from every state, exactly when each cell scanned outside the window uses the slot of a cell that has an update itself |
| LaneScan.UpdatedIff | src/mapping_cpp/src/lane_mapper.cpp:166-202 | a frame with misses updates a cell exactly when it means to or some scanned cell shares its slot |
| LaneScan.FittingScanStaysInside | src/mapping_cpp/src/lane_mapper.cpp:166-169 | a scanned rectangle that ends within the window, or is empty, stays in it |
| LaneScan.ShortReachIsExact | src/mapping_cpp/src/lane_mapper.cpp:152-169 | a region of interest that reaches less far than half the window less a cell makes every frame exact, at every pose |
| LaneScan.ScannedIff | src/mapping_cpp/src/lane_mapper.cpp:166-186 | a window cell of the region of interest is scanned exactly when its coordinates are below width_ and height_ |
| LaneScan.RoiIsTrapezoid | src/mapping_cpp/src/lane_mapper.cpp:175-186 | the region of interest is a trapezoid in the coordinates the code computes: between its ends, and no further aside than the width interpolated between near and far |
| LaneScan.BoxHoldsRegion | src/mapping_cpp/src/lane_mapper.cpp:151-165 | the bounds of the scan hold every point of the rectangle from the near to the far end and as wide as the far end |
| LaneScan.BoxMeetsCorners | src/mapping_cpp/src/lane_mapper.cpp:151-165 | and each of them runs through a corner of that rectangle |
| LaneScan.NothingLeftOutIff | src/mapping_cpp/src/lane_mapper.cpp:166-169 | the scan can leave out window cells exactly when an origin coordinate is positive |
| LaneScan.LeftOutUpdate | src/mapping_cpp/src/lane_mapper.cpp:206-211 | a cell that is left out gets its hits and never a miss |
| LaneDefaults.DeclaredScanLeavesTheWindow | src/mapping_cpp/src/mapping.cpp:48-66 | with the declared parameters a scanned cell lies outside the window, and the cell whose slot it takes counts as seen although the frame has nothing for it |
| LaneDefaults.DeclaredScanLeavesOut | src/mapping_cpp/src/mapping.cpp:48-66 | with the declared parameters, 20 m from the start, a window cell of the region of interest is not scanned |
| LaneSlots.FrameLeavesNoEvidence | src/mapping_cpp/src/lane_mapper.cpp:206-212 | every frame leaves the evidence all zero and the touched list empty |
| LaneSlots.FramePermutes | src/mapping_cpp/src/lane_mapper.cpp:102-212 | wherever a frame scans, it leaves the same slots for every order of its points |
| LaneRuns.CellIsFoldSinceEntry | src/mapping_cpp/src/lane_mapper.cpp:59-213 | in every run an in-window cell holds the clamped fold of its updates since it last entered the window |
| LaneRuns.EntryOf | src/mapping_cpp/src/lane_mapper.cpp:59-92 | every in-window cell entered with some frame of the run and has been in since |
| LaneRuns.RunHolds | src/mapping_cpp/src/lane_mapper.cpp:223-227 | every cell of the map of a run holds the fold from its own entry on |
| LaneRuns.ExactRunsHoldWhatIsMeant | src/mapping_cpp/src/lane_mapper.cpp:172-212 | after exact frames a cell holds the updates meant for it, one per frame at most |
| LaneRuns.FoldIsBounded | src/mapping_cpp/src/lane_mapper.cpp:40-43 | a seen cell is within [l_min, l_max], an unseen one is at 0 |
| LaneRuns.FirstFrameStartsBlank | src/mapping_cpp/src/lane_mapper.cpp:64-70 | the first frame does not depend on what was stored before |
| LaneRuns.PointsPermute | src/mapping_cpp/src/lane_mapper.cpp:102-145 | a frame leaves the same map for every order of its points |
| LaneMapperObject.LaneMapper.LogOdds | src/mapping_cpp/src/lane_mapper.cpp:223-227 | after any sequence of frames, the clamped fold of the updates of the cell at the point since it last entered the window; 0 outside the window |
| LaneMapperObject.LaneMapper.IsOccupied | src/mapping_cpp/src/lane_mapper.cpp:217-221 | whether that value reaches the threshold, inside the window |
| LaneMapperObject.LaneMapper.Snapshot | src/mapping_cpp/src/lane_mapper.cpp:229-274 | the window geometry and, row by row from the origin, -1 unknown, 100 occupied with enough support, 0 otherwise |
| LaneMapperObject.LaneMapper.CountSupport | src/mapping_cpp/src/lane_mapper.cpp:249-262 | the number of occupied cells in the half-open window |
| LaneRuns.SpeckleWindow | src/mapping_cpp/src/lane_mapper.cpp:250-261 | with radius 1 that window is 2 x 2, and a single cell in the lower left corner |
| LaneRuns.SupportIsCount | src/mapping_cpp/src/lane_mapper.cpp:249-262 | with radius 1 the support is the number of occupied cells among the cell itself and its left, lower and lower left neighbours, the last row and the last column never counting |
| LaneRuns.ShownIs | src/mapping_cpp/src/lane_mapper.cpp:235-264 | -1 exactly where nothing was seen, 100 exactly where the value and the support reach their thresholds, and 0 otherwise |
| DeciderObject.Decider.Update | src/bt/include/bt/decision.hpp:108-181 | one list: the new counters, holds, detections, memory and sign time, and the reported decision |
| DeciderObject.Decider.Candidates | src/bt/include/bt/decision.hpp:111-150 | the loop over the detections |
| DeciderObject.Decider.Consider | src/bt/include/bt/decision.hpp:112-150 | one detection: dropped, remembered, or a candidate |
| DeciderObject.Decider.CountSlots | src/bt/include/bt/decision.hpp:152-164 | the three counters and holds |
| DeciderObject.Decider.IsHandled | src/bt/include/bt/decision.hpp:235-258 | whether an entry matches; the first match is refreshed |
| DeciderObject.Decider.Expire | src/bt/include/bt/decision.hpp:260-268 | entries unseen for longer than their time are forgotten, the others stay in order |
| DeciderObject.Decider.MarkHandled | src/bt/include/bt/decision.hpp:186-205 | the entry is appended, its slot reset, and the sign used up by an intersection |
| DeciderObject.Decider.ClearStopSign | src/bt/include/bt/decision.hpp:183-183 | the sign is forgotten |
| DecisionTraces.ReportedActionIsConfirmed | src/bt/include/bt/decision.hpp:152-180 | on every run with nondecreasing time from 0 the reported action is the first of STOP, INTERSECTION, CHANGE whose slot was confirmed by enough consecutive lists since its last reset, now or less than its hold ago, and none otherwise |
| DecisionTraces.ReportedObstacleWasSeen | src/bt/include/bt/decision.hpp:158-179 | the reported obstacle is the candidate of such a confirming list |
| DecisionTraces.CandidateIsNearestEligible | src/bt/include/bt/decision.hpp:112-150 | the candidate of a slot is a nearest detection of the list that may be acted upon |
| NewObstacles.CandidateIff | src/bt/include/bt/decision.hpp:112-150 | a slot has a candidate if and only if some detection of the list calls for its action: in reach by the written thresholds and, but for a STOP, sharing no id with any entry still remembered and more than 1.8 m from every such entry of its class; no such detection is nearer |
| ReportedActions.ReportedIsCalledFor | src/bt/include/bt/decision.hpp:152-181 | on every run with nondecreasing time from 0, told by lists and successes alone: the reported action is the first of STOP, INTERSECTION, CHANGE that is called for, none otherwise; it is called for by a list that completes as many in a row with such a detection as the settings ask, which is the last one or less than the hold time of that action ago, with no success of that action since |
| ReportedActions.ReportedIsNearest | src/bt/include/bt/decision.hpp:158-181 | the reported obstacle is a nearest one of the detections of such a list that call for the action |
| ReportedActions.ShownIsReported | src/bt/include/bt/decision.hpp:152-181 | seen in as many lists in a row as its slot needs, something that calls for an action makes it the reported one: STOP always, INTERSECTION unless a STOP is called for, CHANGE unless one of both is |
| ManeuverSteps.SignTimeOfList | src/bt/include/bt/decision.hpp:129-133 | the sign time after a list is that of the last detection in range that marks a sign, its own time of observation or the time of the list, and unchanged without one |
| DecisionTraces.SlotRuns | src/bt/include/bt/decision.hpp:155-164 | each slot runs on its own ticks, whatever the other slots do |
| Slots.ActiveIffConfirmed | src/bt/include/bt/decision.hpp:157-163 | a slot is active exactly when some tick confirmed it, no reset came after, and it is the last tick or less than the hold ago |
| Slots.HitsAreTrailing | src/bt/include/bt/decision.hpp:157-157 | the counter is the length of the run of candidates at the end |
| Slots.FreshRunNeeded | src/bt/include/bt/decision.hpp:200-202 | after a reset only a full run of its own makes a slot active |
| HandledMemory.NeverCandidateAgain | src/bt/include/bt/decision.hpp:141-142 | while its sightings come no further apart than both time limits, a handled obstacle is never a candidate, whichever entries were refreshed and whichever others expired |
| HandledMemory.MarkingRemembers | src/bt/include/bt/decision.hpp:191-198 | marking the decision made for a detection remembers that detection |
| SharedStateObject.SharedState.constructor | src/bt/include/bt/shared_state.hpp:14-16 | the two deciders share the classes; nothing is latched |
| SharedStateObject.Configured | src/bt/src/bt_executor.cpp:88-113 | the state with its configured turns is the one every run starts from |
| SharedStateObject.SharedState.OnDetections | src/bt/include/bt/shared_state.hpp:20-24 | an obstacle list |
| SharedStateObject.SharedState.OnIntersectionDetections | src/bt/include/bt/shared_state.hpp:27-32 | an intersection list, after forgetting the sign if asked to |
| SharedStateObject.SharedState.BeginIntersection | src/bt/include/bt/shared_state.hpp:39-46 | latches the current intersection unless one is latched |
| SharedStateObject.SharedState.MarkIntersectionStopped | src/bt/include/bt/shared_state.hpp:53-56 | only the need to stop ends |
| SharedStateObject.SharedState.CompleteIntersection | src/bt/include/bt/shared_state.hpp:58-64 | the sent decision is handled, the latch cleared and one turn taken |
| SharedStateObject.SharedState.MarkHandled | src/bt/include/bt/shared_state.hpp:71-76 | the obstacle is handled, and no longer the current one |
| SharedStateObject.IntersectionInput.OnSigns | src/bt/include/bt/intersection_input.hpp:95-130 | what a sign message does to the stamps and which list it hands on |
| SharedStateObject.IntersectionInput.OnLine | src/bt/include/bt/intersection_input.hpp:132-159 | which list a stop-line cloud hands on, and that it is ignored while signs are recent |
| RealStops.RealSignTellsStop | src/bt/include/bt/intersection_input.hpp:95-130 | a message in time and later than the last completion, with its anchor, whose nearest sign with depth is an authentic stop sign in the reach of the class sign: its stamp becomes the sign time, and every INTERSECTION decision of its list needs a stop exactly while less than the time to live has passed |
| RealStops.SignLasts | src/bt/include/bt/intersection_input.hpp:85-93 | in every run this lasts through all line clouds and other steps until the next sign message or completion |
| RealStops.RealSignStops | src/bt/include/bt/shared_state.hpp:39-56 | an intersection latched in that time is latched with a need to stop, which it keeps until a stop is marked |
| StopLines.OtherSignsIgnored | src/bt/include/bt/intersection_input.hpp:96-110 | a message that is late, too far ahead of time or without a sign changes nothing |
| StopLines.UnmeasuredSign | src/bt/include/bt/intersection_input.hpp:110-129 | a sign without usable depth keeps the earlier sign and hands on an empty list |
| StopLines.FakeSignForgets | src/bt/include/bt/intersection_input.hpp:115-129 | when the nearest sign is not authentic, the sign is forgotten and no stop is asked for |
| StopLines.OtherLinesIgnored | src/bt/include/bt/intersection_input.hpp:134-134 | a late line cloud, or one while signs are recent, changes nothing |
| StopLines.LineHandedOnIff | src/bt/include/bt/intersection_input.hpp:132-159 | a line is handed on exactly when enough points, and at least one, lie in the corridor ahead, with their number, the anchor and the distance of the edge; a copy of it as a sign comes along exactly when the real sign was stamped after the last completion and no longer ago than a sign lasts |
| StopLines.LeadHandedOn | src/bt/include/bt/intersection_input.hpp:115-129 | a sign message hands on a line at the distance of its nearest sign with depth, authentic or not, and the copy under the same condition; the stamp is kept exactly for an authentic one |
| StopLines.AheadIsCorridor | src/bt/include/bt/intersection_input.hpp:142-145 | the points that count are those in front and no further aside than the half width |
| StopLines.EdgeIs | src/bt/include/bt/intersection_input.hpp:147-148 | the edge is the value with exactly a tenth of the points, rounded down, before it and no smaller one after it |
| SharedStateObject.IntersectionInput.FindNearest | src/bt/include/bt/intersection_input.hpp:98-110 | the first of the nearest signs with depth, and whether any sign was seen |
| SharedSpec.NearestSign | src/bt/include/bt/intersection_input.hpp:100-109 | the chosen sign has depth and no sign with depth is nearer |
| SharedStateObject.BeginIntersectionTick | src/bt/include/bt/nodes.hpp:92-96 | success exactly when an intersection is latched |
| ManeuverSteps.BeginsIff | src/bt/include/bt/shared_state.hpp:39-46 | a tick latches exactly a fresh INTERSECTION decision that no fresh STOP precedes |
| ManeuverSteps.SeenUnlatched | src/bt/include/bt/shared_state.hpp:102-111 | what the tree sees while nothing is latched: a fresh STOP, else a fresh INTERSECTION, else the fresh obstacle decision, else nothing |
| ManeuverSteps.ListIsSeen | src/bt/include/bt/shared_state.hpp:20-24 | a STOP that an obstacle list reports is what the tree sees from then on until it is stale, whatever is latched; after that nothing of the list is seen |
| ManeuverSteps.SuccessTakesItsOwn | src/bt/include/bt/shared_state.hpp:71-76 | the success for an obstacle takes the decision for it away from the tree, and no other one |
| ManeuverSteps.ClassesSplit | src/bt/include/bt/shared_state.hpp:91-100 | every class goes with its rule to exactly one decider, that of the intersections if it stands for one or marks signs, and lines are remembered as long as obstacles with ids |
| SharedStateObject.IntersectionTurn.SetGoal | src/bt/include/bt/nodes.hpp:261-280 | a goal is sent only after the retry pause, for a latched intersection that does not wait for a stop, and is its next turn |
| SharedStateObject.IntersectionTurn.OnResultReceived | src/bt/include/bt/nodes.hpp:282-292 | success completes the intersection, failure starts the pause |
| SharedStateObject.IntersectionTurn.OnFailure | src/bt/include/bt/nodes.hpp:294-300 | any failure but an invalid goal starts the pause |
| ManeuverSteps.SendsIff | src/bt/include/bt/nodes.hpp:261-280 | a goal is sent exactly when an intersection is latched that waits for no stop, a turn is left, and the pause after the last failure is over |
| ManeuverSteps.LatestFailure | src/bt/include/bt/nodes.hpp:261-300 | in every run the pause counts from the latest failure, of a result, of a goal or of an empty list of turns |
| ManeuverSteps.RetryPause | src/bt/include/bt/nodes.hpp:263-263 | no goal is sent sooner than the pause after any failure |
| Maneuver.BegunStaysLatched | src/bt/include/bt/shared_state.hpp:39-64 | in every interleaving a begun intersection stays latched, the same but for its need to stop, until a goal for it succeeds |
| Maneuver.OnlyFreshStopPreempts | src/bt/include/bt/shared_state.hpp:102-111 | while latched, the current decision is that one or a STOP of a fresh obstacle list |
| Maneuver.TurnsFinishInOrder | src/bt/include/bt/nodes.hpp:261-300 | the turns of successful goals followed by the waiting turns are the configured list; failed and halted goals take none |
| Maneuver.GoalFollowsStop | src/bt/include/bt/nodes.hpp:261-280 | a goal is sent only for an intersection latched before, and after its stop was marked if it needed one |
| Maneuver.StopNeedsNewSign | src/bt/include/bt/intersection_input.hpp:85-130 | a latched need to stop comes from a real sign, stamped after the end of every intersection completed so far, for settings whose rule for lines marks no signs and whose signs last for at most 10^9 s |
| Maneuver.NewLatchNeedsFreshRun | src/bt/include/bt/shared_state.hpp:58-64 | after a completion an intersection is latched again only after its own full run of confirming lists |
| Maneuver.LatchHasStart | src/bt/include/bt/shared_state.hpp:39-46 | a latched intersection was the intersection stream's decision when some tick latched it, and no success came since |
| Maneuver.NoIntersectionRule | src/bt/include/bt/shared_state.hpp:91-100 | the obstacle decider has no intersection candidate |
| FalseStops.StopNeedsSignIff | src/bt/include/bt/decision.hpp:132-133 | where lines alone can trigger an intersection, every latched need to stop of every run goes back to a real sign if and only if the rule for lines marks no signs and a sign lasts for at most 10^9 s |
| FalseStops.StopWithoutSign | src/bt/include/bt/decision.hpp:113-133 | for all other such settings, a run without any sign message that latches a need to stop |
| Nms.SelectDetections | src/vision_cpp/src/model_helpers.cpp:22-68 | the output is that of a ranking of the top candidates, and of the full sort when the flat indices differ |
| Nms.KeptIff | src/vision_cpp/src/model_helpers.cpp:43-54 | a candidate is kept exactly when no better-ranked kept one of its label overlaps it above the threshold |
| Nms.KeptApart | src/vision_cpp/src/model_helpers.cpp:43-54 | two kept candidates of one label overlap by no more than the threshold |
| Nms.DetectionsPermute | src/vision_cpp/src/model_helpers.cpp:31-39 | with unique flat indices the output does not depend on the order of the candidates |
| Nms.RankingIsTop | src/vision_cpp/src/model_helpers.cpp:35-39 | selecting the top 1000 and sorting them is the top of the full sort |
| Nms.IouSymmetric | src/vision_cpp/src/model_helpers.cpp:9-16 | the overlap measure is symmetric |
| Nms.IouIsShare | src/vision_cpp/src/model_helpers.cpp:9-16 | for proper boxes it lies between 0 and 1 |
| NmsOverlap.ApartIsZero | src/vision_cpp/src/model_helpers.cpp:9-16 | boxes with no more than an edge in common do not overlap |
| NmsOverlap.SameIsOne | src/vision_cpp/src/model_helpers.cpp:9-16 | a box overlaps itself fully |
| NmsOverlap.InsideIsShare | src/vision_cpp/src/model_helpers.cpp:9-16 | a box inside another one overlaps it by its share of the area |
| NmsOverlap.SideBySide | src/vision_cpp/src/model_helpers.cpp:9-16 | two boxes in the same rows overlap by the common part of their joint width |
| NmsOverlap.SuppressedHasCause | src/vision_cpp/src/model_helpers.cpp:43-54 | a suppressed candidate overlaps a better-ranked survivor of its label above the threshold |
| NmsOverlap.ClearSurvives | src/vision_cpp/src/model_helpers.cpp:43-54 | a candidate that no better-ranked one of its label overlaps above the threshold survives |
| NmsOverlap.RankedByScore | src/vision_cpp/src/model_helpers.cpp:31-39 | scores never rise along the ranking, equal scores come by flat index, and nothing left out scores better |
| NmsOverlap.BoxesAreDrawn | src/vision_cpp/src/model_helpers.cpp:57-67 | the boxes are, in order, those of exactly the candidates that are large enough on both sides once scaled and pressed into the frame |
| NmsOverlap.OutputByScore | src/vision_cpp/src/model_helpers.cpp:55-67 | there are at most max_dets of them, by falling score |
| Nms.Rank | src/vision_cpp/src/model_helpers.cpp:28-39 | selection and sorting give a ranking |
| Nms.Suppress | src/vision_cpp/src/model_helpers.cpp:41-54 | the greedy loop keeps the positions of the specification |
| Nms.FillOutput | src/vision_cpp/src/model_helpers.cpp:57-67 | boxes are scaled, clamped and the small ones dropped, in order |
| TrackerRuns.RunAll | src/lidar_cam_fusion/src/obstacle_memory.cpp:128-266 | in every run hits <= age, tentative tracks have id 0, confirmed ones their own confirmation number and as id that number modulo 2^32, a position is the mean of up to five measurements and in their hull after that |
| TrackerRuns.MatchingIsInjective | src/lidar_cam_fusion/src/obstacle_memory.cpp:155-191 | within a frame no two detections go to the same track |
| TrackerRuns.HitKeepsTrack | src/lidar_cam_fusion/src/obstacle_memory.cpp:170-175 | one match keeps mean, hull and hits |
| TrackerRuns.FrameKeepsIdentity | src/lidar_cam_fusion/src/obstacle_memory.cpp:167-181 | a confirmed track stays confirmed with the same id |
| TrackerRuns.KeptFrom | src/lidar_cam_fusion/src/obstacle_memory.cpp:227-240 | a tick keeps exactly the tracks that have not expired, unchanged and in order |
| TrackIds.SharedIdIff | src/lidar_cam_fusion/src/obstacle_memory.cpp:177-180 | in every run two confirmed tracks share an id exactly when the numbers of their confirmations, which differ, differ by a multiple of 2^32 |
| TrackIds.FirstIdsDiffer | src/lidar_cam_fusion/src/obstacle_memory.cpp:177-180 | for the first 2^32 - 1 confirmations all ids are different and not 0 |
| TrackIds.ConfirmedAsZeroIff | src/lidar_cam_fusion/src/obstacle_memory.cpp:177-180 | a confirmed track gets the id 0, which means no obstacle, exactly when 2^32 divides the number of confirmations it completes |
| TrackIds.IdsRunOut | src/lidar_cam_fusion/src/obstacle_memory.cpp:47-54 | a run with the declared parameters, 2^32 encounters one after the other, that ends with a confirmed track of id 0 |
| TrackerSpec.NearestIs | src/lidar_cam_fusion/src/obstacle_memory.cpp:152-164 | the search finds a nearest unmatched track of the class within the gate, or there is none |
| TrackerRules.JoinsNearest | src/lidar_cam_fusion/src/obstacle_memory.cpp:150-164 | a detection joins the first of the nearest unmatched tracks of its class within gate_base + gate_range times its distance |
| TrackerRules.DetectionTaken | src/lidar_cam_fusion/src/obstacle_memory.cpp:143-191 | it moves that track to the mean of its measurements, or by a fifth once there are more than four, counts the hit and whether it is in the lane, confirms it with the next id by enough hits at an early enough age, and leaves the others; joining none, it starts a track exactly when it is in the lane |
| TrackerRules.FrameTaken | src/lidar_cam_fusion/src/obstacle_memory.cpp:138-201 | a track that nothing joins only grows older, and counts a miss exactly when the camera sees its place and every detection has its depth |
| TrackerRules.TickKeeps | src/lidar_cam_fusion/src/obstacle_memory.cpp:227-264 | a tick drops exactly the tracks behind the robot, out of the lane or missed for too long, or too old to be confirmed, and publishes the confirmed ones left |
| ObstacleMemoryObject.ObstacleMemory.DetectionCallback | src/lidar_cam_fusion/src/obstacle_memory.cpp:128-202 | the effect of a frame on the tracks |
| ObstacleMemoryObject.ObstacleMemory.FindNearest | src/lidar_cam_fusion/src/obstacle_memory.cpp:152-164 | the search loop |
| ObstacleMemoryObject.ObstacleMemory.UpdateTrack | src/lidar_cam_fusion/src/obstacle_memory.cpp:167-181 | smoothing and confirmation of the matched track |
| ObstacleMemoryObject.ObstacleMemory.TimerCallback | src/lidar_cam_fusion/src/obstacle_memory.cpp:225-266 | expired tracks are dropped, the confirmed others published in order, with the id of the first nearest one ahead or 0 |

## Left out

- Floating-point rounding, overflow of counters other than the stamp, the hash and the track ids, and NaN other than the values the code tests with `isfinite`.
- SkeletonOrder.SkelScratch.OrderSkeletonPixels: needs at most 32768 distinct labels, because with more the probe loop of the source would not end; frames hold at most 8192 pixels (`SkeletonOrder.DistinctAtMost`).
- SavitzkyGolay.Smoother.Apply: the window is odd, longer than the polynomial order and at most as long as the data, as the callers arrange; the flattened edge matrices are kept as rows.
- Vandermonde.VanderPinv: distinct offsets and full rank, which the callers' integer offsets have; without them the source divides by zero.
- SavitzkyGolay.SlopeOfLinesAtEnds: only straight lines, because the code fits a straight line at the ends when a slope is asked for.
- Inflation.InflationLayer.UpdateCosts: distances are kept as squared integers and the cost is a function of the squared distance, lethal at 0 and never increasing. That every cell within the radius gets the cost of its nearest obstacle is not promised, because it is false (`InflationGap.CellMissed`); which of two equally near obstacles offered to a cell it is reached from is left open.
- InflationExact.SceneExactIff: for scenes without ties; with ties the two directions are `InflationExact.SurelyExact` and `InflationExact.ExactIsHanded`, which differ in whether the neighbour belongs to that obstacle alone.
- LaneMapperObject.LaneMapper.Insert: no claim is made that the scan covers the sensor's footprint, because its lateral coordinate uses the sine twice; the region of interest is the one the code computes.
- ThinningDrivers.ZhangSuenThinning: the same image for every driver only where the chunk length divides `max_iter` or the mask has at most `max_iter` pixels, because it is not true in general (`ChunkWitness.ChunkedImageDiffers`).
- ThinningDrivers.ThinGraphed: the recording of the graphs, the timing and the self-comparison of `enable_fused_thinning`; the topology of the Zhang-Suen iterations themselves (a 2x2 block vanishes).
- Maneuver.StopNeedsNewSign: for settings in which the class `stopline` does not mark stop signs and a sign is forgotten within 10^9 s; `FalseStops.StopNeedsSignIff` shows that both are needed where a line alone can trigger an intersection.
- Maneuver.NewLatchNeedsFreshRun: for `confirm_intersection` of at least 1.
- DecisionTraces.ReportedActionIsConfirmed: for clocks that start at 0 or later and never run backwards.
- HandledMemory.NeverCandidateAgain: for an obstacle whose id, class and position stay the same; a sighting refreshes the first entry it matches, so one that drifts may refresh another entry than the one it needs later.
- LaneScan.ExactIff: the converse of `LaneScan.FrameIsExact` asks for a miss weight other than 0 and no cell with evidence 1, where a miss adds nothing; the seen flags need no such condition (`LaneScan.SeenExactIff`).
- Nms.SelectDetections: the cut `max_dets` is not negative; ties of score and flat index leave the ranking open, as they do in the source.
- ObstacleMemoryObject.ObstacleMemory.TimerCallback: the published message is the list of tracks; poses in the base frame are the given transform of their positions.
- The decider's fixed arrays of three and the vectors of the tracker and the node state are sequences in fields, so aliasing of their storage is not modelled.
- The wrapper around the ROS action client is not part of this model; a goal that was halted or failed delivers no result afterwards, and there is one intersection node.
- The behaviour tree's XML, the blackboard, `DecideAction`, `LaneFollowing`, `StopRobot` and the lane-change node beyond its call of `mark_handled`.
- Transforms and their failure other than as a missing value, parameters, publishers, logging, mutexes and markers.
- The CUDA and TensorRT pipeline, OpenCV's labelling of components, the remaining centerline generation, the Nav2 servers and the other costmap layers.
