# Dewfall: a verified model of its hardest parts

Dewfall stores a point cloud as a Morton-ordered octree with level-of-detail copies. This project
models seven of its components in Dafny and proves what they are for. Every result holds for all
inputs, all runs or all reachable states; nothing is bounded by a fuel parameter.

| component | files | main results |
|---|---|---|
| attribute amend | `Bytes`, `SpillFile`, `KeyedRecords`, `ExternalSort`, `AttributeAmend`, `AmendByValue` | the external sort is the stable sort by key for every budget; the sliced merge join equals a "last value per key" table lookup for every budget; every point receives the last value added under its number, for every integer key type |
| region walk | `RegionWalk`, `RegionWalkTheorems`, `OctreeForest`, `OctreeCells` | over a stored forest that encodes an octree, the walk with its set-bit ordinals is the recursive query over that octree; it stops at no stored node twice, converges within ten walks, and loses no point of the query box to pruning |
| input registry | `InputRegistry`, `RegistryHistory`, `InputRegistryObject`, `RegistrySnapshot`, `RegistryRestore` | the invariant of every run, when the "done" watermark is right and that nothing arrives below it, the snapshot round trip |
| Morton ordering | `Morton`, `LodOrder`, `OctantSplit`, `PointPacking` | the coarse-to-fine order, the octant split, one representative a cell, lossless narrowing with both decoders agreeing |
| request protocol | `RequestProtocol`, `RequestProgress` | over every interleaving: one final status, one callback, no waiter left asleep |
| region result | `PointClip`, `RegionResult`, `RegionQuery` | in-place clipping is a stable filter in step across all buffers; batched assembly is the walk-order concatenation for every batch size; walk, tight boxes and assembly together return every in-box leaf point once |
| renderer scheduling | `RenderList`, `IoScheduler`, `IoProgress` | the render list merge loses and doubles nothing and lets departed nodes go in bounded time; loads and uploads respect the byte budgets |

The code is modelled in its own form. Buffers and columns filled or compacted in place are arrays;
spill files, the pending attribute, the registry, the request and the render nodes are classes whose
methods are tied to specification functions; loops keep their cursors. The request protocol is a
state machine in which each atomic access, lock operation and notification is one step.

## Premises

- Doubles and floats are reals, sizes and counters are naturals. Widths that decide a result are
  explicit: key widths, little-endian fields, code types, the wrap of the last octant bound, 32-bit
  grid steps, 64-bit subtraction.
- Morton codes are naturals read in base eight; the code types keep 10, 21, 42 and 64 digits.
- Library sorts, heaps and `lower_bound` are written out. Where the library leaves the order of equal
  elements open, the contract used by the proofs leaves it open too.
- Time, thread scheduling, cancellation, readiness of a load, what storage holds and what a worker has
  finished are parameters, or steps that may come at any moment.

## Where the code falls short

The model follows the code. Each case below has a concrete input and the exact condition.

- `src/access/region_walk.hpp:105` calls `tight` the actual bounds of a node's points, but
  `src/access/region_walk.cpp:77` takes it from the least and greatest Morton code.
  `PointPacking.ExtremesDoNotBound` gives three points for which these do not bound the third, and
  `OctreeCells.NodeIsDroppedDespiteItsPoint` a query that drops the node although it holds that point.
  `OctreeCells.TightTestIsSafeExactlyWhenItBounds` and
  `OctreeCells.TightContainmentIsSafeExactlyWhenItBounds` say that the two uses of `tight` are right
  for every query exactly when it does bound the points.
- The watermark looks at the first unfinished dispatched file and at undispatched files only. When a
  file with a lower order is registered and dispatched later it overclaims
  (`InputRegistry.LateFileOverclaims`, reached by the run of `InputRegistry.LateFileIsReachable`).
  `InputRegistry.BoundaryIsFloorExactly`: it is right exactly when every unfinished file dispatched
  later has an order at or above the first unfinished one's or some undispatched file's.
- The upper bound of octant 7 is one past the node and wraps when the node ends at the top of the code
  type. `OctantSplit.LastOctantIsLost` is such a node, and `OctantSplit.ForEachOctantRange` covers the
  window exactly when the bound does not wrap or no code has digit 7. Only the widest type can wrap
  (`OctantSplit.NarrowTypesDoNotWrap`).
- A restored snapshot re-reads dispatched files that were not done and keeps their counters.
  `RegistrySnapshot.HalfInsertedIsCountedTwice` ends with two chunks counted for a file that has one,
  from the state of `RegistrySnapshot.HalfInsertedIsReachable`. `RegistrySnapshot.ResumeIsSoundExactly`:
  a resume is sound exactly when no such file had announced or inserted a chunk.
- `cancel` notifies without the wait mutex. `RequestProtocol.CancelCanMissAWaiter` is a run in which a
  waiter sleeps on, and by `RequestProtocol.CancelMissesExactly` that can happen to a waiter exactly
  when the notification finds it between its test and its sleep.
- The mask of the widest span, 63, leaves its third word empty (`src/core/morton.hpp:422-458`; a debug
  build stops at an assertion). The renderer's decoder then mixes the top words of different points:
  `PointPacking.WidestSpanLosesAPoint`. By `PointPacking.ConvertAndSort` it returns every point of a
  batch exactly when the span is at most 62; the access decoder always does.
- `src/converter/lod_quantize.hpp:37-39` says that from lod nine down every point is its own representative,
  but a width of zero still covers one digit. `LodOrder.FullDetailLosesAPoint` is a pair of points of which one
  is dropped; `LodOrder.FullDetailExactly`: none is exactly when no two neighbours share a 2 by 2 by 2 cell.
- An attribute's stride is that of the first node that carries it. A node that stores it with another
  stride is read wrongly (`RegionResult.OtherStrideMisreads`); by
  `RegionResult.RowIsStoredValueExactly` a row is the stored value exactly when the strides agree.
- A node without the drawn attribute is estimated as having none, but the decoder gives it a byte a point
  (`src/converter/node_decode.cpp:94-102`). `IoScheduler.SlimNodeIsUnderestimated`, and by
  `IoScheduler.WholeUnitCoveredExactly` the estimates cover a unit announced whole exactly when the node has
  the attribute (or no points).
- The walker announces the points of a subset, the decoder decodes the whole unit.
  `IoScheduler.SplitUnitIsUnderestimated`; `IoScheduler.EstimatesCoverExactly` is the condition for any unit,
  and by `IoScheduler.SplitUnitCoveredExactly` an attribute that is not widened leaves no slack.
- An upload is charged the raw attribute but transfers floats when it widens it, the substituted byte
  included. `IoScheduler.WidenedByteIsUndercharged` is a node charged three bytes too few, and by
  `IoScheduler.ChargeCoversTransferExactly` the charge suffices exactly when nothing is widened or the raw
  values are no narrower than floats.

## Model

| member | source | states |
|---|---|---|
| `SpillFiles.SpillFile.Append` | src/converter/attribute_amend.cpp:353-364 | the bytes written so far, on disk and in the buffer together, grow by exactly the record |
| `SpillFiles.SpillFile.Flush` | src/converter/attribute_amend.cpp:366-382 | everything appended is on disk, in order, and the buffer is empty |
| `SpillFiles.SpillFile.Refill` | src/converter/attribute_amend.cpp:429-453 | the unread tail moves to the front and the pending stream is unchanged, so a straddling record is not cut |
| `SpillFiles.SpillFile.Next` | src/converter/attribute_amend.cpp:429-453 | a record is returned exactly when a whole one is pending; a partial one is an error, an empty stream is not |
| `SpillFiles.ReadAll` | src/converter/attribute_amend.cpp:410-453 | for every buffer size: all records in order, and an error exactly when the file ends inside a record |
| `SpillFiles.RoundTrip` | src/converter/attribute_amend.cpp:334-453 | for every pair of buffer sizes, what was appended and flushed is read back identical and in order, then the stream ends without error |
| `KeyedRecords.StableSortUnique` | src/converter/attribute_amend.cpp:145-152 | sorted by key with equal keys in arrival order determines the sequence |
| `KeyedRecords.StableSortIsPermutation` | src/converter/attribute_amend.cpp:145-152 | such a sequence loses, adds and doubles nothing |
| `ExternalSort.FormRuns` | src/converter/attribute_amend.cpp:160-222 | the blocks the runs are sorted from are the input, cut in order, each but the last of exactly the given length; an error exactly when the input ends inside a record |
| `ExternalSort.RunFillsBudget` | src/converter/attribute_amend.cpp:156-157 | a run holds the most records that fit the budget, and at least one |
| `ExternalSort.RunsKeepArrivalOrder` | src/converter/attribute_amend.cpp:146-152 | sorting each run leaves the records of every key in arrival order across the runs |
| `ExternalSort.PopKeepsMerging` | src/converter/attribute_amend.cpp:225-275 | taking the least key, ties to the lowest run, keeps output plus remaining runs equal to the input key by key |
| `ExternalSort.MergeRuns` | src/converter/attribute_amend.cpp:225-275 | the k-way merge over buffered run files writes the stable sort |
| `ExternalSort.SortSpillByKey` | src/converter/attribute_amend.cpp:153-277 | for every file, budget and buffer size the output is exactly the stable sort by key; it fails exactly on a truncated file |
| `AttributeAmend.WidenInjective` | src/converter/attribute_amend.cpp:67-113 | widening keys of one column never makes two different elements collide |
| `AttributeAmend.TableIsLastWithKey` | src/converter/attribute_amend.cpp:513-542 | the reference table holds exactly the last value added for each key |
| `AttributeAmend.StableSortKeepsTable` | src/converter/attribute_amend.cpp:146-152 | looking a key up in the sorted log gives the last value added, without a stored ordinal |
| `AttributeAmend.PendingAttribute.AddData` | src/converter/attribute_amend.cpp:513-542 | any number of calls extend the log by exactly the new entries; the ascending flag always tells whether the whole log is in key order |
| `AttributeAmend.PendingAttribute.Close` | src/converter/attribute_amend.cpp:544-568 | the closed spill file holds exactly the log |
| `AttributeAmend.MergeJoin` | src/converter/attribute_amend.cpp:683-722 | the two-cursor scan fills every slot of every unit of the slice with the table's value for its key, zeros if there is none |
| `AttributeAmend.GatherSlice` | src/converter/attribute_amend.cpp:600-677 | a slice is the next stretch of joinable units with all their keys; it is below the budget but for its last unit and ends only at the budget or after the last unit |
| `AttributeAmend.AmendSlice` | src/converter/attribute_amend.cpp:597-748 | one pass finishes a non-empty stretch of units as the table lookup says and touches no other unit |
| `AttributeAmend.CommitAttribute` | src/converter/attribute_amend.cpp:544-748 | for every budget each joinable unit gains exactly the looked-up column, once, and every other unit is unchanged |
| `AttributeAmend.Commit` | src/converter/attribute_amend.cpp:544-763 | all declared attributes in turn, each against the units the previous one left; fails exactly when there is an attribute and no unit |
| `AttributeAmend.AmendKeepsOtherSlots` | src/converter/attribute_amend.cpp:122-134 | what a reader could resolve before reads the same after; the new name reads the joined column; slots stay aligned |
| `AmendByValue.WidenIsNumber` | src/converter/attribute_amend.cpp:67-113 | for each of the eight integer types the widened key is the number its bytes stand for, in two's complement where the type is signed, modulo 2^64 |
| `AmendByValue.SizeIsBits` | src/core/format_util.hpp:31-57 | every element type takes the bytes of its bits, the Morton types those of their codes |
| `AmendByValue.EntriesAppend` | src/converter/attribute_amend.cpp:513-542 | successive calls add up to one log of entries |
| `AmendByValue.JoinableExactly` | src/converter/attribute_amend.cpp:608-643 | a unit is joined exactly when it lacks the name, has the key as one component of an integer type and stores at least one whole element of it |
| `AmendByValue.PointGetsLastValue` | src/converter/attribute_amend.cpp:513-748 | in a unit whose key column stores numbers of any integer type, each point receives the last value added under its number modulo 2^64, or zeros |
| `AmendByValue.CommitLandsEvery` | src/converter/attribute_amend.cpp:544-763 | after a commit of several attributes every new name reads its joined column, keys and old attributes read as before |
| `RegionWalk.EmitNode` | src/access/region_walk.cpp:70-117 | appends the node's units the mode asks for and adds exactly their points to the total |
| `RegionWalk.ExpandNode` | src/access/region_walk.cpp:171-207 | with set-bit ordinals counted also for skipped octants, finds exactly the children and missing trees of the octant-by-octant definition |
| `RegionWalk.Run` | src/access/region_walk.cpp:121-210 | the worklist loop yields the specified walk: nodes, point total and trees to load |
| `RegionWalkTheorems.WalkEmitsItsStops` | src/access/region_walk.cpp:146-209 | in every mode the nodes are what the stop nodes emit, in order, and the total is their point count |
| `RegionWalkTheorems.WalkRefinesRecursion` | src/access/region_walk.cpp:121-210 | breadth first stops at the same entries, each as often, as depth-first recursion over the walk's own child function, whatever is resident |
| `RegionWalkTheorems.CapIsHarmless` | src/access/region_walk.cpp:146-147 | in a forest shallower than the depth cap, a deeper recursion finds the same stop nodes |
| `RegionWalkTheorems.SingleFrontier` | src/access/region_walk.hpp:27-32 | in all three modes no stop node's path is a prefix of another's |
| `OctreeForest.RankFindsKid` | src/access/region_walk.cpp:171-183 | the ordinal of an octant's bit is the index of the kid in that octant |
| `OctreeForest.ChildIsKid` | src/access/region_walk.cpp:171-205 | an octant is absent exactly when the octree node has no kid there, and the slot computed from the ordinal holds that kid, on the next level or at the root of the sub-tree referred to |
| `OctreeForest.WalkReadsTheOctree` | src/access/region_walk.cpp:121-210 | in every mode, whatever is resident, each stop and worklist entry reads the data, kids and lod of the octree node at its path |
| `OctreeForest.StopsAreDistinctStoredNodes` | src/access/region_walk.hpp:27-32 | in all three modes no two stops have the same tree, level and slot |
| `OctreeForest.WalkIsTheOctreeQuery` | src/access/region_walk.cpp:121-210 | a walk that misses no tree selects exactly the units of the recursive query over the encoded octree, each as often |
| `OctreeForest.WalkIsTheLevelOrderQuery` | src/access/region_walk.cpp:121-210 | in every mode, the point budget included, such a walk selects exactly the units of the level-order query over the octree, in the same order and with the same running total |
| `OctreeForest.GappedIsEncoded` | src/converter/tree_build.cpp:120-160 | a tree whose mask has gaps, laid out as the builder does, meets the premise of these theorems |
| `RegionWalkTheorems.CompleteLevelsAreFinal` | src/access/region_walk.cpp:146-209 | levels walked without a missing tree are the same in any larger resident set, also when the running total steers the descent |
| `RegionWalkTheorems.RoundAdvances` | src/access/dataset.cpp:226-242 | loading what a round asked for makes five more levels free of misses |
| `RegionWalkTheorems.WalkToConvergence` | src/access/dataset.cpp:226-242 | at most ten walks in every mode; it fails only when a load fails, and otherwise the answer is the walk over everything resident |
| `OctreeCells.HalfCovers` | src/access/region_walk.cpp:28-40 | halving the real range of 2h grid points leaves a range that covers the h points of either half |
| `OctreeCells.CornersCover` | src/access/region_walk.cpp:53-60 | the box from a cube's corner codes covers the cube |
| `OctreeCells.WalkIsSound` | src/access/region_walk.cpp:138-205 | at every depth a node's halved box covers every grid point of its octant and an inherited "fully inside" is true of all of them |
| `OctreeCells.InBoxOctantIsKept` | src/access/region_walk.cpp:185-205 | an octant with a grid point in the query box is not pruned |
| `OctreeCells.WalkLosesNoPoint` | src/access/region_walk.cpp:146-209 | in every mode and after every level, a wanted grid point lies under a stop or worklist entry, or under an expanded node with no octant for it or one that is not resident |
| `OctreeCells.CompleteWalkEndsAtGaps` | src/access/region_walk.cpp:190-203 | in a walk that misses no tree the last case is only that the octree has no node there |
| `OctreeCells.TightTestIsSafeExactlyWhenItBounds` | src/access/region_walk.cpp:77-79 | dropping a stop node by its tight box is safe for every query exactly when that box bounds the node's points |
| `OctreeCells.TightContainmentIsSafeExactlyWhenItBounds` | src/access/region_walk.cpp:113 | skipping the clip because the tight box is inside is right for every query under exactly the same condition |
| `OctreeCells.NodeIsDroppedDespiteItsPoint` | src/access/region_walk.cpp:77-79 | a node with three points from which a query that holds one of them gets nothing |
| `InputRegistry.StepKeepsInv` | src/converter/input_data_source_registry.cpp:63-233 | every event keeps counters equal to their per-file sums, dispatch flags and lists in agreement, and the done prefix done |
| `InputRegistry.RunKeepsInv` | src/converter/input_data_source_registry.cpp:63-292 | so does every run |
| `InputRegistry.CompletionIsExact` | src/converter/input_data_source_registry.cpp:152-188 | the three counters report completion exactly when every file is done, whichever retire paths fired |
| `InputRegistry.DispatchedOnce` | src/converter/input_data_source_registry.cpp:190-233 | no file is dispatched twice in a run, and the sorted list records the dispatches in order |
| `InputRegistry.EveryDispatchIsLeast` | src/converter/input_data_source_registry.cpp:190-233 | every dispatch of every run is of an eligible file of least order at its time |
| `InputRegistry.BoundaryNeverTooLow` | src/converter/input_data_source_registry.cpp:242-292 | the boundary is at least the least order of the unfinished files |
| `InputRegistry.BoundaryIsFloorExactly` | src/converter/input_data_source_registry.cpp:262-285 | it is that least order exactly when each unfinished file dispatched after the first unfinished one is at or above that one's order or some undispatched file's |
| `InputRegistry.RunKeepsRising` | src/converter/input_data_source_registry.cpp:190-292 | in every run without a late lower file the watermark, whenever asked for, is the least order of the unfinished files |
| `InputRegistry.PreInitsFirst` | src/converter/input_data_source_registry.cpp:94-107 | when all pre-init results land before the first dispatch, the watermark is right throughout |
| `InputRegistry.StepRaisesFloor` | src/converter/input_data_source_registry.cpp:117-182 | between registrations the true bound never falls |
| `InputRegistry.BelowWatermarkIsFinal` | src/converter/input_data_source_registry.cpp:125-134 | over every run without a registration no points arrive strictly below a bound that was right, and it stays right |
| `InputRegistry.WatermarkNeverFalls` | src/converter/input_data_source_registry.cpp:242-292 | in a run without a registration no answer is lower than an earlier one that was right |
| `InputRegistry.AnsweredExactly` | src/converter/input_data_source_registry.cpp:242-292 | there is an answer exactly when the first dispatched file is done and neither the first unfinished dispatched file nor a never dispatched one has order zero; it is the least order of those files, all-ones if there are none |
| `InputRegistry.AllDoneIsAnswered` | src/converter/input_data_source_registry.cpp:254-292 | with every file done and one dispatched the answer is all-ones |
| `InputRegistry.FailedIsFinal` | src/converter/input_data_source_registry.cpp:162-174 | over every run a failed file stays finished and is never dispatched again; if it was not dispatched before, it is done |
| `RegistryHistory.FileTellsItsHistory` | src/converter/input_data_source_registry.cpp:94-233 | over every run a file is settled, started and finished exactly if an event did it, counts the chunks announced and inserted, has the last pre-init's order and the extremes of the points that arrived |
| `RegistryHistory.NamesStayDistinct` | src/converter/input_data_source_registry.cpp:63-92 | over every run no two files share a name, and every registered name has its file |
| `InputRegistry.LateFileOverclaims` | src/converter/input_data_source_registry.cpp:262-285 | a state in which the watermark is 5 while a file may still add a point at 3 |
| `InputRegistry.LateFileIsReachable` | src/converter/input_data_source_registry.cpp:63-292 | a legal run from the empty registry reaches that state |
| `InputRegistryObject.Registry.RegisterFile` | src/converter/input_data_source_registry.cpp:63-92 | a new name gets the next id, a known one its own id and whether it is complete; the state is the event's |
| `InputRegistryObject.Registry.RegisterPreInit` | src/converter/input_data_source_registry.cpp:94-107 | the new state is the pre-init event's; the invariant is kept when the event is legal |
| `InputRegistryObject.Registry.HandleSubAdded` | src/converter/input_data_source_registry.cpp:117-123 | the new state is the event's; the invariant is kept when the event is legal |
| `InputRegistryObject.Registry.HandleSortedPoints` | src/converter/input_data_source_registry.cpp:125-134 | the new state is the event's; the invariant is kept when the event is legal |
| `InputRegistryObject.Registry.HandleReadingDone` | src/converter/input_data_source_registry.cpp:152-160 | the new state is the event's; the invariant is kept when the event is legal |
| `InputRegistryObject.Registry.HandleFileFailed` | src/converter/input_data_source_registry.cpp:162-174 | the new state is the event's; the invariant is kept when the event is legal |
| `InputRegistryObject.Registry.HandleTreeDone` | src/converter/input_data_source_registry.cpp:176-182 | the new state is the event's; the invariant is kept when the event is legal |
| `InputRegistryObject.Registry.AllInsertedIntoTree` | src/converter/input_data_source_registry.cpp:184-188 | true exactly when every file is done |
| `InputRegistryObject.Registry.NextInput` | src/converter/input_data_source_registry.cpp:190-233 | hands out an eligible file to which no eligible file is lower, or nothing exactly when none is eligible |
| `InputRegistryObject.Registry.GetDoneMorton` | src/converter/input_data_source_registry.cpp:242-292 | advances the done prefix as far as it goes and returns the watermark of that state |
| `RegistrySnapshot.SizeIsExact` | src/converter/input_data_source_registry.cpp:315-330 | the precomputed size is exactly the bytes written |
| `RegistrySnapshot.Serialize` | src/converter/input_data_source_registry.cpp:315-366 | no write runs out of room and the buffer ends up full, holding the encoding |
| `RegistrySnapshot.RoundTrip` | src/converter/input_data_source_registry.cpp:315-473 | restoring gives back ids, names, orders, bounds, counts and done prefix; only dispatched files that were not done lose their flag and their place |
| `RegistryRestore.Deserialize` | src/converter/input_data_source_registry.cpp:370-473 | the reading loops compute the decoding for any bytes, errors included |
| `RegistryRestore.RestoredFileExactly` | src/converter/input_data_source_registry.cpp:388-464 | field by field what a restored file is; eligible for dispatch are exactly the files that still have to be read |
| `RegistryRestore.RestoredIsWorkable` | src/converter/input_data_source_registry.cpp:370-473 | whatever the bytes, a registry that is restored has no id twice, a dispatched list of known complete files, a done prefix inside it and fresh ids above all others |
| `RegistryRestore.MagicIsNeeded` | src/converter/input_data_source_registry.cpp:313-380 | only bytes that start with 'ISR1' are restored |
| `RegistryRestore.TruncationIsRefused` | src/converter/input_data_source_registry.cpp:376-433 | a snapshot cut short anywhere is refused |
| `RegistrySnapshot.InvIsCoherent` | src/converter/input_data_source_registry.cpp:315-366 | every reachable registry qualifies for the round trip |
| `RegistrySnapshot.SecondRoundTripIsIdentity` | src/converter/input_data_source_registry.cpp:370-473 | a second round trip changes nothing |
| `RegistrySnapshot.FreshIdsExceedRestored` | src/converter/input_data_source_registry.cpp:370-473 | ids given out after a restore exceed all restored ones |
| `RegistrySnapshot.ResumeIsSoundExactly` | src/converter/input_data_source_registry.cpp:370-473 | the restored registry satisfies the run invariant exactly when no dispatched unfinished file had announced or inserted a chunk |
| `RegistrySnapshot.HalfInsertedIsReachable` | src/converter/input_data_source_registry.cpp:117-182 | a legal run to a file whose only chunk is inserted while its read goes on |
| `RegistrySnapshot.HalfInsertedIsCountedTwice` | src/converter/input_data_source_registry.cpp:435-462 | from there, restoring and re-reading legally counts the one chunk twice |
| `Morton.LodIsCell` | src/core/morton.hpp:462-466 | the highest differing digit is at most w exactly when the codes share the cell of width w |
| `Morton.BelowCellMax` | src/core/morton.hpp:790-797 | comparing with a cell's maximum compares cells |
| `Morton.ModulusIsWidth` | src/core/morton.hpp:417-429 | each code type takes the numbers of its bits and has a third as many whole digits |
| `LodOrder.BuildLodOrder` | src/converter/point_buffer_render_helper.hpp:368-408 | perm is the counting sort's placement, each prefix count is the number of points of that level or coarser, levels follow their points |
| `LodOrder.PermIsStableSort` | src/converter/point_buffer_render_helper.hpp:384-394 | perm is a permutation, coarse before fine and stable within a level |
| `LodOrder.LevelMarksFirst` | src/converter/point_buffer_render_helper.hpp:352-356 | in a sorted array a point's level exceeds w exactly when it opens its width-w cell |
| `LodOrder.PrefixIsOnePerCell` | src/converter/point_buffer_render_helper.hpp:352-408 | the first prefix_count[w+1] entries of perm are exactly the first points of the occupied width-w cells |
| `LodOrder.FindIndicesToQuantize` | src/converter/lod_quantize.hpp:75-112 | one representative for each occupied cell of the clamped width, in order and inside its cell |
| `LodOrder.RepresentativesPartition` | src/converter/lod_quantize.hpp:75-112 | the representatives lie in pairwise different cells and every point's cell has one |
| `LodOrder.SameNumberOfRepresentatives` | src/converter/lod_quantize.hpp:75-112 | it emits as many as the prefix count of the same width |
| `LodOrder.ClampIsHarmless` | src/converter/lod_quantize.hpp:81-87 | for every lod and code type, clamping the lod's mask width groups no two codes of the type differently |
| `LodOrder.RepresentativesPerNode` | src/converter/lod_quantize.hpp:43-48 | a node of any lod is quantized to at most 8^9 representatives, and to at most 8^lod below lod nine |
| `LodOrder.FullDetailExactly` | src/converter/lod_quantize.hpp:37-48 | at lod nine and below every point represents itself exactly when no two neighbours in the order share a 2 by 2 by 2 cell |
| `LodOrder.FullDetailLosesAPoint` | src/converter/lod_quantize.hpp:37-48 | two adjacent points of which only one is picked |
| `OctantSplit.ForEachOctantRange` | src/converter/point_buffer_splitter.hpp:118-154 | the ranges tile a front part of the window, range i holding exactly the codes with digit i; the whole window exactly when the last bound does not wrap or no code has digit 7 |
| `OctantSplit.LastOctantIsLost` | src/converter/point_buffer_splitter.hpp:127-132 | at the last node of a type without spare bits the last point is in no range |
| `OctantSplit.NarrowTypesDoNotWrap` | src/converter/point_buffer_splitter.hpp:127-132 | the three types with spare bits never wrap |
| `OctantSplit.AddAllDescribes` | src/converter/point_buffer_splitter.hpp:82-111 | over any sequence of additions count, minimum, maximum and min_lod are those of all points added, and reading the subsets gives those points in order |
| `OctantSplit.Subdivide` | src/converter/point_buffer_splitter.hpp:183-196 | splitting a window gives every child exactly the window's points with its digit, except that a wrapped bound loses octant 7; each child still describes all its points and its subsets name them |
| `OctantSplit.SubdivideUnit` | src/converter/point_buffer_splitter.hpp:156-196 | with both branches, too narrow and split, every child gains exactly the window's points with its digit, by their global codes, and its subsets name exactly its points; only the widest type's last node loses octant 7 |
| `OctantSplit.SharesAddUp` | src/converter/point_buffer_splitter.hpp:156-196 | the eight shares add up to the window |
| `OctantSplit.NarrowUnitInOneOctant` | src/converter/point_buffer_splitter.hpp:175-182 | a unit too narrow for the split digit lies in the octant its header names |
| `PointPacking.DecodeEncode` | src/core/morton.hpp:577-745 | de-interleaving undoes interleaving |
| `PointPacking.EncodeMonotone` | src/core/morton.hpp:687-745 | Z-order is monotone in each axis |
| `PointPacking.BoxSharesPrefix` | src/converter/sorter.cpp:498-502 | every point of a box shares the Morton prefix of its corners |
| `PointPacking.TypeHolds` | src/core/morton_tree_coordinate_transform.hpp:60-70 | the type chosen for a span has room for all digits that vary |
| `PointPacking.TypeIsNarrowest` | src/core/morton_tree_coordinate_transform.hpp:60-70 | no narrower type has |
| `PointPacking.WidenUndoesNarrow` | src/core/morton.hpp:474-542 | widening undoes narrowing exactly when code and minimum share the dropped digits |
| `PointPacking.NarrowKeepsLod` | src/converter/sorter.cpp:405-406 | the span measured on narrowed codes is the span of the full codes |
| `PointPacking.Downcast` | src/converter/sorter.cpp:69-87 | target i is the narrowed code of the i-th point of the order |
| `PointPacking.PackingIsLossless` | src/converter/sorter.cpp:380-466 | narrowed twice and stored, a point is returned by the access decoder, and by the renderer's up to span 62; beyond, the greatest point is not; the header holds the true extremes and span |
| `PointPacking.ConvertAndSort` | src/converter/sorter.cpp:324-466 | for every batch inside its bounds, bounded, unbounded or empty: Morton order, the access decoder returns every point, the renderer's exactly when the span is at most 62, every attribute column follows its points |
| `PointPacking.AccessDecodes` | src/access/decode.cpp:33-49 | the access decoder returns the original grid point |
| `PointPacking.RenderDecodes` | src/converter/point_buffer_render_helper.hpp:256-302 | up to span 62 the renderer's origin plus relative coordinates is the same grid point |
| `PointPacking.RenderAtWidestSpan` | src/core/morton.hpp:422-458 | at span 63 it is the point exactly when it shares its top word with the least point |
| `PointPacking.WidestSpanLosesAPoint` | src/core/morton.hpp:422-458 | (2^63, 0, 0) beside the origin is rendered at the origin |
| `PointPacking.ExtremesDoNotBound` | src/access/region_walk.cpp:77-79 | three points whose Morton extremes do not bound the third |
| `RequestProtocol.StepKeepsInv` | src/access/request.cpp:31-47 | every atomic step of worker, waiter, poller and canceller keeps mutex ownership, sleeping, entry, status and call invariants |
| `RequestProtocol.RunOnward` | src/access/request.cpp:31-42 | over every run the status leaves pending at most once and never changes again, claims and calls are never taken back |
| `RequestProtocol.StatusIsFirstVerdict` | src/access/request.cpp:31-42 | over every run the status is the verdict that came first, a cancel or the worker's outcome |
| `RequestProtocol.OutcomeIsReported` | src/access/request.cpp:366-377 | a job that ends with success is reported Completed, one that fails Failed, unless a cancel came before; nothing later changes that, and the one callback carries it |
| `RequestProtocol.AtMostOneCall` | src/access/dataset_impl.hpp:137-138 | in every interleaving at most one callback, made with the final status |
| `RequestProtocol.ClaimedGetsOneCall` | src/access/query_api.cpp:189-199 | once a waiter saw the end or a poller took the entry, exactly one callback with the final status follows |
| `RequestProtocol.WaitReturnsAfterTheClaim` | src/access/query_api.cpp:175-199 | a wait under way when the request ends does not return before the callback has been claimed |
| `RequestProtocol.PublishedAndDrainedGetsOneCall` | src/access/dataset.cpp:181-208 | an unreleased request published and then drained gets exactly one callback, with any number of pollers |
| `RequestProtocol.NoWaiterIsLeftAsleep` | src/access/request.cpp:38-47 | once finish has returned no waiter is or falls asleep; each leaves within six steps of its own |
| `RequestProtocol.NoWaiterIsStuck` | src/access/query_api.cpp:175-187 | and none is blocked: its next step is enabled or the mutex holder's is |
| `RequestProtocol.AsleepOnlyBeforeNotify` | src/access/request.cpp:38-47 | in every reachable state a sleeping waiter means finish has not notified yet |
| `RequestProtocol.CancelCanMissAWaiter` | src/access/request.cpp:31-36 | a run in which cancel has returned and the only waiter sleeps on a canceled request |
| `RequestProtocol.CancelMissesExactly` | src/access/request.cpp:31-36 | after cancel's notification some continuation puts a waiter to sleep exactly when the notification found it between test and sleep |
| `RequestProtocol.CompletedResultIsFinal` | src/access/query_api.cpp:256-262 | a completed status means the worker no longer writes the result, now and in every continuation |
| `RequestProgress.WorkerStepsInOrder` | src/access/request.cpp:38-47 | in every run the worker decides, takes and gives back the mutex, notifies and publishes, in this order and each once |
| `RequestProgress.NoThreadIsStuck` | src/access/request.cpp:31-47 | worker, pollers and cancelling threads can always go on, or the waiter that holds the mutex can |
| `RequestProgress.UntimedWaitLasts` | src/access/query_api.cpp:175-187 | a wait without a timeout is not left while the request is pending |
| `RequestProgress.ExpiredWaitIsLeft` | src/access/query_api.cpp:175-187 | a wait whose time has run out is left within six own steps, pending or not |
| `RequestProgress.DrainEnds` | src/access/dataset.cpp:191-208 | a drain returns within four own steps after its swap |
| `RequestProgress.CancelStepsInOrder` | src/access/query_api.cpp:202-244 | a cancel notifies exactly when it ended the request, and a release then takes the entry out of the queue |
| `RequestProgress.ErasedEntryIsGone` | src/access/query_api.cpp:220-244 | an entry a release finds in the queue is never dispatched by a drain |
| `PointClip.WrittenKeepsWorld` | src/access/decode.cpp:91-141 | the box test sees a point at its true place exactly when its format can express it: absolute always, relative at or above the origin, grid steps within 32 bits |
| `PointClip.DecodePositions` | src/access/decode.cpp:53-108 | position i is the decoded grid point i in the requested format, with the node's origin |
| `PointClip.KeptIsExact` | src/access/decode.cpp:143-152 | the kept indices are exactly the points in the box, each once, in order |
| `PointClip.CopyRow` | src/access/decode.cpp:155-161 | a row copy replaces exactly one row of the byte buffer |
| `PointClip.ClipToBox` | src/access/decode.cpp:110-167 | in-place compaction equals the stable filter, applied to positions and every attribute in step |
| `RegionResult.Request.ResolveStrides` | src/access/request.cpp:133-154 | each attribute's stride is that of the first selected node that carries it, zero if none does |
| `RegionResult.DecodeNode` | src/access/request.cpp:249-316 | one node's stage is decode, zero-filled attributes, then clip; errors, skips and misfits as specified |
| `RegionResult.Request.RunBatch` | src/access/request.cpp:192-354 | staging a batch and appending it in order is the node-after-node fold, stopping at the first error |
| `RegionResult.Request.RunRegion` | src/access/request.cpp:183-358 | for every limit on reads in flight the request holds the walk-order assembly, or the first error with what preceded it; canceled only if a cancel was seen |
| `RegionResult.AssemblyTraces` | src/access/request.cpp:321-354 | it succeeds exactly when every node's slot can be used; then point k of every buffer is the k-th source point, and the node table tiles them without gaps and names the node and origin of each |
| `RegionResult.AssemblyFailsExactly` | src/access/request.cpp:250-284 | the request fails exactly when some resident node with points has a failed read, an unsplittable header or an unknown format around its points |
| `RegionResult.FirstBreakIsReported` | src/access/request.cpp:321-329 | it fails with the error of the first such node and then holds exactly the nodes before it |
| `RegionResult.WholeNodeIsReturned` | src/access/request.cpp:264-276 | a resident node whose subset lies in its unit gives, unclipped, all its points; point i is the code at offset plus i, decoded |
| `RegionResult.OtherNodesGiveNothing` | src/access/request.cpp:197-267 | a node that is empty, not resident, without a usable slot or with a subset outside its unit gives no point |
| `RegionResult.EntryPutsPointsInPlace` | src/access/request.cpp:341-353 | read against its table entry's origin, a packed point is where it was stored from exactly when the format can express it |
| `RegionResult.RowIsStoredValueExactly` | src/access/request.cpp:288-299 | the row of a point is the value its node stores exactly when the node's stride is the resolved one |
| `RegionResult.ValuesAreStored` | src/access/request.cpp:133-154 | when all carriers agree on the stride, every value is the stored one, or zeros where the node has none |
| `RegionResult.OtherStrideMisreads` | src/access/request.cpp:288-299 | two nodes for which a point gets half of another point's value |
| `RegionResult.BuffersAreAligned` | src/access/request.cpp:133-154 | every attribute buffer has point count times stride bytes |
| `RegionResult.ClippedResultIsExact` | src/access/request.cpp:302-313 | with clipping a stored point of a selected node is in the result exactly when it is in the box, given that unclipped nodes lie inside it |
| `RegionResult.ClipSeesTruePlace` | src/access/decode.cpp:115-141 | a packed point is tested against the box at the place it was stored from exactly when its format can express it |
| `RegionResult.OriginIsBelow` | src/access/decode.cpp:33-40 | up to span 62 no point lies below its node's origin |
| `RegionQuery.LeafUnitIsSelectedOnce` | src/access/region_walk.cpp:121-210 | at full resolution the unit of a leaf with a wanted point is selected exactly once |
| `RegionQuery.InBoxLeafPointsAreReturnedOnce` | src/access/request.cpp:75-358 | over a well-formed dataset whose tight boxes bound their points, a clipped request returns each point of such a unit once if it is in the box, otherwise not at all |
| `RegionQuery.PackedPointIsInPlace` | src/access/decode.cpp:53-108 | a point packed as the converter packs it, in a format that can express it, meets that theorem's premise |
| `RegionQuery.SmallIsServed` | src/access/request.cpp:75-358 | a dataset, query and request with a stored point that meet all its premises together |
| `RegionQuery.LodIsSide` | src/core/morton.hpp:326-334 | a walk entry of lod l is a cube of side 2^(l + 1) when the root tree of magnitude m spans 2^(5 (m + 1)) |
| `RenderList.LessIsTotal` | src/converter/render_pipeline.cpp:37-49 | a strict total order, so the merge's last branch is reached by equal keys only |
| `RenderList.PlanAccountsForAll` | src/converter/render_pipeline.cpp:121-206 | each walker entry and each previous node is dealt with exactly once and in order; matches pair equal keys |
| `RenderList.PlanMatchesAllItCan` | src/converter/render_pipeline.cpp:121-173 | for sorted inputs nodes are created or retired only for the surplus on one side |
| `RenderList.NextListIsSorted` | src/converter/render_pipeline.cpp:106-209 | for sorted inputs the new list is sorted |
| `RenderList.EveryWalkerEntryHasItsNode` | src/converter/render_pipeline.cpp:106-209 | the nodes that are not fading out are exactly one per walker entry, in order, with the current view |
| `RenderList.SelectedNodeIsCarriedOver` | src/converter/render_pipeline.cpp:156-172 | a node still selected keeps all it holds; only its view is refreshed and a fade-out restarts as a fade-in |
| `RenderList.NewEntryStartsFresh` | src/converter/render_pipeline.cpp:124-132 | an entry without a node gets one that holds nothing and fades in |
| `RenderList.DepartedNodeStaysExactly` | src/converter/render_pipeline.cpp:133-155 | a node no longer selected stays, fading out, exactly when it is uploaded and has faded for less than the duration |
| `RenderList.RetireNode` | src/converter/render_pipeline.cpp:135-153 | a departed node stays while uploaded and fading, is parked if busy, else destroyed |
| `RenderList.BuildRenderList` | src/converter/render_pipeline.cpp:106-209 | the new list is the plan's; every previous and every created node is in exactly one place; no busy node is destroyed, only busy ones are parked |
| `RenderList.UpdateFades` | src/converter/render_pipeline.cpp:479-501 | every uploaded node ages by the frame time, fade-in ends at the duration, nothing else changes |
| `RenderList.FadeFollowsTime` | src/converter/render_pipeline.cpp:479-501 | over any frame times an uploaded node fades in for exactly the duration and then is steady |
| `RenderList.OthersCountOn` | src/converter/render_pipeline.cpp:479-501 | a node that is steady or fading out counts the time, one that is not uploaded waits |
| `RenderList.DepartedNodesLeave` | src/converter/render_pipeline.cpp:133-155 | a node no longer selected is gone once the frame times since then add up to the fade duration |
| `RenderList.DepartedWithinFrames` | src/converter/render_pipeline.cpp:133-155 | with frames of at least delta that is after 1 + floor(duration / delta) frames |
| `IoScheduler.EstimatesCoverExactly` | src/converter/memory_budget.hpp:42-77 | for a unit of any size, the points and strides for which the GPU and CPU estimates made before the load cover what it is charged once decoded |
| `IoScheduler.WholeUnitCoveredExactly` | src/converter/node_decode.cpp:91-102 | a unit announced whole is covered by both exactly when the node has the attribute or no points |
| `IoScheduler.SplitUnitCoveredExactly` | src/converter/node_decode.cpp:30-36 | of a unit announced in part, an attribute that is not widened is covered exactly when no more than the announced points are decoded |
| `IoScheduler.FootprintCoveredExactly` | src/converter/memory_budget.hpp:38-55 | the input estimate is what a unit announced whole reads, and the CPU estimate covers the memory such a unit takes exactly when the node has the attribute; a larger unit is never covered |
| `IoScheduler.SlimNodeIsUnderestimated` | src/converter/frustum_tree_walker.cpp:207-214 | one point without the attribute is charged one byte and transfers four bytes more than was estimated |
| `IoScheduler.SplitUnitIsUnderestimated` | src/converter/frustum_tree_walker.cpp:204-206 | a unit of two points of which one is announced is charged nineteen bytes more |
| `IoScheduler.ChargeCoversTransferExactly` | src/converter/render_pipeline.cpp:398-425 | for any node and unit the charge covers what is transferred exactly when nothing is widened or raw values are no narrower than floats |
| `IoScheduler.EstimateCoversTransferExactly` | src/converter/memory_budget.hpp:65-77 | the estimate of a unit announced whole covers it exactly when the node has the attribute or no points |
| `IoScheduler.EstimateIsTight` | src/converter/memory_budget.hpp:59-77 | for a node with the attribute the estimate is the larger of the charge and the widened transfer of its unit |
| `IoScheduler.WidenedByteIsUndercharged` | src/converter/render_pipeline.cpp:404-425 | one widened byte is charged three bytes too few |
| `IoScheduler.ReportedUseCoversTransfers` | src/converter/render_pipeline.cpp:469 | the reported use bounds the memory really used when every charge covers its transfer |
| `IoScheduler.Scan` | src/converter/render_pipeline.cpp:262-330 | charges are the sums over the list, states advance, the candidates are exactly the nodes that want it |
| `IoScheduler.Schedule` | src/converter/render_pipeline.cpp:334-378 | the loads issued are a prefix of the given order: each passed every gate in its turn and the next one was refused |
| `IoScheduler.AdmittedLoadsFit` | src/converter/render_pipeline.cpp:349-377 | once a load is admitted, used, virtual and projected bytes fit the budget, and the backlog its cap or deferred bytes plus the one closest node |
| `IoScheduler.ClosestIsNotStarved` | src/converter/render_pipeline.cpp:351-359 | with nothing under way and room on the GPU the closest candidate is admitted whatever its size |
| `IoScheduler.Upload` | src/converter/render_pipeline.cpp:388-471 | the uploads are a maximal prefix within the transfer limit and the budget, and the totals grow by exactly their bytes |
| `IoScheduler.UploadsStayInBudget` | src/converter/render_pipeline.cpp:390-396 | uploads never carry used plus virtual bytes past the budget, and exceed the transfer limit by at most the last node |
| `IoScheduler.ProjectedUploadsAreNotRefused` | src/converter/render_pipeline.cpp:345-348 | uploads whose bytes fit beside what is used are held back by the transfer limit only |
| `IoScheduler.PassKeepsCommitments` | src/converter/render_pipeline.cpp:262-471 | used plus projected bytes fit the budget after a pass if they did before, and in any case if it issued a load |
| `IoScheduler.AdmittedLoadsAreUploaded` | src/converter/render_pipeline.cpp:345-348 | over every run of passes, once a load is admitted no later pass refuses an upload for the budget while nothing else commits memory and decoded nodes are charged no more than estimated |
| `IoScheduler.AccountsBalance` | src/converter/render_pipeline.cpp:275-276 | the reported GPU use is the sum over the nodes on the GPU after the pass |
| `IoScheduler.ProcessIo` | src/converter/render_pipeline.cpp:239-477 | nearest-first loads and uploads over the scanned list, with the gates, totals and final node states as specified |
| `IoScheduler.PassMakesAFrame` | src/converter/render_pipeline.cpp:388-471 | the pass leaves keys and fades alone and uploads no fading node, so it is a frame of the departure theorem |
| `IoProgress.LoadsAreTheLongestPrefix` | src/converter/render_pipeline.cpp:338-377 | the loads issued are the longest prefix of the candidates with a free slot, room in the backlog (or nothing under way) and room on the GPU |
| `IoProgress.DenialIsCounted` | src/converter/render_pipeline.cpp:360-369 | the load that stops the pass is counted under the gate that stopped it, and none when the slots are full |
| `IoProgress.PassIsPassOn` | src/converter/render_pipeline.cpp:262-471 | what a whole pass does to each node is scanning it and, if it is served, its load or its upload |
| `IoProgress.NodeReachesTheGpu` | src/converter/render_pipeline.cpp:276-330 | load, conversion and upload take a selected node to the GPU in the three passes that serve it, its buffers let go; an empty unit starts over |
| `IoProgress.UnservedNodesWait` | src/converter/render_pipeline.cpp:276-330 | over any number of passes that do not serve it a node keeps its place: idle and wanting, loading, converting, or ready with its buffers and wanting |
| `IoProgress.OnlyWantedIsServed` | src/converter/render_pipeline.cpp:318-330 | loads start only for idle selected nodes, uploads only for ready or just converted ones |
| `IoProgress.LoadsUnderWayAreCounted` | src/converter/render_pipeline.cpp:280-297 | after every pass the count of loads under way is that of the loading nodes, and at most the limit if a load was issued |
| `IoProgress.BacklogBoundsMemory` | src/converter/render_pipeline.cpp:295-317 | the reported backlog bounds the memory of all nodes on their way when no conversion exceeded its estimate; a list at rest is charged nothing |
| `IoProgress.BusyIsPendingWork` | src/converter/render_pipeline.cpp:95-104 | a node is busy exactly when some worker may still write to it |
| `IoProgress.DestroyedHoldsNothing` | src/converter/render_pipeline.cpp:51-93 | a destroyed node has no buffers, no GPU memory, no charge and no work pending |

## Left out

- Storage backend, compression, upload tier, tree handler, LOD generator and collapse runner: environments with contracts only.
- Renderer, GL buffers, frustum tests, draw emission, virtual subnodes, promotion, the front ends, the C API shells and the LAS readers.
- File-system failures and short reads in the spill files, the spill directory and the deletion of run files; a read that returns nothing is the end of the file.
- `declare` and the lookup by name in `add_data`: names are resolved before the modelled calls.
- Memory order weaker than sequential consistency; each atomic access is one step.
- Callback suppression after a release: a late publish can queue a released request again, so it does not hold.
- Lifetime of shared requests, dataset teardown and the pump's wake-up signal.
- RequestProtocol.PublishedAndDrainedGetsOneCall: speaks about one request; the other entries of the queue are independent of it.
- RegionWalkTheorems.WalkRefinesRecursion: excludes the point-budget mode, whose descent depends on the running total and so has no per-node recursive definition.
- OctreeForest.WalkIsTheOctreeQuery: excludes that mode too; `OctreeForest.WalkIsTheLevelOrderQuery` covers all three.
- RegionQuery.InBoxLeafPointsAreReturnedOnce: takes for granted that a node's tight box bounds its points, which the code does not ensure.
- RegionWalkTheorems.WalkToConvergence: treats loaded trees as staying resident.
- AttributeAmend.Commit: stops at the first attribute without a unit and does not model storage errors during a slice.
- InputRegistry.BelowWatermarkIsFinal: assumes that points respect their file's pre-init corner and that no chunk is added after read-finished, which the events' legality states.
- RegistrySnapshot.RoundTrip: requires every number to fit its field; what a failed restore leaves half cleared is not modelled.
- LodOrder.FindIndicesToQuantize: states that the representative lies in its cell, not which random offset picks it.
- OctantSplit.ForEachOctantRange: takes the window's codes inside the node, as the source asserts.
- OctantSplit.SubdivideUnit: takes a too narrow unit whole, as the source asserts.
- PointPacking.ConvertAndSort: starts from grid coordinates; scaling from input units, the original-order column and the out-of-range error are not modelled.
- PointClip.ClipToBox: positions are typed triples of reals or integers, attributes are bytes.
- RegionResult.Request.RunRegion: decode jobs run in index order; each writes its own stage only, so the pool's order has no effect on the stages.
- RenderList.BuildRenderList: takes a node's busy flags as stable during the merge.
- IoScheduler.Upload: its totals are the charged bytes, as in the code; `ChargeCoversTransferExactly` relates them to the transferred ones. The salvage of decode inputs is left out.
- IoScheduler.AdmittedLoadsAreUploaded: a refreshed view that enlarges a node's estimate between two passes counts as other memory being committed.
- Counter overflow: the sums of bytes, points and counters are unbounded.
