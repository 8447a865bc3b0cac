# Verified models of six algorithms

This project models seven files of two vendored projects in Dafny and proves what they are for.

- **Build-time report** (`IntervalMeasure.dfy`, `BuildTimeReport.dfy`). The sweep that charges build steps for the time
  they take. The charge is defined on its own as an integral, busy time as the measure of a union of intervals, and the
  sweep is proved against both. Main results: `Conservation`, `SummarizeEntries`.
- **Knowledge graph** (`KnowledgeGraph.dfy`, `GraphMerge.dfy`, `GraphShards.dfy`, `PathGrowth.dfy`). Merging with a
  change log, storing a graph as one subgraph per source and rebuilding it, and growing paths edge by edge. Main
  results: `ChangeLogIsExactIff`, `MergeConserves`, `MergeIsAssociative`, `RanksAddUp`, `StoreRoundTrip`,
  `RebuiltExcludes`, `LosslessIff`, `TuplesAfterRounds`, `GrowthStops`.
- **Chunked device-memory allocator**, ROCm path (`ChunkArithmetic.dfy`, `AllocatorState.dfy`, `AllocatorFailures.dfy`,
  `ChunkedAllocator.dfy`). The C++ code over a driver any of whose calls may fail, a state machine of the driver together
  with the table of allocations, and an invariant that survives every failure: the allocations in good standing are a
  part of the state that the state machine describes. Contracts speak about a log of the driver calls that failed. Main
  results: `CreateAndMap`, `EveryRunIsSafe`, `PhysicalMemoryAddsUp`, `StaysAwakeIff`, `AllHarmed`,
  `SleepWakeRestoresLayout`, `ChunksTile`.
- **Canvas scheduler** (`Canvas.dfy`). A worklist that is shortened while it is scanned, extended afterwards and cut back
  on error, with a queue of streaming components. Main results: `SurvivorsAreSafe`, `DroppedInRun`, `Run`,
  `HandedOnIsPending`.
- **RAPTOR tree builder** (`Raptor.dfy`). Main results: `Build`, `BuiltTreeHasOneRoot`, `LayerMadeFromChildren`.
- **MCP session** (`McpSession.dfy`). Clients, a worker and a closer over one queue, as atomic blocks on one event loop.
  Main results: `EveryInterleavingIsSafe`, `NoCallIsStuck`, `DrainedIffQueuedAtClose`.
- **Entity resolution** (`EntityResolution.dfy`). Candidate pairs, batches, replies and groups. Main results: `Resolve`,
  `AcceptedByYes`, `GroupsOfAnyReplies`.

`Basics.dfy` holds what several of them share. `dfyconfig.toml` lists the sources.

Code that changes things step by step is modelled by methods and classes, whose contracts tie the new state to functions
of the old one; the theorems are about those functions. Outcomes that the code does not control (driver calls, language
model replies, cluster labels, streams, cancellations, refused batches, the order in which tasks finish or sets are
iterated) are arbitrary; where an outcome depends on them, they are logged as they occur and contracts refer to the log.

## What the code does differently from what it says

- The comment at repos/vllm/tools/report_build_time_ninja.py:258 speaks of half a second; the code warns beyond 500
  seconds. The model follows the code.
- `earliest` starts at -1 as a mark for "not set", so with negative time stamps it need not be the minimum;
  `EarliestIsMinimumIff` says exactly when it is.
- An edge whose end points share no source is in no subgraph, so a rebuild loses it (`EdgeAcrossSourcesIsLost`);
  `LosslessIff` says exactly when nothing is lost.
- The change log of a merge is exact only when ranks outside the second graph were degrees before
  (`ChangeLogIsExactIff`), which they are after any merge (`LogsStayExact`).
- When granting access fails (repos/vllm/csrc/cumem_allocator.cpp:185-188) everything stays mapped; an error pending on
  entry makes the first new handle leak; a failed allocation leaves its record in the Python-side table and the error
  code set; a failed host allocation leaves the reservation; a chunk size that rounds to zero is divided by.
  `CreateAndMap` and `Malloc` state each of these.
- Putting a sleeping allocation to sleep again fails to unmap its chunks and goes on to release the handles in its cells,
  which may belong to another allocation by then (`UnmapAndRelease`, `StaleCellsHarmOthers`). `SleepOne` and `FreeOne`
  leave another allocation alone if and only if it loses nothing; when no failing call spares it, that is if and only if
  no cell of the record names one of its handles (`StaysAwakeIff`, `AllHarmed`). Freeing a sleeping allocation leaves
  the error code set, so the next `Malloc` is refused.
- A run that resumes after waiting for input starts at the last position of its path: its first turn runs the last
  pending component if all of them are fill-ups, and otherwise none of them but "begin"; the others run only if some
  component hands over to them again (`ResumedRun`).
- A merge in which a common edge has no weight in the first graph raises a key error half way (`Merge`).
- The closing notice of an MCP session is a cancellation error, which is not an ordinary exception, so a drained call
  returns it as if it were a result (`DrainedCallReturnsNotice`); `DrainedIffQueuedAtClose` says which calls do.

## Model

| member | source | states |
|---|---|---|
| `IntervalMeasure.MeasureSplit` | repos/vllm/tools/report_build_time_ninja.py:238-244 | the busy time of a window is the sum of the busy times of its two parts, wherever it is cut |
| `IntervalMeasure.MeasureBounds` | repos/vllm/tools/report_build_time_ninja.py:207-221 | the busy time of a window is between zero and its length |
| `IntervalMeasure.FullMeasureIffNoIdleGap` | repos/vllm/tools/report_build_time_ninja.py:207-256 | a window is busy for its whole length if and only if it has no idle instant |
| `IntervalMeasure.ZeroMeasureIffIdle` | repos/vllm/tools/report_build_time_ninja.py:207-256 | nothing of a window is measured if and only if no instant of it is busy |
| `IntervalMeasure.ShareSplit` | repos/vllm/tools/report_build_time_ninja.py:238-244 | the charge of a window, an integral of one over the number of running steps, adds up over its parts |
| `IntervalMeasure.ShareOfUniformWindow` | repos/vllm/tools/report_build_time_ninja.py:241-244 | in a window that every step fills or avoids, the charge is the length over the number running |
| `IntervalMeasure.ShareBounds` | repos/vllm/tools/report_build_time_ninja.py:74-89 | with k steps running throughout, a charge lies between length over (k plus all others) and length over k |
| `IntervalMeasure.OwnShareBounds` | repos/vllm/tools/report_build_time_ninja.py:74-89 | the charge of a step lies between its duration over the number of steps and its duration |
| `IntervalMeasure.ChargesCoverWindow` | repos/vllm/tools/report_build_time_ninja.py:207-256 | the conservation law in its inductive form: with k further steps running all the time, all charges together are the whole window, or for k = 0 its busy time |
| `IntervalMeasure.Conservation` | repos/vllm/tools/report_build_time_ninja.py:207-256 | the charges of all steps add up to the length of the union of their intervals; this is at most the window, and equal to it if and only if there is no idle instant |
| `BuildTimeReport.EarliestIsMinimumIff` | repos/vllm/tools/report_build_time_ninja.py:209-214 | the running minimum that starts from -1 finds the earliest start if and only if no start is negative or the last entry is a minimum |
| `BuildTimeReport.EarliestIsMissed` | repos/vllm/tools/report_build_time_ninja.py:209-214 | two entries before time zero for which the running minimum is wrong |
| `BuildTimeReport.CollectEvents` | repos/vllm/tools/report_build_time_ninja.py:207-221 | the first loop: start and stop of every entry, the summed durations, the running minimum, and the latest end or zero |
| `BuildTimeReport.CpuTimeIs` | repos/vllm/tools/report_build_time_ninja.py:218 | the CPU time is the sum of all end times minus the sum of all start times |
| `BuildTimeReport.InsertEvent` | repos/vllm/tools/report_build_time_ninja.py:224 | inserting into a sorted event list keeps it sorted, loses nothing, adds only the event, and keeps it free of repetitions |
| `BuildTimeReport.SortEvents` | repos/vllm/tools/report_build_time_ninja.py:224 | sorting by time and then action name: sorted, same events, same length |
| `BuildTimeReport.StopAfterStart` | repos/vllm/tools/report_build_time_ninja.py:225-228 | in the sorted list the stop of a step comes after its start if and only if it does not end before it starts, equal time stamps included |
| `BuildTimeReport.BetweenEvents` | repos/vllm/tools/report_build_time_ninja.py:237-244 | between neighbouring events a step runs all the time or not at all, as its place in the list says |
| `BuildTimeReport.ShareBetweenEvents` | repos/vllm/tools/report_build_time_ninja.py:238-244 | the charge between neighbouring events is the elapsed time over the size of the running map |
| `BuildTimeReport.RunningAfterEvent` | repos/vllm/tools/report_build_time_ninja.py:245-254 | how one event changes the set of steps that have started and not stopped |
| `BuildTimeReport.HandleEvent` | repos/vllm/tools/report_build_time_ninja.py:245-254 | one turn of the scan keeps the running map, the charges given and their total right; it misses a step in the map only if that step ends before it starts |
| `BuildTimeReport.AdvanceClock` | repos/vllm/tools/report_build_time_ninja.py:238-244 | the accumulation at an event moves the scan's clock to the value of the weighted clock there |
| `BuildTimeReport.Sweep` | repos/vllm/tools/report_build_time_ninja.py:230-256 | the scan fails to find a step in the map if and only if some entry ends before it starts; otherwise every step gets what the weighted clock advanced while it ran, the total is their sum, and the map ends empty |
| `BuildTimeReport.ClockIsPaced` | repos/vllm/tools/report_build_time_ninja.py:234-244 | the accumulated charge since the first event is a clock that advances at every event as the scan advances its own |
| `BuildTimeReport.ChargesAreBounded` | repos/vllm/tools/report_build_time_ninja.py:74-89 | every weighted duration lies between duration over number of steps and duration, so the assertion in `WeightedDuration` cannot fire |
| `BuildTimeReport.TotalIsBusyTime` | repos/vllm/tools/report_build_time_ninja.py:207-256 | for non-negative time stamps the sum of charges is the busy time between earliest and latest, and all of it if and only if there is no idle instant |
| `BuildTimeReport.CpuTimeBounds` | repos/vllm/tools/report_build_time_ninja.py:207-256 | the weighted total is at most the CPU time and at least its part per entry |
| `BuildTimeReport.SummarizeEntries` | repos/vllm/tools/report_build_time_ninja.py:198-265 | the whole call: index error exactly without entries, key error exactly when an entry ends before it starts, otherwise charges, bounds, total, conservation, the total between the CPU time per entry and the CPU time, and the warning condition |
| `PathGrowth.FindAllIndexes` | repos/ragflow/graphrag/utils.py:588-598 | exactly the positions of the value |
| `PathGrowth.IsContinuousSubsequence` | repos/ragflow/graphrag/utils.py:587-605 | true if and only if the two vertices are neighbours in the tuple, in this order |
| `PathGrowth.ExtendTuple` | repos/ragflow/graphrag/utils.py:614-624 | all extensions of a tuple by an edge that continues it and is not used yet, in order, and whether there is any |
| `PathGrowth.MergeTuples` | repos/ragflow/graphrag/utils.py:608-626 | one round of growth, with the order of the result |
| `PathGrowth.UsableIffNotBack` | repos/ragflow/graphrag/utils.py:617-620 | on an open trail the general test for reused edges amounts to not stepping straight back |
| `PathGrowth.TrailUsesEdgesOnce` | repos/ragflow/graphrag/utils.py:617-620 | a trail never uses an undirected edge twice |
| `PathGrowth.GrowTrail` | repos/ragflow/graphrag/utils.py:610-625 | a trail grows into itself if it is closed or leads nowhere but back, and otherwise into exactly the trails one vertex longer |
| `PathGrowth.TuplesAreTrails` | repos/ragflow/graphrag/utils.py:608-626 | soundness over any number of rounds: every tuple is a trail, of full length or finished |
| `PathGrowth.TrailsAreTuples` | repos/ragflow/graphrag/utils.py:608-626 | completeness over any number of rounds: every such trail is among the tuples |
| `PathGrowth.TuplesAfterRounds` | repos/ragflow/graphrag/utils.py:608-626 | after k rounds the tuples are exactly the trails of k + 1 edges and the shorter finished trails |
| `PathGrowth.TuplesAreDistinct` | repos/ragflow/graphrag/utils.py:608-626 | from distinct edges no round produces a tuple twice |
| `PathGrowth.TrailLength` | repos/ragflow/graphrag/utils.py:611-613 | a tuple has at most one vertex more than the graph, and one that long is closed |
| `PathGrowth.GrowthStops` | repos/ragflow/graphrag/utils.py:608-626 | one round before the number of vertices, and from then on, nothing changes, and the tuples are exactly the finished trails |
| `KnowledgeGraph.LessIsTotal` | repos/ragflow/graphrag/utils.py:188-192 | the string comparison decides every pair one way |
| `KnowledgeGraph.LessIsLexicographic` | repos/ragflow/graphrag/utils.py:188-192 | one string is before another exactly if it is smaller at the first character that differs, or a proper prefix |
| `KnowledgeGraph.FromToIdentifiesEdges` | repos/ragflow/graphrag/utils.py:188-192 | two pairs have the same normal form, which is in ascending order, if and only if they join the same two nodes; normalising again changes nothing |
| `KnowledgeGraph.DegreeOfOneMore` | repos/ragflow/graphrag/utils.py:219-220 | without edges every degree is zero, and a new edge raises the degree of each of its ends by one, of a node joined to itself by two |
| `KnowledgeGraph.DegreesAddUp` | repos/ragflow/graphrag/utils.py:219-220 | the degrees of all nodes add up to twice the number of edges |
| `GraphMerge.MergeNodesInto` | repos/ragflow/graphrag/utils.py:197-205 | the node loop, in any order of iteration and also for a graph merged into itself, adds new nodes and joins descriptions and sources of common ones, and logs every name |
| `GraphMerge.MergeEdge` | repos/ragflow/graphrag/utils.py:207-217 | one edge, handed out with its end points in either order, reaches the same slot and the same log entry; a key error exactly for a common edge without a weight in the first graph, after logging it |
| `GraphMerge.MergeEdgesInto` | repos/ragflow/graphrag/utils.py:207-217 | the edge loop, in any order of iteration, succeeds if and only if every common edge has a weight in the first graph; otherwise exactly what was merged and logged when it breaks off |
| `GraphMerge.RankNodes` | repos/ragflow/graphrag/utils.py:219-220 | every node gets its degree as its rank and nothing else changes |
| `GraphMerge.Merge` | repos/ragflow/graphrag/utils.py:195-225 | the whole merge, also of a graph into itself: nodes, edges, ranks, source list and log; or where it breaks off and what is left half done |
| `GraphMerge.MergedElements` | repos/ragflow/graphrag/utils.py:195-225 | every node and edge of a merged graph, attribute by attribute: text joined after a separator, sources and keywords joined, weights added with a missing one counting zero, and elements of one graph alone as they were |
| `GraphMerge.RanksAddUp` | repos/ragflow/graphrag/utils.py:219-220 | after a merge the ranks of all nodes add up to twice the number of edges |
| `GraphMerge.DegreeOutside` | repos/ragflow/graphrag/utils.py:219-220 | a merge leaves the degree of every node outside the second graph as it was |
| `GraphMerge.ChangeLogIsExactIff` | repos/ragflow/graphrag/utils.py:195-225 | the edge log is exactly the set of changed edges; the node log is exactly the set of changed nodes, rank included, if and only if no node outside the second graph had a rank other than its degree |
| `GraphMerge.StaleRankIsNotLogged` | repos/ragflow/graphrag/utils.py:219-220 | a graph with an unranked node, which a merge with nothing changes without logging it |
| `GraphMerge.LogsStayExact` | repos/ragflow/graphrag/utils.py:195-225 | after any merge, the log of the next merge is exact |
| `GraphMerge.WeightIsConserved` | repos/ragflow/graphrag/utils.py:207-213 | the total edge weight of the result is the sum of both totals |
| `GraphMerge.MergeConserves` | repos/ragflow/graphrag/utils.py:195-225 | edge weights and the source multisets of every node, every edge and the graph are the sums of the two inputs |
| `GraphMerge.MergeIsAssociative` | repos/ragflow/graphrag/utils.py:195-225 | merging three graphs gives the same graph however the merges are grouped, ranks and texts included |
| `GraphShards.DocStore.DeleteGraphs` | repos/ragflow/graphrag/utils.py:449-454 | exactly the chunks that are neither graph nor subgraph remain, in order |
| `GraphShards.DocStore.DeleteEntries` | repos/ragflow/graphrag/utils.py:456-483 | entity and relation chunks of removed nodes and edges go, and nothing else |
| `GraphShards.EmptiedAre` | repos/ragflow/graphrag/utils.py:449-483 | how often each chunk is left before the insertion: never if it is a graph or subgraph chunk or one to be removed, and otherwise as often as it was there |
| `GraphShards.BuildShard` | repos/ragflow/graphrag/utils.py:507-510 | one subgraph: the nodes of a source, listing only that source, and the edges between them |
| `GraphShards.BuildChunks` | repos/ragflow/graphrag/utils.py:492-521 | the graph chunk followed by one subgraph chunk per source |
| `GraphShards.InsertAll` | repos/ragflow/graphrag/utils.py:565-581 | insertion in batches of four; the call fails if and only if the store refuses a batch, once, and then stops after a whole number of batches |
| `GraphShards.SetGraph` | repos/ragflow/graphrag/utils.py:445-584 | the whole store after a complete call, or after one that a refused batch breaks off: graph and subgraph chunks replaced, removed entries gone, updated entries inserted after the subgraphs, in batches |
| `GraphShards.WholeGraphStored` | repos/ragflow/graphrag/utils.py:492-502 | after a complete call there is exactly one whole-graph chunk, with the graph as its content and the sources of the graph |
| `GraphShards.AddPage` | repos/ragflow/graphrag/utils.py:674-690 | one page adds its chunks to the accumulated graph in order, leaving out excluded ones |
| `GraphShards.LeftOutIff` | repos/ragflow/graphrag/utils.py:676-680 | a chunk is left out exactly if one of its sources is the one to be excluded, or is in the list of those |
| `GraphShards.ComposedElements` | repos/ragflow/graphrag/utils.py:682-690 | composing attribute by attribute: the second graph's win where both have an element, except that source lists of nodes are joined |
| `GraphShards.RebuildGraph` | repos/ragflow/graphrag/utils.py:658-695 | the paging loop accumulates the first 1024 * 256 chunks and returns nothing for an empty graph |
| `GraphShards.ComposeShard` | repos/ragflow/graphrag/utils.py:682-690 | composing the restriction to some sources with one more subgraph is the restriction to one more source |
| `GraphShards.AccumulateShards` | repos/ragflow/graphrag/utils.py:674-690 | reading the subgraphs in any order accumulates the restriction of the graph to the sources not excluded |
| `GraphShards.RebuiltFromShards` | repos/ragflow/graphrag/utils.py:662-690 | what is rebuilt when there are more subgraphs than the pages reach: the restriction to the sources read |
| `GraphShards.KeptOfReordering` | repos/ragflow/graphrag/utils.py:676-680 | which sources are kept does not depend on the order of reading: those of the graph that are not excluded, as often as they were there |
| `GraphShards.SortIsSorted` | repos/ragflow/graphrag/utils.py:694 | the final source list is sorted and a permutation |
| `GraphShards.RoundTrip` | repos/ragflow/graphrag/utils.py:658-695 | a rebuild yields exactly the nodes with a remaining source, each listing exactly its remaining sources, exactly the edges whose ends share one, and all other attributes as stored; nothing if and only if no node has a source left |
| `GraphShards.RebuiltExcludes` | repos/ragflow/graphrag/utils.py:658-695 | a rebuilt graph in terms of the argument itself: no source that is, or is in the list of those, to be excluded is listed by a node or by the graph; every other source is; exactly the nodes and edges with such a source are there; the source list is ascending; all other attributes as they were |
| `GraphShards.HitsAfterSet` | repos/ragflow/graphrag/utils.py:505-521 | after a complete call or one broken off anywhere, its first batch included, the store holds exactly the subgraphs of a prefix of the sources, whatever it held before |
| `GraphShards.BrokenOffRoundTrip` | repos/ragflow/graphrag/utils.py:658-695 | what a rebuild yields after a call broken off anywhere: the graph as far as its sources were stored, minus the excluded ones |
| `GraphShards.ReorderedShards` | repos/ragflow/graphrag/utils.py:505-521 | any permutation of the stored subgraphs is the list of subgraphs for a permutation of the sources |
| `GraphShards.StoreRoundTrip` | repos/ragflow/graphrag/utils.py:658-695 | the round trip through the store: whatever it held, whatever entries are removed and inserted besides, and in whatever order it returns the subgraphs |
| `GraphShards.LosslessIff` | repos/ragflow/graphrag/utils.py:505-521 | a rebuild without exclusions keeps all nodes and edges if and only if every node has a source of the graph and every edge has one common to its ends |
| `GraphShards.EdgeAcrossSourcesIsLost` | repos/ragflow/graphrag/utils.py:507-508 | a graph with an edge between nodes of different sources, which no rebuild brings back |
| `ChunkArithmetic.AlignUpIff` | repos/vllm/csrc/cumem_allocator.cpp:317 | rounding up in 64-bit arithmetic covers the size if and only if the sum does not wrap; it is then the least multiple of the granularity that does; it is zero if and only if the size is or the sum wraps, which for the chunk size means a division by zero |
| `ChunkArithmetic.MemcreateChunkSize` | repos/vllm/csrc/cumem_allocator.cpp:24-42 | never zero, never wrapped, a whole number of megabytes: the value set if and only if that is positive and fits, and otherwise 256 |
| `ChunkArithmetic.SplitIsTiling` | repos/vllm/csrc/cumem_allocator.cpp:345-367 | the pieces add up to the total, are positive, and all but the last are full |
| `ChunkArithmetic.SplitKeepsGranularity` | repos/vllm/csrc/cumem_allocator.cpp:345-367 | every piece is a multiple of the granularity if size and chunk are |
| `ChunkArithmetic.SplitByIndex` | repos/vllm/csrc/cumem_allocator.cpp:345-366 | the formulas for the number of chunks and for the size of chunk i give that split, without underflow |
| `ChunkArithmetic.ChunksCoverIff` | repos/vllm/csrc/cumem_allocator.cpp:345-346 | the chunks add up to the rounded size if and only if computing their number does not wrap; otherwise there are none |
| `ChunkArithmetic.ChunksTile` | repos/vllm/csrc/cumem_allocator.cpp:317-367 | from the requested sizes: positive multiples of the granularity, all but the last equal to the rounded chunk size, adding up to the rounded size |
| `AllocatorState.EveryOffsetInOnePiece` | repos/vllm/csrc/cumem_allocator.cpp:158-177 | every offset below the total lies in exactly one piece: no gap, no overlap |
| `ChunkedAllocator.ComputeChunks` | repos/vllm/csrc/cumem_allocator.cpp:345-367 | the loop fills in that split by index, or nothing when the rounding sum wraps |
| `ChunkedAllocator.Allocator.UnmapAll` | repos/vllm/csrc/cumem_allocator.cpp:213-222 | tries every chunk, at the sum of the preceding sizes, whatever fails: each is unmapped or its failure logged; reports a failure if and only if there was one; never unmaps anything else |
| `ChunkedAllocator.Allocator.ReleaseAll` | repos/vllm/csrc/cumem_allocator.cpp:224-229 | tries every handle, whatever fails: each is released or its failure logged; never releases anything else |
| `ChunkedAllocator.Allocator.CreateChunks` | repos/vllm/csrc/cumem_allocator.cpp:148-157 | creates distinct new handles, handle i with the size of chunk i; if one creation is the only call that fails, the live handles are as before; with an error pending on entry and no failing call, exactly the first new handle leaks |
| `ChunkedAllocator.Allocator.RollBack` | repos/vllm/csrc/cumem_allocator.cpp:163-174 | unless a clean-up call fails, exactly the chunks mapped so far are unmapped and all handles released; never anything else |
| `ChunkedAllocator.Allocator.MapChunks` | repos/vllm/csrc/cumem_allocator.cpp:158-177 | maps every chunk at the sum of the preceding sizes; if one mapping, at any index, is the only call that fails, mappings are as before and all handles released; what was mapped before is never touched |
| `ChunkedAllocator.Allocator.MapCreated` | repos/vllm/csrc/cumem_allocator.cpp:158-177 | mapping chunks just created: if one mapping is the only call that fails, the driver is as it was before they were created |
| `ChunkedAllocator.Allocator.MapAndGrant` | repos/vllm/csrc/cumem_allocator.cpp:158-188 | the second half: as above, access granted to exactly the range if nothing fails, and everything stays mapped if only the call that grants access fails |
| `ChunkedAllocator.Allocator.CreateAndMap` | repos/vllm/csrc/cumem_allocator.cpp:95-191 | by the calls that fail: success if and only if no error was pending and none does, with handle i created with the size of chunk i, chunk i mapped through it at the sum of the sizes before, and access granted to the whole range; with one failing call, the driver is as on entry if and only if that call created or mapped a chunk; only access failing leaves everything mapped; a pending error or one from the context leaks exactly one handle; whatever fails, nothing that was there before is touched |
| `ChunkedAllocator.Allocator.UnmapAndRelease` | repos/vllm/csrc/cumem_allocator.cpp:193-237 | tries every chunk and then every handle, also after failures; reports no error if and only if none was pending and no call fails; if no unmapping fails exactly the chunks are gone, if no release fails exactly the handles are, even when unmapping failed; never anything else |
| `ChunkedAllocator.Allocator.ReserveRange` | repos/vllm/csrc/cumem_allocator.cpp:298-329 | the part up to the reservation, for every size: a new reservation of the rounded size, or an error and no reservation |
| `ChunkedAllocator.Allocator.Materialise` | repos/vllm/csrc/cumem_allocator.cpp:383-424 | record, create, map; by the calls that fail, what is left of handles, mappings and the reservation; with only access refused, the range cannot be given back; the handle cells of one that fails are freed |
| `ChunkedAllocator.Allocator.RecordAndMap` | repos/vllm/csrc/cumem_allocator.cpp:383-410 | the record in the table names the cells that hold the handles created, with the cases by failing calls |
| `ChunkedAllocator.Allocator.Allocate` | repos/vllm/csrc/cumem_allocator.cpp:375-424 | by the calls that fail, what the good part, handles, mappings and the reservation are, compared with those before the reservation; whatever fails, allocations in good standing stay so, and success, or a refused access alike, adds one to them |
| `ChunkedAllocator.Allocator.Malloc` | repos/vllm/csrc/cumem_allocator.cpp:297-425 | for every signed size and whatever failed before: refusal, division by a chunk size that rounds to zero, missing host memory if and only if an allocation on the host failed, a pointer without memory when the number of chunks wraps, success as one step of the state machine, and by the calls that fail what an unsuccessful one leaves; one more handle cell per chunk on the host if a pointer is returned, and otherwise none |
| `ChunkedAllocator.Allocator.HostCells` | repos/vllm/csrc/cumem_allocator.cpp:347-362 | one allocation on the host per chunk; failure if and only if one of them fails, and then those before it are freed |
| `ChunkedAllocator.Allocator.MallocChunks` | repos/vllm/csrc/cumem_allocator.cpp:345-425 | the part after the reservation: the range split into chunks and a cell on the host for each; the cells stay allocated exactly if a pointer is returned |
| `ChunkedAllocator.Allocator.SleepOne` | repos/vllm/csrc/cumem_allocator.cpp:564-657 | every chunk and handle cell is tried; an awake allocation is asleep if no unmapping fails; of the others, exactly those that lost a handle or a piece are awake in good standing no longer, and unless a failing call spares them these are exactly the ones that the record's cells or addresses hit; a sleeping allocation always meets a failure; success if and only if no error was pending and no call fails; the error code is cleared |
| `ChunkedAllocator.Allocator.MapRecord` | repos/vllm/csrc/cumem_allocator.cpp:687-715 | creates and maps the recorded chunks into the recorded handle cells, with the same cases by failing calls |
| `ChunkedAllocator.Allocator.WakeOne` | repos/vllm/csrc/cumem_allocator.cpp:662-727 | a sleeping allocation wakes up on success and on refused access, through handles created with the sizes of its chunks; after one failed creation or mapping the driver is as before; a pending error leaks one handle; an awake allocation cannot be woken and is given up if its cells are overwritten; all others stay as awake or asleep as they were |
| `ChunkedAllocator.Allocator.GiveBack` | repos/vllm/csrc/cumem_allocator.cpp:472-535 | drops the record, tries every chunk and handle, and frees the range exactly if that call does not fail; what is gone if no unmapping, or no release, fails |
| `ChunkedAllocator.Allocator.FreeOne` | repos/vllm/csrc/cumem_allocator.cpp:428-536 | every chunk and handle cell is tried and the record is gone, its cells on the host freed; an awake allocation is gone if no unmapping fails, its range with it if freeing does not fail, which takes the recorded size; others are lost exactly as by sleeping; a sleeping allocation leaves an error pending |
| `AllocatorState.RegisteredInv` | repos/vllm/csrc/cumem_allocator.cpp:325-328 | reserving a range apart from the others and recording it keeps the invariant |
| `AllocatorState.UnregisteredInv` | repos/vllm/csrc/cumem_allocator.cpp:526 | freeing the range of a sleeping allocation keeps the invariant |
| `AllocatorState.AsleepInv` | repos/vllm/csrc/cumem_allocator.cpp:213-229 | unmapping and releasing one allocation keeps the invariant for all others |
| `AllocatorState.AwokenInv` | repos/vllm/csrc/cumem_allocator.cpp:148-177 | mapping one allocation through new handles keeps the invariant for all others |
| `AllocatorState.StepInv` | repos/vllm/csrc/cumem_allocator.cpp:297-536 | every successful operation keeps the invariant |
| `AllocatorState.RunInv` | repos/vllm/csrc/cumem_allocator.cpp:297-536 | and so does every run of them |
| `AllocatorState.MappedRangesAreApart` | repos/vllm/csrc/cumem_allocator.cpp:158-177 | every mapped range lies inside the reservation of an awake allocation, and different mapped ranges do not overlap |
| `AllocatorState.LiveHandlesAreCounted` | repos/vllm/csrc/cumem_allocator.cpp:148-157 | the number of live handles is the number of chunks of the awake allocations |
| `AllocatorState.PhysicalMemoryAddsUp` | repos/vllm/csrc/cumem_allocator.cpp:148-157 | the physical sizes of all live handles add up to the sizes of the awake allocations |
| `AllocatorState.PiecesFitHandles` | repos/vllm/csrc/cumem_allocator.cpp:148-177 | every mapped piece has the length of its handle, and different pieces have different handles |
| `AllocatorState.ChunkIsMapped` | repos/vllm/csrc/cumem_allocator.cpp:148-177 | every chunk of an awake allocation is mapped at the sum of the preceding sizes, through the handle in its cell, which has its size |
| `AllocatorState.LiveHandleIsMapped` | repos/vllm/csrc/cumem_allocator.cpp:148-177 | every live handle is mapped somewhere |
| `AllocatorState.NothingAllocatedNothingHeld` | repos/vllm/csrc/cumem_allocator.cpp:472-535 | with no allocation left, no handle, mapping or reservation is left |
| `AllocatorState.EveryRunIsSafe` | repos/vllm/csrc/cumem_allocator.cpp:297-536 | over every run from the empty state: as many handles as chunks and as much physical memory as the awake allocations ask for, every handle mapped, every mapped piece of the length of a handle of its own and inside the reservation of an awake allocation, disjoint mappings, and an empty driver once everything is freed |
| `AllocatorState.SleepWakeRestoresLayout` | repos/vllm/csrc/cumem_allocator.cpp:646-724 | sleep and wake with any new handles restore the same address layout |
| `AllocatorState.WakingMapsFreeRanges` | repos/vllm/csrc/cumem_allocator.cpp:158-161 | while an allocation wakes up, each range it maps next is inside its reservation and free |
| `AllocatorFailures.WithoutInv` | repos/vllm/csrc/cumem_allocator.cpp:213-236 | giving some allocations up leaves the invariant for the others |
| `AllocatorFailures.HarmsItself` | repos/vllm/csrc/cumem_allocator.cpp:213-229 | unmapping and releasing an awake allocation in good standing hits no other |
| `AllocatorFailures.OnlyHarmed` | repos/vllm/csrc/cumem_allocator.cpp:213-236 | whatever part of unmapping and releasing succeeds, only allocations that it hits lose anything |
| `AllocatorFailures.UndamagedHolds` | repos/vllm/csrc/cumem_allocator.cpp:213-236 | whatever is gone, the allocations that lost nothing stay in good standing |
| `AllocatorFailures.DamagedIsLost` | repos/vllm/csrc/cumem_allocator.cpp:213-236 | an allocation that lost a handle or a piece is awake in good standing in no view of the state |
| `AllocatorFailures.StaysAwakeIff` | repos/vllm/csrc/cumem_allocator.cpp:213-236 | when something is gone, an awake allocation can stay awake in good standing if and only if it lost nothing |
| `AllocatorFailures.AllHarmed` | repos/vllm/csrc/cumem_allocator.cpp:213-236 | when everything is tried and no failing call spares them, exactly those lose something that own a handle in the cells or are mapped at the addresses |
| `AllocatorFailures.AfterSleepHolds` | repos/vllm/csrc/cumem_allocator.cpp:646-657 | what stays in good standing after sleeping, with any failures |
| `AllocatorFailures.AfterFreeHolds` | repos/vllm/csrc/cumem_allocator.cpp:472-535 | what stays in good standing after freeing, with any failures |
| `AllocatorFailures.AfterWakeHolds` | repos/vllm/csrc/cumem_allocator.cpp:713-724 | what stays in good standing after waking, with any failures |
| `AllocatorFailures.FailedMallocHolds` | repos/vllm/csrc/cumem_allocator.cpp:401-424 | a failed allocation leaves everything in good standing that was |
| `AllocatorFailures.MallocHolds` | repos/vllm/csrc/cumem_allocator.cpp:401-424 | a successful one adds itself |
| `AllocatorFailures.StaleCellsHarmOthers` | repos/vllm/csrc/cumem_allocator.cpp:224-229 | a run after which releasing the cells of a sleeping allocation takes the handle of another one, which stays mapped to it and is awake in good standing no longer |
| `AllocatorFailures.IntactDriver` | repos/vllm/csrc/cumem_allocator.cpp:297-536 | as long as nothing has failed, which successful calls preserve, the driver itself holds exactly the handles of the awake allocations, their sizes add up to those allocations, each mapped piece has the length of its handle, mappings are disjoint, and it is empty once everything is freed |
| `Canvas.SurvivorsAreSafe` | repos/ragflow/agent/canvas.py:432-445 | unless the path starts with a fill-up node, every survivor other than begin and fill-up nodes has all its referenced components before it |
| `Canvas.DroppedIff` | repos/ragflow/agent/canvas.py:432-445 | a member of a batch is dropped if and only if it is neither begin nor fill-up, the path does not start with a fill-up, and it refers to something neither before the batch nor among the survivors before it |
| `Canvas.FillUpKeepsAll` | repos/ragflow/agent/canvas.py:438 | a path that starts with a fill-up loses nothing |
| `Canvas.NothingDropped` | repos/ragflow/agent/canvas.py:432-445 | a batch all of whose members have their references met before them loses nothing |
| `Canvas.SurvivorsAreInOrder` | repos/ragflow/agent/canvas.py:426-445 | the survivors are a subsequence of the batch |
| `Canvas.JudgeNext` | repos/ragflow/agent/canvas.py:426-445 | each member of a batch is judged against the survivors before it, as popping in place makes it |
| `Canvas.StayOrDrop` | repos/ragflow/agent/canvas.py:426-445 | every member of a batch survives or is dropped, never both |
| `Canvas.CanvasRun.constructor` | repos/ragflow/agent/canvas.py:402-474 | where a run starts |
| `Canvas.CanvasRun.MayRun` | repos/ragflow/agent/canvas.py:432-445 | the scan over the inputs of one component: it may run if and only if it is begin or fill-up, the path starts with a fill-up, or everything it refers to comes before it |
| `Canvas.CanvasRun.RunBatch` | repos/ragflow/agent/canvas.py:414-457 | the loop that pops from the path while scanning it dispatches exactly the survivors, once each and in order, and leaves exactly them on the path |
| `Canvas.CanvasRun.DrainPartials` | repos/ragflow/agent/canvas.py:552-557 | reports the complete components at the front of the queue, in queue order, up to the first incomplete one |
| `Canvas.CanvasRun.FinishOrQueue` | repos/ragflow/agent/canvas.py:571-579 | a component that encloses others neither reports nor queues; any other is queued if and only if it is streaming without an error, and otherwise reported; reports and queue stay balanced against what was processed |
| `Canvas.CanvasRun.Report` | repos/ragflow/agent/canvas.py:571-598 | the exact events of a processed component, the end of its iteration included |
| `Canvas.CanvasRun.AppendPath` | repos/ragflow/agent/canvas.py:581-587 | appends an id unless it repeats the last one |
| `Canvas.CanvasRun.ExtendPath` | repos/ragflow/agent/canvas.py:589-594 | the same for several ids in turn |
| `Canvas.SuccessorsByKind` | repos/ragflow/agent/canvas.py:596-609 | what a component of each kind hands over to |
| `Canvas.ExtendedOnlyAdds` | repos/ragflow/agent/canvas.py:581-594 | only the given ids are appended, and none right after itself |
| `Canvas.ExtendedHasAll` | repos/ragflow/agent/canvas.py:581-594 | each given id is found at the end of the path as it was or after it, in the order of the ids |
| `Canvas.CanvasRun.ProcessNode` | repos/ragflow/agent/canvas.py:488-609 | the whole post-processing of a component: path, error, queue and events as functions of what was observed of its run; a failure with a branch appends exactly the branch; a message lets go exactly the complete components at the front of the queue |
| `Canvas.CanvasRun.Announce` | repos/ragflow/agent/canvas.py:477-484 | announces every member of the batch once, and nothing else |
| `Canvas.CanvasRun.PostProcess` | repos/ragflow/agent/canvas.py:486-609 | all members in turn: the path after all of them, an error if and only if one of them failed for good, no announcement |
| `Canvas.CanvasRun.WorkBatch` | repos/ragflow/agent/canvas.py:485-609 | thinning and processing make one turn: its survivors, what each came to, what they appended; the frozen part, its dependencies and the balance of announced starts are kept |
| `Canvas.CanvasRun.Conclude` | repos/ragflow/agent/canvas.py:611-630 | what a round leaves of the path and the index after an error, with pending input, and otherwise |
| `Canvas.CanvasRun.Round` | repos/ragflow/agent/canvas.py:475-630 | one turn of the loop with its three ends and the exact path each leaves, decided by what was observed of its components; interrupted if and only if a cancellation was seen, with nothing changed |
| `Canvas.CanvasRun.Run` | repos/ragflow/agent/canvas.py:471-648 | the run as a chain of turns, each starting after what the turns before it processed and working off what the last one appended, with exactly the results observed: a completed run has nothing pending and keeps the whole path; a failed one keeps what was processed before its last turn; one waiting for input keeps its pending part; interrupted if and only if a cancellation was seen; what was processed is the batches in order, dependencies met however the run ends; finish events plus queue equal the nodes processed, first in, first out |
| `Canvas.OnlyLastTurnIsFatal` | repos/ragflow/agent/canvas.py:566-630 | a turn has a result that failed with neither branch nor default exactly if it is the last one of a failed run, and otherwise leaves a fill-up pending exactly if it is the last one of a run that waits for input |
| `Canvas.DroppedInRun` | repos/ragflow/agent/canvas.py:432-445 | over a whole run, an announced component is not run if and only if it is neither begin nor fill-up, the path does not start with a fill-up, and it refers to something not run before it |
| `Canvas.HandedOnIsPending` | repos/ragflow/agent/canvas.py:560-609 | what a component of a turn hands over to, or branches to on a failure, is worked off in the next turn, unless it repeats the last component of this one |
| `Canvas.PendingWasHandedOn` | repos/ragflow/agent/canvas.py:560-609 | whatever is worked off in the next turn was handed on by a component of this one |
| `Canvas.BatchInPlace` | repos/ragflow/agent/canvas.py:475-487 | each position that was processed belongs to the batch of one turn, in order |
| `Canvas.FillUpsFirstKeepsAll` | repos/ragflow/agent/canvas.py:616-618 | putting fill-ups first loses and adds nothing |
| `Canvas.OfKindInOrder` | repos/ragflow/agent/canvas.py:616-618 | and keeps the order among fill-ups and among the others |
| `Canvas.ResumedRun` | repos/ragflow/agent/canvas.py:402-403 | when ids tell which components are fill-ups, the first turn of a run resumed after waiting for input runs a single component: the last pending one if all are fill-ups, and otherwise "begin" |
| `Canvas.RoundKeepsPath` | repos/ragflow/agent/canvas.py:475-631 | a turn never changes the part of the path before it, and dependencies stay met |
| `Canvas.RoundSettles` | repos/ragflow/agent/canvas.py:477-488 | every announced start leads to processing or to being dropped |
| `Raptor.TreeBuilder.constructor` | repos/ragflow/rag/raptor.py:38-55 | the error cap is at least one |
| `Raptor.TreeBuilder.PickClusters` | repos/ragflow/rag/raptor.py:92-106 | a number of clusters below both bounds if and only if that range is not empty and nothing disturbs the search |
| `Raptor.TreeBuilder.PickLabels` | repos/ragflow/rag/raptor.py:191-199 | a label below the number of clusters for every chunk, unless one has none |
| `Raptor.MembersAre` | repos/ragflow/rag/raptor.py:203 | the index list of a cluster holds exactly the chunks with its label |
| `Raptor.TreeBuilder.CollectClusters` | repos/ragflow/rag/raptor.py:202-204 | index lists of all clusters, or a failed assertion if and only if some cluster is empty |
| `Raptor.TreeBuilder.Summarize` | repos/ragflow/rag/raptor.py:115-165 | a summary of exactly these chunks, or an error counted, or an exception: exactly when disturbed or when the error reaches the cap |
| `Raptor.TreeBuilder.SummarizeClusters` | repos/ragflow/rag/raptor.py:208-216 | whatever order the tasks finish in, each makes at most one chunk, and the errors counted are the clusters without one; an exception exactly when disturbed or at the cap |
| `Raptor.TreeBuilder.ClusterLayer` | repos/ragflow/rag/raptor.py:168-219 | one layer: exactly when it succeeds and which exception ends it otherwise; complete, or one skipped pair |
| `Raptor.TreeBuilder.LabelLayer` | repos/ragflow/rag/raptor.py:185-207 | the clusters of a layer of more than two chunks, or which exception, exactly when |
| `Raptor.TreeBuilder.Keep` | repos/ragflow/rag/raptor.py:111 | exactly the chunks with text and embedding, in order |
| `Raptor.TreeBuilder.BuildLayers` | repos/ragflow/rag/raptor.py:112-226 | the layer loop from the chunks kept: what it returns and when, as for the whole call |
| `Raptor.FilterIs` | repos/ragflow/rag/raptor.py:111 | a chunk is kept if and only if it has a text and an embedding; an input whose chunks all have both is kept whole |
| `Raptor.NewestParents` | repos/ragflow/rag/raptor.py:202-222 | the summaries of a complete layer are the parents of its chunks; two chunks share one if and only if they share a label, and no summary is childless |
| `Raptor.LayerMadeFromChildren` | repos/ragflow/rag/raptor.py:202-222 | every summary was made from exactly the chunks whose parent it is |
| `Raptor.GrowTree` | repos/ragflow/rag/raptor.py:167-224 | a complete layer extends the tree: layers tile the chunks and shrink, the labels reach the start index, every chunk below has its parent |
| `Raptor.LayerDone` | repos/ragflow/rag/raptor.py:167-224 | the loop invariant over a layer, with the one admissible skip |
| `Raptor.TreeBuilder.Build` | repos/ragflow/rag/raptor.py:108-226 | terminates for every labelling; what a normal return means: chunks, of which an input without unusable ones is a prefix, layers, labels, parents, and at most one skipped cluster, a last pair; with nothing disturbed, complete labels and no skip, it returns normally if and only if more than one cluster is allowed or there are at most two chunks; which trouble each exception comes from |
| `Raptor.RootsAreLast` | repos/ragflow/rag/raptor.py:167-226 | if all nodes before some point have a later parent, every node hangs from one after it |
| `Raptor.BuiltTreeHasOneRoot` | repos/ragflow/rag/raptor.py:108-226 | without a skipped cluster all chunks form one tree whose root is the last chunk |
| `Raptor.SkippedTreeHasTwoRoots` | repos/ragflow/rag/raptor.py:176-183 | with the last pair skipped, every chunk hangs from one of the two |
| `Raptor.LayersShrink` | repos/ragflow/rag/raptor.py:92-106 | layer l has at most as many chunks as the first minus l |
| `McpSession.StepInv` | repos/ragflow/common/mcp_tool_call_conn.py:115-236 | every atomic block keeps the invariant |
| `McpSession.RunInv` | repos/ragflow/common/mcp_tool_call_conn.py:115-236 | and so does every interleaving |
| `McpSession.StepIsLater` | repos/ragflow/common/mcp_tool_call_conn.py:115-236 | no block takes back a submission, an answer, the end of a call, or being closed |
| `McpSession.RunIsLater` | repos/ragflow/common/mcp_tool_call_conn.py:115-236 | and no interleaving does |
| `McpSession.EveryInterleavingIsSafe` | repos/ragflow/common/mcp_tool_call_conn.py:115-236 | every submitted request is queued, in the worker's hand, answered or abandoned, exactly one of these; at most one answer, its own; requests leave the queue in order; once closed, the queue stays empty and nothing is submitted |
| `McpSession.AcceptedIffOpen` | repos/ragflow/common/mcp_tool_call_conn.py:153-158 | a call is accepted, its request put at the end of the queue, if and only if the session is open |
| `McpSession.ReplyIsDelivered` | repos/ragflow/common/mcp_tool_call_conn.py:126-164 | the outcome that the worker has of its request is the only answer to it from then on, and decides how the call ends |
| `McpSession.StoppedMeansClosed` | repos/ragflow/common/mcp_tool_call_conn.py:115-151 | over every interleaving, a worker not cancelled since it was last started has stopped only if the session is closed |
| `McpSession.QueueIsServed` | repos/ragflow/common/mcp_tool_call_conn.py:115-126 | so with requests queued in an open session, the worker can take one or is busy with one |
| `McpSession.StopsWhenClosed` | repos/ragflow/common/mcp_tool_call_conn.py:115-151 | after a reply, an idle second or a restart, the worker stops if and only if the session is closed |
| `McpSession.NoCallIsStuck` | repos/ragflow/common/mcp_tool_call_conn.py:115-168 | over every interleaving, unless the worker was cancelled, a waiting call whose request was not abandoned can be brought to its end by steps of the worker and of its own client alone |
| `McpSession.CallRaisesIffFault` | repos/ragflow/common/mcp_tool_call_conn.py:160-168 | a call raises if and only if its answer is an ordinary exception, and ends with its own answer |
| `McpSession.DrainedIffQueuedAtClose` | repos/ragflow/common/mcp_tool_call_conn.py:220-232 | in every run with a close, a call that has ended with an answer ended with the closing notice, returned as a result, if and only if it was in the queue when closing began |
| `McpSession.NoticedCallWasQueued` | repos/ragflow/common/mcp_tool_call_conn.py:220-232 | a call that ended with the notice was in the queue when some step of the run closed the session |
| `McpSession.CloseNotifies` | repos/ragflow/common/mcp_tool_call_conn.py:226-232 | closing gives the notice to exactly the requests in the queue |
| `McpSession.DrainedCallReturnsNotice` | repos/ragflow/common/mcp_tool_call_conn.py:160-164 | a run in which a drained call returns the closing notice as a result |
| `McpSession.Session.CallServer` | repos/ragflow/common/mcp_tool_call_conn.py:153-158 | a call up to its wait is that transition |
| `McpSession.Session.Receive` | repos/ragflow/common/mcp_tool_call_conn.py:160-164 | a call after its wait is that transition |
| `McpSession.Session.Take` | repos/ragflow/common/mcp_tool_call_conn.py:116-126 | the worker from its wait to the server call is that transition |
| `McpSession.Session.Reply` | repos/ragflow/common/mcp_tool_call_conn.py:126-151 | the worker from the outcome to its next wait, or its end in a closed session, is that transition |
| `McpSession.Session.Close` | repos/ragflow/common/mcp_tool_call_conn.py:220-236 | the draining loop is that transition: closed, an empty queue, and a notice for everything that was queued |
| `EntityResolution.ClusterByType` | repos/ragflow/graphrag/entity_resolution.py:89-94 | a list per type that occurs, with exactly the nodes of that type, in order |
| `EntityResolution.OfTypeMembers` | repos/ragflow/graphrag/entity_resolution.py:93-94 | which nodes a type has |
| `EntityResolution.OfTypeOrder` | repos/ragflow/graphrag/entity_resolution.py:93-94 | the nodes of a type keep their order |
| `EntityResolution.CandidateRow` | repos/ragflow/graphrag/entity_resolution.py:98 | the pairs with one node first, in order |
| `EntityResolution.Candidates` | repos/ragflow/graphrag/entity_resolution.py:96-98 | the questions about one type, in the order of the nested scan |
| `EntityResolution.QuestionsAreCandidates` | repos/ragflow/graphrag/entity_resolution.py:96-98 | the questions about a type are exactly its candidate pairs in the order of the nodes: different nodes, one of them new, similar |
| `EntityResolution.Batches` | repos/ragflow/graphrag/entity_resolution.py:140-145 | batch k is questions 100 k up to 100 (k + 1) |
| `EntityResolution.QuestionHasBatch` | repos/ragflow/graphrag/entity_resolution.py:143-144 | no question is lost: question i is in the batch and at the place its position says |
| `EntityResolution.ProcessResults` | repos/ragflow/graphrag/entity_resolution.py:243-268 | exactly the numbers in range that some record answers with yes |
| `EntityResolution.YesInAnyCase` | repos/ragflow/graphrag/entity_resolution.py:263-266 | exactly the eight spellings of yes in small and capital letters count |
| `EntityResolution.ResolveBatch` | repos/ragflow/graphrag/entity_resolution.py:239-241 | exactly the pairs of the batch that the reply says yes to are added |
| `EntityResolution.ResolveType` | repos/ragflow/graphrag/entity_resolution.py:137-155 | exactly the pairs that the replies to the batches of one type accept are added |
| `EntityResolution.Resolve` | repos/ragflow/graphrag/entity_resolution.py:89-155 | the accepted pairs are exactly those that some reply says yes to, over all types and batches |
| `EntityResolution.AcceptedAreCandidates` | repos/ragflow/graphrag/entity_resolution.py:239-268 | whatever the replies, every accepted pair is a candidate |
| `EntityResolution.YesIsAccepted` | repos/ragflow/graphrag/entity_resolution.py:239-268 | a yes, in small or capital letters, to question i of a type gets that pair accepted |
| `EntityResolution.AcceptedByYes` | repos/ragflow/graphrag/entity_resolution.py:239-268 | behind every accepted pair is such a yes, in the reply to the batch and with the number that the position of the question says |
| `EntityResolution.ComponentsAreDisjoint` | repos/ragflow/graphrag/entity_resolution.py:157-168 | two groups sent to merging with a node in common are the same group |
| `EntityResolution.PairIsInGroup` | repos/ragflow/graphrag/entity_resolution.py:157-168 | no accepted pair is lost: some group has both of its nodes |
| `EntityResolution.GroupsAreSound` | repos/ragflow/graphrag/entity_resolution.py:89-168 | every group has a single entity type, at least two nodes, and a node of the new subgraph |
| `EntityResolution.GroupsOfAnyReplies` | repos/ragflow/graphrag/entity_resolution.py:157-168 | the same for the groups that arbitrary replies lead to |

## Left out

- Floating point: times and weights are real numbers, without rounding; the small tolerance in `WeightedDuration` is not needed.
- Build report: reading the ninja log, grouping by extension, and the printed lines, the last two of which divide by the length of the build and fail when it is zero. Entries are distinct objects, as the log reader makes them.
- `GraphMerge.Merge`: descriptions, keywords and sources are always present; the source raises a key error otherwise. Attribute lists are values here, so updates through a list that two graphs share are not captured.
- `PathGrowth.TuplesAfterRounds`: nothing in the repository calls `merge_tuples`; repeating it from the list of single edges is the use that its arguments suggest.
- Graph store: the contents of entity and relation chunks, embeddings, the JSON text of a chunk, pages that change while they are read, and batches that the store accepts in part.
- `GraphShards.RoundTrip`: for at most 1024 * 256 subgraphs, the number the paging loop reads; beyond that `GraphShards.RebuiltFromShards` says what is rebuilt.
- The CUDA path of the allocator, Python reference counts and the interpreter lock. Handle cells are values in the record of an allocation; that a failed allocation frees cells which its record still points to, so that they may change, is not captured.
- `ChunkedAllocator.Allocator.Malloc`: an unset callback and an exception raised by the callback are not modelled; the driver grants no range that reaches beyond 64-bit addresses.
- `ChunkedAllocator.Allocator.FreeOne`: the failure of a host allocation while freeing is not modelled.
- `Canvas.CanvasRun.Run`: takes a number of turns as a bound, because the loop of the source need not end; what it states holds for every bound.
- Canvas: message texts, speech, citations, history, variables, unknown component ids, and components that iterate without an enclosing component.
- RAPTOR: the mathematics of clustering, prompts, caches, retries and time limits; their effects are arbitrary outcomes.
- MCP: transports, closing from another event loop, time limits of the calling threads, and a request lost inside the wait of a cancelled worker.
- Entity resolution: the similarity test and the patterns that read a reply are inputs; merging the attributes of a group and the PageRank afterwards.
- Everything else in the repository: the web interfaces, retrieval, model serving, kernels, parsers, deployment and configuration.
