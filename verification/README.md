# TenProf: a verified model of its analysis core

The profiler instruments GPU kernels, gathers the addresses their warps touch in a bounded buffer,
compacts and merges them into byte ranges on the device, attributes them on the host to allocations,
and derives from that which bytes of an allocation were never used and in which order the memory
operations of a program depend on each other. This project models the algorithms that carry that
chain and proves what they are for. `dafny verify dfyconfig.toml` checks all of it.

| file | models |
|---|---|
| `RecordQueue.dfy`, `RecordDelivery.dfy`, `RecordProgress.dfy` | the slot / leader / rewind protocol of the record buffer as a transition system, one step per atomic access, sequentially consistent, any number of warps; safety, exactly-once delivery, progress |
| `RecordStranding.dfy`, `StrandingRuns.dfy` | which launches of that protocol can strand a warp |
| `WarpSort.dfy`, `WarpCompact.dfy` | the 32-lane bitonic network, and the compaction of one warp-level record into ranges |
| `SweepMerge.dfy`, `BufferMerge.dfy`, `SecondPass.dfy` | the sweep-line merge of a tile, the in-place two-pass merge of a buffer, and what the second pass is for |
| `AnalysisPipeline.dfy` | the consumer kernel end to end: recorded accesses in, merged byte ranges out |
| `Ranges.dfy`, `RangeMerge.dfy`, `DeviceMap.dfy` | byte ranges, normal form, `merge_memory_range`, the device's binary search |
| `BlankChunks.dfy`, `ChunkSizes.dfy`, `MemoryProfile.dfy` | interval subtraction, the sizes of chunks in terms of bytes, and the unused chunks of every object across kernels |
| `DependencyGraph.dfy`, `Hazards.dfy`, `HazardEdges.dfy`, `Liveness.dfy` | the graph of memory operations, its construction by callbacks, exactly which edges that draws, and its peeling into levels |
| `Snapshots.dfy`, `RegionSplit.dfy` | versioned snapshots of the live allocations with pruning, and splitting an access region over them |
| `HashWords.dfy`, `Sha256.dfy`, `HashConstants.dfy`, `HashExample.dfy` | SHA-256 of FIPS 180-4: its word functions bit by bit, its constants as roots of primes, and the published digest of "abc" |
| `Sha256Stream.dfy` | the streaming object that computes it |
| `OpNames.dfy`, `Evidence.dfy`, `AccessKinds.dfy` | what instruction names tell, how the evidence of neighbours adds up, and the visited-set search that infers how an instruction accesses memory |
| `TemporalRedundancy.dfy`, `TopViews.dfy` | counting repeated values, and the bounded top views |
| `Common.dfy` | shared definitions |

## Main results

- **The queue is safe and delivers exactly once** (`QueueSafety`, `ExactlyOnce`), and with compaction and
  merging the analysis ends up with exactly the bytes the warps accessed (`AnalyzeRun`).
- **The queue can get stuck, and exactly when** (`ProgressExact`, `StrandingIff`): a warp that drew an
  index beyond the buffer and is slow to notice the rewind can meet a buffer that has filled up again to
  precisely `size`, with every other warp gone. Nobody then becomes leader and the warp spins for ever.
  In every other unfinished state some step advances, and no schedule advances for ever (`EveryRunEnds`).
  Whether some schedule strands is decided by the launch alone: if and only if the warps can stop short
  with records that fill the buffer a whole number of times, at least twice, while the warps that push
  everything could fill it once. One slot and three warps with one record each suffice
  (`StrandingHappens`); one warp, or no more than twice `size` records, never do (`StoppingShortNeeds`).
- **Every hazard is a path** (`HazardComplete`, `StreamOrdered`), and there is an edge exactly where an
  operation follows another on its stream or conflicts with it with nothing in between (`EdgesExact`), for
  all callback histories. Peeling ends on exactly the graphs without cycles
  (`PeelingEnds`), and then puts each node at the length of its longest incoming path
  (`TopologicalOrder`). The graph of a history has no cycle if and only if no operation touches one object
  twice with a write among the two (`IncreasingIff`, `PeelingEndsIff`); every copy within one object
  violates that (`CopyWithinObjectStalls`).
- **Interval algebra is exact**: the device's tile and buffer merges, the host's merge and the host's
  subtraction are union and difference of byte sets. The host's merge keeps gap-separated normal form if
  and only if the new range is anchored (`MergedNormalIff`): `Set::prev` finds nothing for a range left
  of all stored ones, which is then inserted without merging to the right. The device's tile merge is exact
  if and only if all addresses are below 2^63 - 1 (`SweepsExactlyIff`), and its two passes over a buffer
  always give exact coverage but normal form if and only if the records fit one tile (`BufferNormalIff`);
  if the first pass leaves a tile's worth, the second puts the normal form of everything first
  (`SecondPassCompletes`).
- **What is reported unused is a matter of bytes** (`KernelOp`): the largest chunk of an object is its longest
  run of bytes that no kernel accessed, and the rates are those of the number of such bytes. It takes accesses
  that are not empty: one strictly inside a chunk cuts the chunk and clears nothing, and that is the only way
  normal form is lost (`SubtractRange`).
- **Snapshots answer as of any time** (`Register`, `Unregister`, `SnapshotAdded`): an allocation is live exactly
  when some registration of it stands (`ReplayLive`); pruning changes exactly the lookups before the last
  snapshot it keeps (`PruningExact`).
- **Any split of a message under 2^29 bytes hashes to its FIPS 180-4 digest** (`HashPieces`); the code's
  padding is the standard's if and only if the message is that short (`PaddingMatches`).
- **The search for access kinds misses nothing** (`FoundIff`): the search from an instruction leaves the unit or the
  type to the default if and only if none can be derived along the dependences; and what it finds is the verdict
  on its neighbours in edge order (`NothingMissed`, `VerdictUnique`).
- **Repeated values are counted by position** (`RepeatsCount`, `RepeatsAtCount`, `AllRepeatsCount`): a repeat is an
  access that sees the value of the access it comes right after.

## Model

| member | source | states |
|---|---|---|
| RecordQueue.QueueSafety | include/gpu-queue.h:11-56 | in every reachable state, for any number of warps: slots being written are distinct and below size; head plus writers is min(tail, size) outside the rewind window; a leader exists exactly when tail > size and is unique; while a flag is up the buffer is full, nobody writes and threads remain; tail <= size + warps |
| RecordQueue.ProtocolStep | include/gpu-queue.h:14-56 | every atomic step of every warp and of the consumer keeps the protocol invariant |
| RecordQueue.ThreadsGone | src/gpu-patch-address.cu:174-182 | `num_threads` is zero exactly when every warp has left |
| RecordDelivery.DeliveryStep | src/gpu-analysis.cu:335-401 | every step keeps the accounting of records: pushed = delivered + finished slots, program = pushed + still to do |
| RecordDelivery.QuietMoments | src/gpu-analysis.cu:335-354 | while the flag is up, or once no thread is left, the buffer is complete and nobody writes to it |
| RecordDelivery.RunningMeansPolling | include/gpu-queue.h:18-41 | while a warp may write, the consumer is only polling; a leader meets a raised flag only while it awaits its fall |
| RecordDelivery.ExactlyOnce | src/gpu-analysis.cu:335-401 | over every run nothing is delivered twice or invented; `analysis == 1` implies `num_threads > 0`; when the consumer has finished, the delivered multiset is exactly what all warps set out to record |
| RecordProgress.ProgressExact | include/gpu-queue.h:14-45 | a reachable state has an advancing step if and only if the consumer has not finished and the remaining warps are not stranded; a stranded warp drew its index in an earlier epoch |
| RecordProgress.StepWorks | include/gpu-queue.h:11-56 | every advancing step lowers a lexicographic measure of the work left |
| RecordProgress.EveryRunEnds | include/gpu-queue.h:14-45 | no schedule, however unfair, advances for ever |
| RecordStranding.ReachableCounted | include/gpu-queue.h:14-56 | in every reachable state the records pushed are those of all full epochs and of the current one, and the current ones come from warps that are not waiting since an earlier epoch |
| RecordStranding.StrandedStopsShort | include/gpu-queue.h:39-42 | a reachable stranded state shows how the launch stopped short |
| StrandingRuns.StopsShortStrands | include/gpu-queue.h:14-56 | every launch that can stop short, with any number of warps and any size, has a run that strands |
| StrandingRuns.StrandingIff | include/gpu-queue.h:14-45 | some schedule of a launch strands a warp if and only if its warps can stop short: a condition on the buffer size and the number of records per warp |
| StrandingRuns.SafeLaunch | include/gpu-queue.h:14-45 | a launch that cannot stop short only ever stops when everything has been delivered |
| StrandingRuns.StoppingShortNeeds | include/gpu-queue.h:14-45 | stopping short takes at least two warps and more records than fill the buffer twice |
| StrandingRuns.StrandingHappens | include/gpu-queue.h:39-42 | one slot and three warps with one record each reach a stranded state |
| BitonicWarps.WarpSortSorts | include/utils.h:154-180 | for every 32-lane input the fifteen comparator stages give an ascending permutation |
| BitonicWarps.PhaseSorts | include/utils.h:162-178 | phase k leaves every aligned block of 2^(k+1) lanes sorted, in alternating directions |
| BitonicWarps.StagePermutes | include/utils.h:154-159 | one exchange stage permutes the lanes |
| WarpCompact.CompactExact | src/gpu-analysis.cu:55-147 | the ranges of a record are in order with a strict gap, and cover exactly the union of [a, a+size) over active lanes with a non-zero address |
| WarpCompact.GroupEnd | src/gpu-analysis.cu:87-118 | the reversed-ballot search finds the last lane before the next start point |
| WarpCompact.IntervalCompact | src/gpu-analysis.cu:55-147 | the read and the write buffer each get these ranges exactly when the record carries their flag |
| SweepMerge.MarksPair | src/gpu-analysis.cu:226-247 | start marks lead end marks by one exactly while some range is open |
| SweepMerge.SweptRanges | src/gpu-analysis.cu:226-266 | start and end marks are equal in number; the k-th start and k-th end bound a range, and a byte is in some such range exactly when some input range is open there |
| SweepMerge.Scatter | src/gpu-analysis.cu:249-266 | writing each marked value to the slot its running count names yields the marked values in order |
| SweepMerge.IntervalMergeImpl | src/gpu-analysis.cu:194-268 | any list of ranges below the address limit comes out sorted, with a strict gap between neighbours, covering exactly the same bytes, in no more ranges |
| SweepMerge.SweepsExactlyIff | src/gpu-analysis.cu:194-266 | for non-empty ranges of 64-bit addresses the marks of a tile pair up and their ranges cover the same bytes if and only if every end is below 2^63 - 1, where the shift meets the sentinel |
| BufferMerge.PassTile | src/gpu-analysis.cu:285-295 | writing a tile's result over already read records keeps: the written prefix and everything before the read position both cover exactly what was read, stale records included, and nothing unread is overwritten |
| BufferMerge.AnalysisBuffer.MergePass | src/gpu-analysis.cu:280-295 | one in-place pass, full tiles then the remainder, keeps the covered bytes for every head index and tile size, and is the pass the specification describes |
| BufferMerge.AnalysisBuffer.IntervalMerge | src/gpu-analysis.cu:272-319 | both passes: the buffer covers exactly the bytes it covered before, in no more records, and is the buffer the specification of the passes gives |
| BufferMerge.BufferNormalIff | src/gpu-analysis.cu:272-319 | for every tile size, all buffers of n records come out in normal form if and only if n records fit one tile; beyond that a buffer of non-empty ranges that fails is given for every n |
| SecondPass.PassIsTiles | src/gpu-analysis.cu:284-295 | although it overwrites what it has read, a pass leaves the merged tiles of the buffer it found, one after the other |
| SecondPass.PassCovers | src/gpu-analysis.cu:284-295 | and both what it wrote and the whole buffer cover the bytes it found |
| SecondPass.SecondPassCompletes | src/gpu-analysis.cu:297-313 | if the first pass leaves no more records than fit a tile, the buffer ends up starting with the normal form of everything it held, however many tiles that took |
| BufferMerge.TileAgreesWithFold | src/gpu-analysis.cu:194-268 | folding the host's merge over a start-sorted list gives the very list the device's tile merge gives |
| AnalysisPipeline.AddedBytes | src/gpu-analysis.cu:55-147 | a record adds to a buffer exactly the bytes it accesses in that direction |
| AnalysisPipeline.ConsumeBatch | src/gpu-analysis.cu:345-370 | one turn of the consumer: each buffer, with what the host has copied out of it, gains exactly the bytes the batch accesses, whatever its size |
| AnalysisPipeline.OutputBuffer.Push | src/gpu-analysis.cu:120-147 | pushing ranges into a buffer that the host empties when it is full loses and adds nothing |
| AnalysisPipeline.Consume | src/gpu-analysis.cu:335-401 | after all batches the read and write buffers, with what the host has copied out of them, hold exactly the bytes read and written, for any buffer size |
| AnalysisPipeline.EndToEnd | src/gpu-analysis.cu:335-401 | when the consumer has finished, the records it read hit exactly the bytes that all warps' records hit |
| AnalysisPipeline.AnalyzeRun | src/gpu-analysis.cu:335-401 | for every finished run of the queue, the two buffers and what was copied out of them hold exactly the bytes all warps read and wrote |
| Ranges.NormalFormUnique | redshow/src/analysis/data_flow.cpp:299-362 | two gap-separated lists of non-empty ranges with the same bytes are equal |
| RangeMerge.MergedCovers | redshow/src/analysis/data_flow.cpp:299-362 | the merged set covers exactly the old bytes and the new range, however the stored ranges overlap |
| RangeMerge.MergedSorted | redshow/src/analysis/data_flow.cpp:299-362 | the merged set is ordered by start, one range per start |
| RangeMerge.MergedNormalIff | redshow/include/common/set.h:14-22 | normal form is kept if and only if some stored range starts at or before the new one, the set is empty, or the new range ends before the first |
| RangeMerge.RangeSet.MergeMemoryRange | redshow/src/analysis/data_flow.cpp:299-362 | the in-place erase/emplace code computes that merge |
| RangeMerge.AbsorbRight | redshow/src/analysis/data_flow.cpp:320-355 | the right-hand loop erases exactly the swallowed ranges and extends the end once |
| RangeMerge.MergeAllCovers | redshow/src/analysis/memory_profile.cpp:312-375 | merging any list range by range covers exactly its bytes |
| RangeMerge.MergeAllNormal | redshow/src/analysis/memory_profile.cpp:312-375 | merging a start-sorted list gives normal form |
| RangeMerge.MergedNonEmpty | redshow/src/analysis/memory_profile.cpp:312-375 | merging a non-empty range into non-empty ranges leaves none empty |
| DeviceMap.MapUpperBound | include/utils.h:208-222 | the binary search finds the number of entries starting at or before the key |
| DeviceMap.MapPrev | include/utils.h:224-233 | the entry with the largest start at or below the key, `len` if there is none; on a disjoint dictionary it is the entry holding the key whenever one does |
| BlankChunks.SubtractRange | redshow/src/analysis/memory_profile.cpp:73-153 | exact set subtraction on a disjoint ordered set: stays disjoint, loses exactly the accessed bytes wherever the access falls, every piece lies inside an old chunk; chunks in normal form stay in normal form if and only if the access is not an empty one strictly inside a chunk, and no chunk becomes empty |
| BlankChunks.SubtractFrom | redshow/src/analysis/memory_profile.cpp:92-151 | the `while(!finished)` loop ends, by chunks ahead and bytes ahead, with everything up to the end cleared and, but for that one kind of access, in normal form |
| BlankChunks.LargestRefines | redshow/src/analysis/memory_profile.cpp:156-178 | cutting chunks smaller never raises the largest one |
| ChunkSizes.RunInside | redshow/src/analysis/memory_profile.cpp:166-172 | a run of bytes of a normal form lies inside one of its chunks |
| ChunkSizes.LargestIsLongestRun | redshow/src/analysis/memory_profile.cpp:166-172 | the largest chunk of a normal form is as long as the longest run of consecutive unused bytes |
| ChunkSizes.TotalCounts | redshow/src/analysis/memory_profile.cpp:166-172 | the chunk sizes add up to the number of unused bytes |
| MemoryProfiles.UnusedUnique | redshow/src/analysis/memory_profile.cpp:73-153 | when no access is empty, the chunks of an object are the one normal form of its allocation minus the accesses |
| MemoryProfiles.ReportDescribes | redshow/src/analysis/memory_profile.cpp:156-195 | a report on such chunks gives the longest unused run, and the rates of the number of unused bytes |
| MemoryProfiles.SubtractAll | redshow/src/analysis/memory_profile.cpp:241-247 | subtracting a possibly overlapping access set removes exactly its bytes, and keeps normal form when no access is empty |
| MemoryProfiles.Fragmentation | redshow/src/analysis/memory_profile.cpp:156-195 | the clamp changes no value; largest chunk, fragmentation and access rate are exactly those of the chunks, rates in [0, 1], fragmentation zero exactly when one chunk holds all unused bytes |
| MemoryProfiles.MemoryProfile.MemoryOp | redshow/src/analysis/memory_profile.cpp:32-60 | a new object is wholly unused |
| MemoryProfiles.MemoryProfile.UnitAccess | redshow/src/analysis/memory_profile.cpp:379-395 | the kernel's access set covers exactly its unit accesses so far |
| MemoryProfiles.MemoryProfile.KernelOp | redshow/src/analysis/memory_profile.cpp:198-256 | after any sequence of kernels every object's chunks are its allocation minus all unit accesses so far; total and largest never grow; untouched objects keep their chunks; each touched object whose accesses were not empty is reported with the length of its longest run of unused bytes and with fragmentation and access rate by number of unused bytes, and any other by its chunks |
| MemoryProfiles.SubtractTrace | redshow/src/analysis/memory_profile.cpp:213-248 | the chunks of each touched object move to this kernel and lose exactly what it touched |
| DependencyGraphs.DependencyGraph.AddEdge | redshow/include/analysis/memory_liveness.h:500-504 | both adjacency maps stay consistent with the edge map |
| DependencyGraphs.DependencyGraph.RemoveEdge | redshow/include/analysis/memory_liveness.h:522-526 | removes the edge from the edge map and both adjacency maps |
| DependencyGraphs.DependencyGraph.RemoveNode | redshow/include/analysis/memory_liveness.h:528-544 | removes the node with exactly its edges, self-edges included |
| DependencyGraphs.DependencyGraph.NoInedgeNodes | redshow/include/analysis/memory_liveness.h:546-554 | lists each node without incoming edges once |
| DependencyGraphs.RoundsAreChains | redshow/src/analysis/memory_liveness.cpp:1206-1219 | a node survives k rounds of peeling exactly when a path of k edges ends at it |
| DependencyGraphs.LevelIsLongestPath | redshow/src/analysis/memory_liveness.cpp:1206-1219 | surviving k rounds and not k + 1 is having a longest incoming path of k edges |
| DependencyGraphs.LevelledOnce | redshow/src/analysis/memory_liveness.cpp:1206-1219 | no node is put at two levels |
| DependencyGraphs.DependencyGraph.TopologicalOrder | redshow/src/analysis/memory_liveness.cpp:1206-1219 | on every graph without cycles the loop ends, emits each node exactly once, at the level of its longest incoming path, and leaves the graph empty |
| DependencyGraphs.PeelingEnds | redshow/src/analysis/memory_liveness.cpp:1206-1219 | peeling empties a graph after some number of rounds if and only if no node lies on a cycle, and then within as many rounds as there are nodes |
| Hazards.HazardComplete | redshow/src/analysis/memory_liveness.cpp:938-1080 | for every legal history, if two callbacks touch one object and one of them allocates, writes or frees it, the graph has a path from the earlier operation to the later |
| Hazards.StreamOrdered | redshow/src/analysis/memory_liveness.cpp:1003-1016 | any two operations on one stream are joined by a path |
| Hazards.EdgesJustified | redshow/src/analysis/memory_liveness.cpp:938-1080 | every edge is a stream-successor edge or joins two conflicting operations |
| HazardEdges.MapsRun | redshow/src/analysis/memory_liveness.cpp:938-1080 | the owner of an object is the last operation that wrote it, and its readers are exactly those that read it since |
| HazardEdges.EdgesExact | redshow/src/analysis/memory_liveness.cpp:938-1080 | the graph has an edge if and only if a callback is the next one on its stream, or conflicts with an earlier one while nothing between writes the object nor, if both write it, touches it |
| Hazards.IncreasingIff | redshow/src/analysis/memory_liveness.cpp:1036-1074 | edges go from smaller to larger ids if and only if no operation conflicts with itself, and the graph has no cycle under exactly the same condition |
| Hazards.NodesAreOps | redshow/src/analysis/memory_liveness.cpp:938-1001 | the nodes are exactly the operations of the history |
| Liveness.MemoryLiveness.UpdateGraphAtMalloc | redshow/src/analysis/memory_liveness.cpp:938-955 | the maps and the graph stay the replay of the history, extended by the allocation |
| Liveness.MemoryLiveness.UpdateGraphAtFree | redshow/src/analysis/memory_liveness.cpp:957-995 | the same for a free, which waits for all readers or else for the owner |
| Liveness.MemoryLiveness.UpdateGraphAtAccess | redshow/src/analysis/memory_liveness.cpp:997-1080 | the same for a read or a write |
| Liveness.MemoryLiveness.UpdateGraphAtKernel | redshow/src/analysis/memory_liveness.cpp:1082-1097 | the same for the dictionary of a kernel: hit entries in order, a write hiding a read |
| Liveness.KernelEventsExact | redshow/src/analysis/memory_liveness.cpp:1085-1096 | one access per hit entry that reads or writes, in the order of the entries, a write if the entry writes and a read otherwise |
| Liveness.MemoryLiveness.DumpTopologicalOrder | redshow/src/analysis/memory_liveness.cpp:1206-1219 | peels the graph of a self-conflict-free history into its longest-path levels |
| Liveness.PeelingEndsIff | redshow/src/analysis/memory_liveness.cpp:1206-1219 | peeling the graph of a history ends if and only if no operation conflicts with itself |
| Liveness.CopyWithinObjectStalls | redshow/src/analysis/memory_liveness.cpp:386-397 | after any legal history, an operation that reads an object and then writes it, on whatever streams, leaves a graph the peeling loop never empties |
| Liveness.CopyWithinObjectIsLegal | redshow/src/analysis/memory_liveness.cpp:386-397 | such histories are legal: an allocation and a copy within it |
| Snapshots.Prev | redshow/src/redshow.cpp:1278-1280 | the largest key at or below the given one, or none |
| Snapshots.ReplayLive | redshow/src/redshow.cpp:1257-1343 | as of time t a start is live exactly when some registration of it with id at most t has no later unregistration with id at most t |
| Snapshots.ReplayValue | redshow/src/redshow.cpp:1282-1286 | and maps to the memory of its last registration |
| Snapshots.SnapshotAdded | redshow/src/redshow.cpp:1257-1343 | adding a snapshot with a larger id keeps every lookup equal to the replay of all calls with id at most t |
| Snapshots.SnapshotTaken | redshow/src/redshow.cpp:1257-1343 | no lookup before the new id changes its answer, whatever the id |
| Snapshots.SnapshotStore.Register | redshow/src/redshow.cpp:1257-1304 | result code for every store and id; after success the lookup at that id maps the start to exactly this memory and every other start as before; for increasing ids, duplicate exactly when the start is live in the replay, and the store stays faithful |
| Snapshots.SnapshotStore.Unregister | redshow/src/redshow.cpp:1306-1343 | result code for every store and id; after success the lookup at that id no longer has the start and every other one as before; for increasing ids, success exactly when the start is live in the replay, and the store stays faithful |
| Snapshots.PruningExact | redshow/src/redshow.cpp:1711-1743 | a lookup keeps its answer if and only if it is not before the snapshot kept below `mini_host_op_id`, or had no answer; all lookups from `mini_host_op_id` on keep theirs |
| Snapshots.PrunedFaithful | redshow/src/redshow.cpp:1711-1743 | a pruned store still answers the replay from the kept snapshot on, so later calls find what they need |
| Snapshots.SnapshotStore.OldIds | redshow/src/redshow.cpp:1720-1727 | the loop collects exactly the ids below the bound and the largest of them |
| Snapshots.SnapshotStore.AnalysisEnd | redshow/src/redshow.cpp:1711-1743 | prunes exactly when there is an id and no data-flow analysis, preserving every lookup at or after it |
| RegionSplit.SnapshotsWellFormed | redshow/src/redshow.cpp:1257-1343 | when registrations never overlap a live allocation, every replayed snapshot is keyed by start and disjoint |
| RegionSplit.NearestOwns | redshow/src/redshow.cpp:609-629 | an address is live exactly when the allocation starting nearest below holds it |
| RegionSplit.SplitRegion | redshow/src/redshow.cpp:599-644 | consecutive pieces, each attributed to the one known allocation it lies in and ending exactly where that allocation or the region ends, that add up to exactly the longest live prefix of the region |
| MessageBlocks.FoldConcat | redshow/src/common/hash.cpp:79-113 | hashing blocks in two batches is hashing them in one |
| HashWords.ChBits | redshow/src/common/hash.cpp:48 | where x has a one the choice has the bits of y, elsewhere those of z |
| HashWords.MajFirstTwo | redshow/src/common/hash.cpp:49 | where x and y agree the majority is theirs |
| HashWords.MajOuterTwo | redshow/src/common/hash.cpp:49 | where x and z agree the majority is theirs |
| HashWords.MajLastTwo | redshow/src/common/hash.cpp:49 | where y and z agree the majority is theirs |
| HashWords.BigSigma0Bits | redshow/src/common/hash.cpp:50 | bit i is the xor of bits i + 2, i + 13 and i + 22 modulo 32 (section 4.1.2 of FIPS 180-4) |
| HashWords.BigSigma1Bits | redshow/src/common/hash.cpp:51 | bit i is the xor of bits i + 6, i + 11 and i + 25 modulo 32 |
| HashWords.SmallSigma0LowBits | redshow/src/common/hash.cpp:52 | bit i below 29 is the xor of bits i + 7, i + 18 modulo 32 and i + 3 |
| HashWords.SmallSigma0HighBits | redshow/src/common/hash.cpp:52 | the top three bits have no shifted part |
| HashWords.SmallSigma1LowBits | redshow/src/common/hash.cpp:53 | bit i below 22 is the xor of bits i + 17, i + 19 modulo 32 and i + 10 |
| HashWords.SmallSigma1HighBits | redshow/src/common/hash.cpp:53 | the top ten bits have no shifted part |
| HashWords.PackWeights | redshow/src/common/hash.cpp:61-65 | four bytes are the base-256 digits of the word, first byte most significant |
| HashWords.UnpackWeights | redshow/src/common/hash.cpp:54-60 | and the bytes of a word are its digits |
| HashWords.PackRoundTrip | redshow/src/common/hash.cpp:54-65 | unpacking a packed word gives its bytes back |
| HashConstants.PrimeIffSieved | redshow/src/common/hash.cpp:67-77 | up to 360 a number is prime exactly when no other prime up to 17 divides it |
| HashConstants.Primes0 | redshow/src/common/hash.cpp:68-69 | the primes with indices 0 to 7, and no number between them is one |
| HashConstants.Primes8 | redshow/src/common/hash.cpp:69-70 | the primes with indices 8 to 15, and no number between them is one |
| HashConstants.Primes16 | redshow/src/common/hash.cpp:70-71 | the primes with indices 16 to 23, and no number between them is one |
| HashConstants.Primes24 | redshow/src/common/hash.cpp:71-72 | the primes with indices 24 to 31, and no number between them is one |
| HashConstants.Primes32 | redshow/src/common/hash.cpp:72-73 | the primes with indices 32 to 39, and no number between them is one |
| HashConstants.Primes40 | redshow/src/common/hash.cpp:73-74 | the primes with indices 40 to 47, and no number between them is one |
| HashConstants.Primes48 | redshow/src/common/hash.cpp:74-75 | the primes with indices 48 to 55, and no number between them is one |
| HashConstants.Primes56 | redshow/src/common/hash.cpp:76-77 | the primes with indices 56 to 63, and no number between them is one |
| HashConstants.CubeRoots0 | redshow/src/common/hash.cpp:68 | constants 0 to 3 are the first 32 fractional bits of the cube roots of those primes (section 4.2.2 of FIPS 180-4) |
| HashConstants.CubeRoots4 | redshow/src/common/hash.cpp:68-69 | constants 4 to 7 are the first 32 fractional bits of the cube roots of those primes (section 4.2.2 of FIPS 180-4) |
| HashConstants.CubeRoots8 | redshow/src/common/hash.cpp:69 | constants 8 to 11 are the first 32 fractional bits of the cube roots of those primes (section 4.2.2 of FIPS 180-4) |
| HashConstants.CubeRoots12 | redshow/src/common/hash.cpp:69-70 | constants 12 to 15 are the first 32 fractional bits of the cube roots of those primes (section 4.2.2 of FIPS 180-4) |
| HashConstants.CubeRoots16 | redshow/src/common/hash.cpp:70 | constants 16 to 19 are the first 32 fractional bits of the cube roots of those primes (section 4.2.2 of FIPS 180-4) |
| HashConstants.CubeRoots20 | redshow/src/common/hash.cpp:70-71 | constants 20 to 23 are the first 32 fractional bits of the cube roots of those primes (section 4.2.2 of FIPS 180-4) |
| HashConstants.CubeRoots24 | redshow/src/common/hash.cpp:71 | constants 24 to 27 are the first 32 fractional bits of the cube roots of those primes (section 4.2.2 of FIPS 180-4) |
| HashConstants.CubeRoots28 | redshow/src/common/hash.cpp:72 | constants 28 to 31 are the first 32 fractional bits of the cube roots of those primes (section 4.2.2 of FIPS 180-4) |
| HashConstants.CubeRoots32 | redshow/src/common/hash.cpp:72-73 | constants 32 to 35 are the first 32 fractional bits of the cube roots of those primes (section 4.2.2 of FIPS 180-4) |
| HashConstants.CubeRoots36 | redshow/src/common/hash.cpp:73 | constants 36 to 39 are the first 32 fractional bits of the cube roots of those primes (section 4.2.2 of FIPS 180-4) |
| HashConstants.CubeRoots40 | redshow/src/common/hash.cpp:73-74 | constants 40 to 43 are the first 32 fractional bits of the cube roots of those primes (section 4.2.2 of FIPS 180-4) |
| HashConstants.CubeRoots44 | redshow/src/common/hash.cpp:74 | constants 44 to 47 are the first 32 fractional bits of the cube roots of those primes (section 4.2.2 of FIPS 180-4) |
| HashConstants.CubeRoots48 | redshow/src/common/hash.cpp:74-75 | constants 48 to 51 are the first 32 fractional bits of the cube roots of those primes (section 4.2.2 of FIPS 180-4) |
| HashConstants.CubeRoots52 | redshow/src/common/hash.cpp:75 | constants 52 to 55 are the first 32 fractional bits of the cube roots of those primes (section 4.2.2 of FIPS 180-4) |
| HashConstants.CubeRoots56 | redshow/src/common/hash.cpp:76 | constants 56 to 59 are the first 32 fractional bits of the cube roots of those primes (section 4.2.2 of FIPS 180-4) |
| HashConstants.CubeRoots60 | redshow/src/common/hash.cpp:76-77 | constants 60 to 63 are the first 32 fractional bits of the cube roots of those primes (section 4.2.2 of FIPS 180-4) |
| HashConstants.SquareRoots | redshow/src/common/hash.cpp:115-123 | the initial hash value is the first 32 fractional bits of the square roots of the first eight primes (section 5.3.3 of FIPS 180-4) |
| HashExample.AbcDigest | redshow/src/common/hash.cpp:79-165 | the digest of "abc" is the published one |
| SecureHash.PadZeros | redshow/src/common/hash.cpp:155-160 | the least number of zero bytes that lets the length field end a block (section 5.1.1 of FIPS 180-4) |
| HashStreams.PaddingMatches | redshow/src/common/hash.cpp:155-160 | the code's padding with a 32-bit length is the standard's if and only if the message is under 2^29 bytes |
| HashStreams.ShortPadBlocks | redshow/src/common/hash.cpp:155-161 | one or two padded blocks complete the padded message |
| HashStreams.Schedule | redshow/src/common/hash.cpp:88-93 | the array holds the message schedule |
| HashStreams.Mix | redshow/src/common/hash.cpp:97-108 | 64 in-place rounds on the working variables are the standard's rounds |
| HashStreams.Sha256.Transform | redshow/src/common/hash.cpp:79-113 | the hash value becomes the fold of the blocks |
| HashStreams.Sha256.Update | redshow/src/common/hash.cpp:128-148 | the object always holds the fold over complete blocks plus the residual bytes, whatever the sizes fed |
| HashStreams.Sha256.Final | redshow/src/common/hash.cpp:150-165 | the digest of the padded message for every length; the FIPS 180-4 digest below 2^29 bytes |
| HashStreams.HashPieces | redshow/src/common/hash.cpp:115-165 | any split of a message under 2^29 bytes hashes to the digest of the whole, for every choice of word functions; with `STANDARD`, whose functions are the ones above, this is SHA-256 |
| AccessKinds.InstructionGraph.InitAccessKind | redshow/src/binutils/instruction.cpp:56-213 | the search ends on every graph, cycles and reversals included, by the unvisited instructions; the width comes from the name, the unit is 0 or 8 to 64; every unit and type it finds is derivable; it is the verdict on all neighbours in edge order or on the first of them that were enough; and a unit or type it does not find is told by no edge of any newly visited instruction, every move these edges lead to being visited and every supplier of a stored value asked |
| AccessKinds.InstructionGraph.FoundIff | redshow/src/binutils/instruction.cpp:56-213 | a search of its own leaves the unit open if and only if no unit is derivable, and the type likewise; for a store, provided no instruction takes a value from it and, for types, a default type is set |
| AccessKinds.InstructionGraph.NothingMissed | redshow/src/binutils/instruction.cpp:86-210 | if the unit stays open no neighbour tells one, by name or by using the loaded registers as an address; if the type does, the instruction is not uniform and every neighbour is asked in turn or tells none; and the first neighbour to tell a unit, with nobody asked before it, determines it |
| AccessKinds.InstructionGraph.UnitlessUnderivable | redshow/src/binutils/instruction.cpp:123-133 | from a set of instructions closed under moves, none of whose edges tells a unit, no unit is derivable |
| AccessKinds.InstructionGraph.TypelessUnderivable | redshow/src/binutils/instruction.cpp:123-133 | the same for types |
| Evidence.VerdictNext | redshow/src/binutils/instruction.cpp:86-210 | hearing one more neighbour: the unit stays the first one told, the type the last one decided or else the first told |
| Evidence.VerdictUnique | redshow/src/binutils/instruction.cpp:86-210 | where to stop, the unit and the type are determined by what all neighbours would say |
| AccessKinds.InstructionGraph.AddressTold | redshow/src/binutils/instruction.cpp:135-162 | a load whose registers address shared or local memory is told 32 bits and integer, one whose registers address other memory 64 bits and integer, any other nothing |
| OpNames.HasIff | redshow/src/binutils/instruction.cpp:26-40 | the name test finds a part exactly when it occurs at some position |
| OpNames.VecExact | redshow/src/binutils/instruction.cpp:67-79 | the vector size is n exactly when the name holds "." and n in decimal and no larger width, or n is 32 and it holds none |
| OpNames.UnitExact | redshow/src/binutils/instruction.cpp:99-121 | a unit is the largest width up to 64 the name holds, capped by the vector size; without one, the width a conversion comes from for a load and goes to for a store; and none exactly when the name holds neither |
| OpNames.TypeOfConversion | redshow/src/binutils/instruction.cpp:183-200 | a load that feeds a conversion has the type converted from, a store fed by one the type converted to |
| OpNames.TypeOfOperation | redshow/src/binutils/instruction.cpp:178-182 | a neighbour that operates on one type only decides for that type, one that no word describes suggests integer |
| AccessKinds.InstructionGraph.Analyze | redshow/src/binutils/instruction.cpp:326-351 | afterwards exactly the MEMORY instructions have a kind, with the width of their name and a non-zero unit in {8, 16, 32, 64}, and every unit and type is derivable along the dependences or the default; each kind is what a search found with only the open parts defaulted: a search of its own, backwards for a store and forwards for a load, that missed nothing, or a forward search for an instruction it supplies |
| AccessKinds.InstructionGraph.DefaultSettles | redshow/src/binutils/instruction.cpp:25-54 | defaults turn any search result into a settled kind |
| TemporalRedundancy.Previous | redshow/src/analysis/temporal_redundancy.cpp:174-200 | the latest access of a thread to an address since its last block exit, and none exactly when every such access lies before an exit |
| TemporalRedundancy.RepeatsCount | redshow/src/analysis/temporal_redundancy.cpp:191-198 | the count of a pair is the number of positions where an access at that pc comes right after an access of the same thread to the same address, by the pair's pc and with equal value, no other access to it and no exit between; the pair names that value and the access kind |
| TemporalRedundancy.RepeatsAtCount | redshow/src/analysis/temporal_redundancy.cpp:191-198 | the repeats at a pc are the positions there whose value equals the one they come right after |
| TemporalRedundancy.AllRepeatsCount | redshow/src/analysis/temporal_redundancy.cpp:191-229 | all repeats are all such positions of the trace |
| TemporalRedundancy.AccessesCount | redshow/src/analysis/temporal_redundancy.cpp:54-61 | accesses at a pc are counted once per position |
| TemporalRedundancy.PairsNext | redshow/src/analysis/temporal_redundancy.cpp:174-200 | an event adds one to the count of exactly the pair it repeats |
| TemporalRedundancy.RepeatsBounded | redshow/src/analysis/temporal_redundancy.cpp:45-63 | repeats at a pc never exceed its accesses |
| TemporalRedundancy.RedMapIs | redshow/src/analysis/temporal_redundancy.cpp:210-229 | the repeats of all pcs add up to the repeats of the whole trace |
| TemporalRedundancy.Trace.UnitAccess | redshow/src/analysis/temporal_redundancy.cpp:45-63 | the maps stay the counts of the extended trace, which the lemmas above give by position |
| TemporalRedundancy.Trace.BlockExit | redshow/src/analysis/temporal_redundancy.cpp:40-43 | forgets the thread's last values and nothing else |
| TemporalRedundancy.Trace.TopPairs | redshow/src/analysis/temporal_redundancy.cpp:248-273 | the pairs a pc repeated most often, least often first |
| TopViews.Offer | redshow/src/analysis/temporal_redundancy.cpp:231-239 | the bounded heap keeps the `limit` largest views seen so far |
| TopViews.Drain | redshow/src/analysis/temporal_redundancy.cpp:243-284 | emptying the heap emits each view once, smallest first |
| TemporalRedundancy.Trace.RecordViews | redshow/src/analysis/temporal_redundancy.cpp:202-284 | for limit > 0, ascending views with the `limit` largest counts of repeated values per pc, the total of all repeats, and for a non-zero second limit the top pairs of exactly these views |

## Assumptions the source makes of its callers

- Callback operation ids never decrease, allocations and frees use an id of their own, and a callback
  names an object allocated before it (`Hazards.Legal`); nothing forbids an operation from touching an
  object twice, and the consequences are stated as an equivalence.
- Snapshot ids increase for the claims about replay; result codes and the stability of earlier
  lookups hold for any id. Live allocations do not overlap for region splitting.
- The buffer size of the queue is at least one, and counters do not wrap: `QueueSafety` bounds `tail` by
  size plus warps.
- Addresses in the tile merge are below 2^63 - 1; `SweepsExactlyIff` shows that this is exactly when the sweep
  of a tile of non-empty ranges works.
- Message pieces are below 2^31 bytes, past which the block offset in `transform` overflows its `int`.
- Edges of the instruction graph join its instructions, and MEMORY instructions name their address
  registers, since the search indexes them unchecked.
- `limit` for the top views is positive; with zero the source reads the top of an empty heap.

## Left out

- Edge labels (`touched_objs`), the edge and stream lists kept for dumps, and the usage accounting of the liveness analysis: they would only add bookkeeping members.
- Storing a record is one step of the queue model; the warp's lanes filling it between draw and push are not interleaved, since the slot is theirs alone.
- Memory ordering weaker than sequential consistency, and block sampling, which returns before touching the queue.
- AnalysisPipeline.OutputBuffer.Push: the wait for the host to copy a full output buffer is one step; the handshake itself is the protocol of the record queue.
- The host-side consumer of `full` is modelled with the same loop shape as the device consumer of `analysis`; its own driver loop is not part of this model.
- The block-wide load, radix sort, scan and flag primitives are modelled by their specifications on sequences; per-thread arrays and shared memory are not.
- MemoryProfiles.Fragmentation: rates are exact reals where the source uses `float`.
- MemoryProfiles.MemoryProfile.UnitAccess: the host-memory filter at its head is left out.
- TemporalRedundancy.Trace.UnitAccess: models one direction; the address arithmetic and the choice between the read and the write trace happen before it.
- HashStreams.HashPieces: the hexadecimal rendering of the digest is left out.
- HashStreams.Mix: the word functions are parameters of the streaming proofs; `SecureHash.STANDARD`, the default of the hash object, is the choice of FIPS 180-4.
- AccessKinds.InstructionGraph.InitAccessKind: a search on behalf of a store shares its visited set, so the kind recorded for a supplier is only promised to miss nothing one edge away.
- TemporalRedundancy.Trace.RecordViews: the three nested count maps are flattened to pc and pair.
- AccessKinds.InstructionGraph.Analyze: reading the instruction file and building the dependency edges are not modelled; edge lists are given in iteration order, and instructions may be visited in any order.
- Order of iteration over ordered maps and sets: loops pick elements in any order where the result does not depend on it.
- View address resolution, bitmaps and value patterns, data-flow shadow values, Python state, backtraces, and all output formats.
