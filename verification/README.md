# MemSentry: a verified model of the tracked heap

MemSentry replaces the allocation functions of a C++ program. Every tracked block gets a 64-byte
header, a 4-byte back-offset in front of the user address and a footer red zone; a sharded tracker
remembers the live blocks and the most recently freed addresses; atomic counters account for them;
reports are drawn from the tracker's contents.

The project models this in Dafny and proves what the parts promise each other:

- `Words`, `Layout`: 64-bit words with their wrap-around and bitwise masks written out; where the parts
  of a block go.
- `Block`, `BlockProofs`, `BlockBytes`: the bytes of a block in a byte array. Writing, checking and poisoning are
  methods with the program's own chunked loops, each proved equal to a function on byte sequences;
  the properties are lemmas about those functions, and `BlockBytes` says byte by byte what is in memory.
- `TrackerSpec`, `TrackerHistory`, `Tracker`: 64 shards, each a map and a ring of 256 erased pointers.
  The classes in `Tracker` are proved against the values in `TrackerSpec`, which refine one flat map;
  `TrackerHistory` characterises the answers by the history of calls alone.
- `Stats`, `Sampling`: the counters with the peak loop, and the three sampling modes.
- `SystemHeap`, `ManagerSpec`, `HeapInvariant`, `HeapCalls`, `HeapSafety`, `HeapRealloc`, `HeapSampling`,
  `HeapConservation`, `Manager`: the manager over a byte-level heap, one call at a time. `Manager.Manager` is the object; `ManagerSpec` says what
  each call does to memory, blocks, tracker and counters; `HeapInvariant` to `HeapSafety` prove the heap
  invariant, what each call keeps and changes, and safety over whole runs with client writes in between, with
  an exact account of what such a run reports. `HeapRealloc` says what each entry point does in each of its cases,
  and `HeapSampling` which allocations of a run are tracked. `HeapConservation` is about fully tracked runs;
  `FalseDoubleFree` is a run with sampling in which a live block is taken for a double free.
- `Concurrent`, `ConcurrentProofs`, `ConcurrentRuns`, `ConcurrentAlone`, `ConcurrentLives`, `ConcurrentHistory`:
  the same operations as a step machine. Each
  `fetch_add`, exchange, insert and erase is one step, and the steps of any number of threads interleave,
  tracked and untracked allocations mixed. The fields of `Past` (largest `current`, raises of the peak,
  mallocs, releases, retired ids) record the run for the theorems; no step reads them. `ConcurrentAlone` shows
  that a call without interference does what the sequential manager does; `ConcurrentLives` follows each block
  from its request to its end. `ConcurrentHistory` takes
  the inserts and erases of a run for a history of calls, so that what `TrackerHistory` proves about answers and
  scans holds while threads interleave. `PeakLag` is a run whose counters are read at a bad moment.
- `Flamegraph`, `FlameProperties`, `FlameGeometry`: the call-stack tree built in place by `build_tree`,
  what its numbers mean, and where its rectangles go.
- `Snapshot`, `Histogram`, `Fragmentation`, `Escape`: snapshot differences, size buckets, the
  fragmentation ratio, and the JSON and XML escapers with decoders that undo them.

Modelling conventions. An address is an index into memory and 0 is null. The system allocator is an
assumption (`SystemHeap.CanGive`): it answers null or a 16-aligned range inside memory, above the first
64 KiB and disjoint from everything outstanding; which one is a parameter. So are the thread's scope tag,
thread id and captured stack, the random intervals, and the number of spurious exchange failures. Tags
are addresses of text. Atomic operations are sequentially consistent. Widths, shares and ratios are real
numbers. The configuration stays the same for the life of the heap.

Some things the program might be expected to guarantee do not hold in general. Each comes with an input
for which it fails, and the exact condition under which it holds:

- the computed size is right: fails in `Layout.TotalSizeCanBeWrong`, exact in `Layout.TotalSizeIsExactIff`;
- the lookup finds the header again: `BlockProofs.LinkIsLost`, `BlockProofs.BackLinkRoundTrip` and
  `BlockProofs.RoundTripsAlwaysIff`;
- freeing an untracked block gives it back: `FalseDoubleFree.LiveBlockTakenForDoubleFree`,
  `HeapSafety.PlainBlockIsFreedIff`;
- the net deltas of a snapshot difference are new minus freed: `Snapshot.NetCanBeWrong`,
  `Snapshot.NetIsExactIff`;
- successive differences compose: `Snapshot.DiffsNeedNotCompose`, `Snapshot.DiffsComposeIff`;
- the fragmentation ratio lies between 0 and 1: `PeakLag.RatioBelowZero`, `Fragmentation.RatioInRangeIff`.

## Model

| member | source | states |
|---|---|---|
| Layout.TotalSizeIsExactIff | include/memsentry/core/header.hpp:30-38 | the computed size is the true sum, or 0 when that overflows, exactly when offset plus footer fits a word, or the guard rejects the request, or the wrapped sum is 0 |
| Layout.TotalSizeCanBeWrong | include/memsentry/core/header.hpp:33-37 | a footer near 2^64 makes the size 83 although the true sum overflows |
| Layout.UserAddressInSpan | include/memsentry/core/header.hpp:48-51 | for any alignment the masked address leaves room for header and back-offset and stays inside the reserved span |
| Layout.UserAddressAligned | include/memsentry/core/header.hpp:46-50 | for a power-of-two alignment the masked address is aligned, and is the first such address after the header and back-offset |
| Layout.UserOffsetBounds | include/memsentry/core/header.hpp:46-51 | from 16-aligned memory the offset is a multiple of 16 in [80, 64 + alignment], so at most 4160 for alignments up to 4096 |
| Layout.LinkBoundIsTight | include/memsentry/core/header.hpp:102-104 | the accepted limit 4096 + 64 is reached, at a power-of-two alignment and 16-aligned memory |
| Layout.OffsetAcceptedIff | include/memsentry/core/header.hpp:46-104 | among power-of-two alignments, exactly those up to 4096 give an accepted offset from every 16-aligned address, however high the lowest of these addresses is |
| Layout.PartsFitInTotal | include/memsentry/core/header.hpp:30-83 | header, back-offset, payload and footer lie in order, without overlap, inside the computed size |
| Block.InitBlock | include/memsentry/core/header.hpp:40-83 | null for null memory; otherwise the user address, and memory equal to the laid-out block and nothing else changed |
| Block.FillFooter | include/memsentry/core/header.hpp:74-80 | stepping by 8 with a partial last chunk writes the magic pattern over exactly the footer |
| Block.VerifyCanary | include/memsentry/core/header.hpp:115-140 | the scan returns the verdict on magic and footer |
| Block.CompareFooter | include/memsentry/core/header.hpp:125-137 | the chunked comparison succeeds iff every footer byte shows the magic |
| Block.PoisonBlock | include/memsentry/core/header.hpp:142-158 | memory equals the poisoned block and nothing else changed |
| BlockProofs.InitialisedIsArmed | include/memsentry/core/header.hpp:54-80 | a fresh block reads back: live magic, matching fields and back-offset, full footer |
| BlockProofs.VerdictIsExact | include/memsentry/core/header.hpp:115-140 | no corruption iff the magic and every footer byte are intact; otherwise the verdict names what is damaged |
| BlockProofs.OneByteDecides | include/memsentry/core/header.hpp:125-137 | on a fresh canary block, changing one footer byte gives FOOTER_CORRUPTED, and changing any byte outside the metadata changes no verdict |
| BlockProofs.MetadataDecides | include/memsentry/core/header.hpp:115-140 | writes outside the metadata keep the block's structure and its verdict |
| BlockProofs.BackLinkIsExact | include/memsentry/core/header.hpp:93-113 | the lookup leads to the block iff it is live and its offset is within the limit |
| BlockProofs.BackLinkRoundTrip | include/memsentry/core/header.hpp:40-113 | the lookup undoes `init_block` iff the offset is within 4160, which 16-aligned memory and power-of-two alignments up to 4096 guarantee |
| BlockProofs.RoundTripsAlwaysIff | include/memsentry/core/header.hpp:40-113 | among power-of-two alignments, the round trip holds for all memory that the system allocator can give iff the alignment is at most 4096 |
| BlockProofs.LargeAlignmentLosesTheLink | include/memsentry/core/header.hpp:46-104 | at every multiple of 8192 that the system allocator can give, a block with a power-of-two alignment above 4096 is not found again |
| BlockProofs.LinkIsLost | include/memsentry/core/header.hpp:102-104 | a block of alignment 8192 at address 0x12000, which the system allocator can give, is not found again |
| BlockProofs.PoisonedIsRecognised | include/memsentry/core/header.hpp:115-158 | after poisoning the check says DOUBLE_FREE, the lookup finds nothing and the payload is untouched |
| BlockProofs.PoisonIsIdempotent | include/memsentry/core/header.hpp:142-158 | poisoning again, even with another footer size, changes nothing |
| BlockBytes.InitialisedReads | include/memsentry/core/header.hpp:54-80 | after `init_block` each header field reads back from its own place with the value asked for, the total being offset plus size plus red zone and the tag "General" if there is none; the back-offset and every red-zone byte are in place, and no other byte has changed |
| BlockBytes.PoisonedBytes | include/memsentry/core/header.hpp:142-158 | every byte of memory after `poison_block`, on any memory: the freed magic, a zero offset field, a zero back-offset and the freed pattern where the header says they are, and everything else as it was; a header without an offset loses only magic and offset field |
| BlockBytes.BackLinkIff | include/memsentry/core/header.hpp:93-113 | on any memory the lookup answers a header exactly if the back-offset leads there over 68 to 4160 bytes, and the header has the live magic and the same offset |
| BlockBytes.VerdictIff | include/memsentry/core/header.hpp:115-140 | on any memory, each answer of the check and exactly when it is given; null is UNTRACKED_POINTER |
| TrackerSpec.SameShardIff | include/memsentry/core/sharded_tracker.hpp:121-124 | two addresses share a shard iff their 16-byte cell numbers agree modulo 64, with the 64-bit product wrapping |
| TrackerSpec.ShardIndexIs | include/memsentry/core/sharded_tracker.hpp:121-124 | the shard of an address is 21 times its cell number modulo 64 |
| TrackerSpec.ConsecutiveCellsCoverShards | include/memsentry/core/sharded_tracker.hpp:121-124 | any 64 consecutive cells occupy all 64 shards, each once |
| TrackerSpec.InsertRefines | include/memsentry/core/sharded_tracker.hpp:28-39 | inserting is a map update, keeps live and quarantined pointers apart, and releases only this pointer from quarantine |
| TrackerSpec.EraseRefines | include/memsentry/core/sharded_tracker.hpp:41-63 | erasing is a map removal; the three answers mean live, dead and quarantined, and neither |
| TrackerSpec.EraseQuarantines | include/memsentry/core/sharded_tracker.hpp:47-53 | erasing puts nothing in quarantine but the pointer erased, and that only if it was live |
| TrackerSpec.SizeRefines | include/memsentry/core/sharded_tracker.hpp:94-101 | the shard sizes add up to the size of the one map |
| TrackerHistory.RunRefinesMap | include/memsentry/core/sharded_tracker.hpp:28-111 | over every run of insert, erase and clear the 64 shards stand for one map |
| TrackerHistory.DoubleFreeIff | include/memsentry/core/sharded_tracker.hpp:41-63 | DOUBLE_FREE_DETECTED exactly for a pointer that is among the last 256 successful erases of its shard and has not been inserted since; SUCCESS exactly for a live one |
| TrackerHistory.DepthIsAge | include/memsentry/core/sharded_tracker.hpp:52-53 | a pointer's depth in the ring is the number of erases in its shard since its own, through wrap-around of the head |
| TrackerHistory.ScanIsSound | include/memsentry/core/sharded_tracker.hpp:80-92 | each record of a scan interleaved with other calls was live when its shard was read |
| TrackerHistory.ScanHasNoDuplicates | include/memsentry/core/sharded_tracker.hpp:80-92 | no pointer is returned twice |
| TrackerHistory.ScanIsComplete | include/memsentry/core/sharded_tracker.hpp:80-92 | every record live throughout the scan is returned |
| Tracker.ShardCell.Insert | include/memsentry/core/sharded_tracker.hpp:33-38 | the loop clears every slot that holds the pointer and stores the record |
| Tracker.ShardCell.Erase | include/memsentry/core/sharded_tracker.hpp:46-62 | the new shard, the status and the record handed out |
| Tracker.ShardedTracker.Insert | include/memsentry/core/sharded_tracker.hpp:28-39 | the tracker object follows the value and the flat map |
| Tracker.ShardedTracker.Erase | include/memsentry/core/sharded_tracker.hpp:41-63 | likewise, with status and record |
| Tracker.ShardedTracker.Find | include/memsentry/core/sharded_tracker.hpp:65-78 | the record of the one map, or nothing |
| Tracker.ShardedTracker.Size | include/memsentry/core/sharded_tracker.hpp:94-101 | the number of live records |
| Tracker.ShardedTracker.Clear | include/memsentry/core/sharded_tracker.hpp:103-111 | empty shards and rings |
| Tracker.ShardedTracker.SnapshotAll | include/memsentry/core/sharded_tracker.hpp:80-92 | without interference, every live record exactly once |
| Stats.MemoryStats.UpdateOnAlloc | include/memsentry/types.hpp:69-79 | with any number of spurious exchange failures, the loop ends with the peak at the larger of itself and the new current value |
| Stats.MemoryStats.UpdateOnFree | include/memsentry/types.hpp:81-86 | the counters after a free, modulo 2^64 |
| Stats.CountersAreSums | include/memsentry/types.hpp:69-86 | after any sequence of updates each counter is the bytes, or the number, of all allocations, of all frees, or their difference, modulo 2^64 |
| Stats.PeakIsLargest | include/memsentry/types.hpp:74-78 | the peak is the largest value the byte counter has had, while no more is freed than was allocated |
| Stats.ApartSumsBelow | src/memsentry.cpp:265-266 | payloads that do not overlap below a limit hold no more bytes than the limit, so the byte counter cannot wrap |
| Sampling.ByteSamplingMeetsSpec | src/memsentry.cpp:208-218 | for intervals of at least 1, any ids and sizes below 2^63 an allocation is sampled iff the bytes since the last draw reach the drawn interval |
| Sampling.CountdownIsRest | src/memsentry.cpp:208-218 | after first use the countdown is positive and is what remains of the interval |
| Sampling.OneInNIsBalanced | src/memsentry.cpp:219-223 | whatever the sizes, exactly the ids that are multiples of N are tracked and the countdown is left alone; so between floor(K/N) and ceil(K/N) of any K allocations with consecutive ids are |
| Sampling.PercentageIsExact | src/memsentry.cpp:224-229 | whatever the sizes, exactly the ids whose remainder modulo 100 is below the percentage are tracked and the countdown is left alone; so exactly the percentage of any 100 consecutive ids is |
| Sampling.HugeSizesAreNotPicked | src/memsentry.cpp:208-218 | in byte mode a size of 2^63 or more, read as negative, is never tracked and raises the countdown |
| HeapSampling.RunIsSampledOneInN | src/memsentry.cpp:206-223 | of the allocations of a whole run, whatever else happens in between, exactly those are tracked that draw a multiple of N; their ids are consecutive, and between floor(K/N) and ceil(K/N) of K are tracked |
| HeapSampling.StepDraws | src/memsentry.cpp:206-229 | each allocation or growing reallocation outside the guard draws one id and leaves the countdown of its decision; no other operation touches either |
| HeapSampling.PickedIsRecorded | src/memsentry.cpp:206-266 | an address handed out has a record exactly if the sampler picked its allocation |
| HeapInvariant.AllocateTrackedKeeps | src/memsentry.cpp:231-277 | a tracked allocation keeps the heap invariant, lays out one intact, aligned, fresh block field by field, adds its record with the size, alignment, thread, call stack and tag asked for (the tag else the scope's, else the default), and leaves every other block's bytes alone; on failure nothing changes |
| HeapInvariant.PayloadsApart | src/memsentry.cpp:236-266 | recorded payloads never overlap |
| HeapInvariant.DropBlock | src/memsentry.cpp:314-317 | dropping, poisoning and releasing one block keeps all others as they were |
| HeapInvariant.PoisonMarks | src/memsentry.cpp:314-317 | poisoning a recorded block leaves the freed magic, no offset, no back-offset, the freed pattern over its red zone and every other byte as it was; the check then says DOUBLE_FREE and the lookup finds nothing |
| HeapCalls.AllocateKeeps | src/memsentry.cpp:199-277 | `allocate` in all its modes keeps the invariant; what it adds on the tracked path and on the plain path |
| HeapCalls.AllocationSucceedsIff | src/memsentry.cpp:231-238 | `allocate` returns an address exactly when the true size fits a word and the system can give that much |
| HeapCalls.LimitIsReportedIff | src/memsentry.cpp:268-274 | the limit callback is called, with the new total, exactly when a tracked allocation leaves more live bytes than allowed |
| HeapCalls.AllocateReports | src/memsentry.cpp:199-277 | an allocation reports a passed limit, if it is tracked, and nothing else |
| HeapCalls.FreeKeeps | src/memsentry.cpp:279-335 | `deallocate` keeps the invariant for null, live, quarantined and plain pointers, and what it does in each case, down to the marks it leaves on a freed block |
| HeapCalls.FreeTracked | src/memsentry.cpp:295-317 | a live pointer loses its record and its bytes leave the counters; the block is marked as freed and released if intact, and otherwise reported as what is wrong with it and retained |
| HeapCalls.OwnWriteKeeps | src/memsentry.cpp:236-250 | a write inside the client's own memory touches no block's metadata |
| HeapCalls.ReallocateMoves | src/memsentry.cpp:337-371 | a successful reallocation keeps the first min(old, new) bytes in a new block, releases the old one if it was intact, and leaves every other block byte for byte unchanged |
| HeapCalls.ReallocateCounts | src/memsentry.cpp:337-371 | it keeps the alignment, a tag that was given and the number of allocations, moves the bytes by new minus old, and drives the peak to at least previous current plus new |
| HeapCalls.ReallocateFails | src/memsentry.cpp:363-365 | without a new block the old one and its record survive |
| HeapSafety.RunsAreSafe | src/memsentry.cpp:199-371 | after any run of allocations, frees, reallocations, client writes and foreign writes every record describes an intact block, blocks are disjoint and counters exact; the corruption reports of the run are, one for one and in order, its frees of dead pointers in quarantine |
| HeapSafety.RunIsSilentIff | src/memsentry.cpp:279-371 | a run reports nothing but limits iff no operation frees a pointer that is dead and in quarantine at that moment |
| HeapSafety.FirstAllocationSucceeds | src/memsentry.cpp:199-277 | such runs exist: from the start a first allocation that fits in memory succeeds and is intact |
| HeapSafety.OverrunIsReportedIff | src/memsentry.cpp:295-317 | a write that runs past the payload anywhere inside the block is reported as FOOTER_CORRUPTED at the free, and the block retained, iff it changed a red-zone byte; no other block is affected |
| HeapSafety.UnderrunIsReportedIff | src/memsentry.cpp:295-317 | a write in front of the payload, over the magic or between header and back-offset, is reported as HEADER_CORRUPTED at the free (as DOUBLE_FREE if it wrote the magic of a freed block), and the block retained, iff it changed a byte of the magic; no other block is affected |
| HeapSafety.PlainBlockIsFreedIff | src/memsentry.cpp:294-335 | an untracked block is released iff its address is not in quarantine and no bytes before it lead back to what looks like a live header; otherwise it stays outstanding, and what happens instead is stated |
| HeapRealloc.ReallocOfTracked | src/memsentry.cpp:348-371 | `track_realloc` of a tracked pointer answers a new block exactly when the system has one; then payload, old block, records, counters, ids and log are as stated, and otherwise nothing changes; damage to the old block is reported before, and again when it is freed |
| HeapRealloc.ReallocOfNull | src/memsentry.cpp:337-339 | of null it allocates with the configured alignment and no tag, exactly when the system has the block |
| HeapRealloc.ReallocToNothing | src/memsentry.cpp:340-343 | to size 0 it answers null and gives the pointer back as `deallocate` does |
| HeapRealloc.ReallocOfPlain | src/memsentry.cpp:345-352 | under a guard, before initialisation or for an untracked block it is the system's: the first min(old, new) bytes are at the answer, the old block is released, and records, counters and log stay |
| HeapRealloc.TrackFreeGivesBack | src/memsentry.cpp:605-613 | `track_free` in each case: null, tracked, quarantined, untracked, and any pointer under a guard |
| HeapRealloc.LinkedBlockIsGivenBack | src/memsentry.cpp:320-331 | an unknown pointer whose back-offset leads to a live-looking header: that header is marked as freed byte by byte and its address is released |
| FalseDoubleFree.LiveBlockTakenForDoubleFree | src/memsentry.cpp:219-319 | a run from the start, tracking one allocation in two, in which a block handed out untracked at a freed user address is reported as a double free when first freed |
| HeapConservation.NothingIsLost | src/memsentry.cpp:373-380 | in fully tracked runs every outstanding block has a record, so there are no records iff everything was given back |
| HeapConservation.SecondFreesOnly | src/memsentry.cpp:294-319 | in fully tracked runs every report is the free of an address that the client gave up and has not been handed since; a client that makes none gets no report |
| HeapConservation.OnlyRealDoubleFreesAreReported | src/memsentry.cpp:294-319 | the same for every run from the start, about the final log |
| Manager.Manager.Sample | src/memsentry.cpp:206-229 | the branches compute the sampling decision and move the countdown |
| Manager.Manager.AllocateTracked | src/memsentry.cpp:231-277 | memory, blocks, tracker, counters and log as specified, in the program's order of steps |
| Manager.Manager.Allocate | src/memsentry.cpp:199-277 | `allocate` follows its specification and keeps the heap invariant |
| Manager.Manager.Free | src/memsentry.cpp:279-335 | erase, check, count, poison, release, with the back-link for unknown pointers |
| Manager.Manager.Deallocate | src/memsentry.cpp:279-335 | `deallocate` follows its specification and keeps the heap invariant |
| Manager.Manager.MoveTracked | src/memsentry.cpp:348-371 | check, allocate, copy, free |
| Manager.Manager.TrackFree | src/memsentry.cpp:605-613 | routing under a recursion guard |
| Manager.Manager.TrackRealloc | src/memsentry.cpp:337-371 | all branches of reallocation and its routing |
| Concurrent.BlockFits | src/memsentry.cpp:231-262 | the record of a new block describes a payload inside its range |
| ConcurrentProofs.StepKeeps | src/memsentry.cpp:199-335 | every step of every thread, tracked or plain, keeps ownership, accounts, peak, ids and the malloc balance |
| ConcurrentProofs.CountedFits | src/memsentry.cpp:265-266 | bytes and blocks counted, in the tracker or in flight, fit in the outstanding blocks |
| ConcurrentRuns.AloneUpdatesOnAlloc | include/memsentry/types.hpp:69-79 | without interference the steps add up to the sequential update |
| ConcurrentRuns.AloneUpdatesOnFree | include/memsentry/types.hpp:81-86 | likewise for a free |
| ConcurrentRuns.RunIsGood | src/memsentry.cpp:199-335 | the invariant holds in every state that any schedule reaches |
| ConcurrentRuns.CountersAccountForRecords | src/memsentry.cpp:265-266 | current bytes and active count equal the tracker's contents plus the operations in flight; the running totals agree modulo 2^64 |
| ConcurrentRuns.NoUnderflow | include/memsentry/types.hpp:69-86 | no `fetch_sub` underflows and no `fetch_add` on these counters overflows |
| ConcurrentRuns.QuiescentStateIsExact | include/memsentry/types.hpp:98-108 | between calls the counters are the tracker's contents, agree with the running totals, and current is at most the peak |
| ConcurrentRuns.PeakIsHistoricMaximum | include/memsentry/types.hpp:74-78 | the peak never exceeds what current has been; between calls it is the largest value current ever had |
| ConcurrentRuns.PeakNeverFalls | include/memsentry/types.hpp:74-78 | the peak only grows |
| ConcurrentRuns.CompletedUpdatesAreInThePeak | include/memsentry/types.hpp:69-79 | from the return of an update on, the peak is at least the value it produced |
| ConcurrentRuns.LostExchangesAreOthersRaises | include/memsentry/types.hpp:76-78 | each non-spurious failure of the exchange has its own raise by another thread since the loop was entered |
| ConcurrentRuns.LoopIsRecorded | include/memsentry/types.hpp:74-78 | a step in the peak loop raises the peak in its own thread's name, or counts a failure exactly if the peak was not the expected one and loads it again, or leaves the loop because the peak is high enough |
| ConcurrentRuns.AbovePeakOnlyInTheLoop | include/memsentry/types.hpp:74-78 | current exceeds the peak only while a thread that raised it is in the loop |
| ConcurrentRuns.EveryBlockHasOneOwner | src/memsentry.cpp:200-335 | every outstanding block is recorded, in one thread's hands, plain, or retained, and only one of these |
| ConcurrentRuns.PlainBlocksAreFreedOnce | src/memsentry.cpp:333-334 | a plain block on its way to the system is outstanding and in one thread's hands |
| ConcurrentRuns.ReleasesMatchMallocs | src/memsentry.cpp:200-334 | every address was released as often as handed out, but for the one time it is outstanding |
| ConcurrentRuns.FreeingAgainChangesNothing | src/memsentry.cpp:318-319 | freeing a quarantined pointer is detected and changes nothing |
| ConcurrentRuns.RacingFrees | src/memsentry.cpp:294-319 | of two racing frees one takes the block and the other is a detected double free |
| ConcurrentRuns.InsertsAreFresh | src/memsentry.cpp:266 | an insert never overwrites a live record |
| ConcurrentRuns.LiveWithoutGaps | src/memsentry.cpp:206 | until the id counter wraps, a record live at two moments was live in between |
| ConcurrentAlone.AllocatesAlone | src/memsentry.cpp:199-277 | a thread that runs `allocate` alone leaves the blocks, records, counters and next id that the sequential call leaves, for every sampling decision and whether or not the system has a block |
| ConcurrentAlone.FreesAlone | src/memsentry.cpp:294-335 | a thread that runs `deallocate` alone leaves what the sequential call leaves; a tracked block is given back once if the check passes and retained if not |
| ConcurrentAlone.GuardedAlone | src/memsentry.cpp:200-202 | under a guard an allocation is the system's |
| ConcurrentAlone.FreesGuardedAlone | src/memsentry.cpp:608-611 | under a guard a free is the system's |
| ConcurrentLives.RecordsAnswerRequests | src/memsentry.cpp:204-266 | in every state of every run each record answers one request: its id was drawn for it, its block given for it, and size, alignment, tag, thread and call stack are the request's |
| ConcurrentLives.FreesWereChecked | src/memsentry.cpp:294-317 | a thread in the middle of a free took the record out of the tracker and then made the check whose outcome it acts on |
| ConcurrentLives.StepBalance | src/memsentry.cpp:236-334 | each step hands out, gives back and retains exactly what its place in the call says, and the outstanding blocks follow |
| ConcurrentLives.ReleasesAreEndedFrees | src/memsentry.cpp:314-334 | each block was given back as often as frees of it ended with nothing wrong, or as a plain block was freed |
| ConcurrentLives.RetainedIffDamaged | src/memsentry.cpp:304-317 | a block is retained exactly if a free of it ended after a check that found it damaged |
| ConcurrentLives.NothingIsRetained | src/memsentry.cpp:314-317 | in a run whose checks find nothing wrong, nothing is retained, and between calls every outstanding block is recorded or plain |
| ConcurrentLives.IntactBlockIsReleased | src/memsentry.cpp:314-317 | at the end of a free with nothing wrong the block is outstanding no more and was given back once more |
| ConcurrentHistory.RunIsHistory | include/memsentry/core/sharded_tracker.hpp:28-63 | in every state of every interleaved run the shards are what the inserts and erases so far, in the order of their steps, make of empty ones, and stand for the map that these calls make |
| ConcurrentHistory.DoubleFreeInRunIff | include/memsentry/core/sharded_tracker.hpp:41-63 | in every state of every interleaved run a free is taken for a double free exactly when one of the last 256 successful erases of the shard, by whatever threads, erased the pointer and no thread has inserted it since |
| ConcurrentHistory.ScanOfHistory | include/memsentry/core/sharded_tracker.hpp:80-92 | a scan of the shards during an interleaved run is a scan of the run's history of calls |
| ConcurrentHistory.ScanOfRunIsSound | include/memsentry/core/sharded_tracker.hpp:80-92 | while threads go on, each record of a scan was live in the state that its shard was read in, and no pointer is returned twice |
| ConcurrentHistory.ScanOfRunIsComplete | include/memsentry/core/sharded_tracker.hpp:80-92 | a scan returns a pointer's record exactly if the pointer is live in the state that its shard was read in; so no record that stays live from the first shard's state to the last's is missed |
| Flamegraph.GenerateFoldedStacks | include/memsentry/profiler/flamegraph.hpp:86-109 | one line per record: the resolved names from outermost to innermost frame, "[unknown]" for an unnamed frame or an empty stack, and the size |
| Flamegraph.FlameNode.FindChild | include/memsentry/profiler/flamegraph.hpp:26-32 | a child of this name, or none has it |
| Flamegraph.FlameNode.GetOrCreateChild | include/memsentry/profiler/flamegraph.hpp:34-44 | the existing child, or a fresh one appended |
| Flamegraph.Descend | include/memsentry/profiler/flamegraph.hpp:73-77 | one step down keeps the objects a tree and counts the allocation at the child |
| Flamegraph.AddRecord | include/memsentry/profiler/flamegraph.hpp:55-81 | the merge of the lines so far becomes the merge with one more line |
| Flamegraph.BuildTree | include/memsentry/profiler/flamegraph.hpp:49-84 | the tree has a node exactly for every prefix of a folded line, differently named siblings in the order in which the lines first reach them, and at each node self and total bytes and counts equal to the sums over the lines that end there and pass through |
| FlameProperties.TotalIsSelfPlusChildren | include/memsentry/profiler/flamegraph.hpp:55-81 | every node's total is its self plus its children's totals |
| FlameProperties.RootTotalIsEverything | include/memsentry/profiler/flamegraph.hpp:55-57 | the root's total is all bytes and all records |
| FlameProperties.OrderDoesNotMatter | include/memsentry/profiler/flamegraph.hpp:49-84 | the same records in another order give the same nodes with the same numbers |
| FlameGeometry.DrawingIsSound | include/memsentry/profiler/flamegraph.hpp:111-196 | every rectangle is inside the picture, every one but the root's is under its parent and within its width, and no two overlap |
| FlameGeometry.DrawingIsComplete | include/memsentry/profiler/flamegraph.hpp:147-196 | exactly the nodes whose share of the width is at least 1 are drawn, in order, each as wide as its share of the root's total, as far right as the weight left of it, and in the row of its depth |
| FlameGeometry.TreeInside | include/memsentry/profiler/flamegraph.hpp:147-196 | a subtree stays in its span, row by row from left to right |
| FlameGeometry.DepthIsEnough | include/memsentry/profiler/flamegraph.hpp:139-145 | no rectangle is deeper than `get_max_depth` |
| FlameGeometry.DepthIsExact | include/memsentry/profiler/flamegraph.hpp:139-145 | `get_max_depth` is the length of the longest branch: none is longer and one is as long |
| FlameGeometry.WholeTree | include/memsentry/profiler/flamegraph.hpp:49-84 | below every node of a tree from `build_tree` there is a whole tree, cut nowhere |
| FlameGeometry.BuiltTreesAreWellWeighted | include/memsentry/profiler/flamegraph.hpp:49-84 | every whole tree from `build_tree` meets what the drawing needs: nowhere do the children weigh more than their parent |
| FlameGeometry.BuiltTreeIsDrawn | include/memsentry/profiler/flamegraph.hpp:49-196 | the whole tree that `build_tree` makes of any folded lines is one tree with the weight of all lines, and its drawing is sound and complete |
| Snapshot.CompareSnapshots | src/snapshot.cpp:8-44 | persistent and new are the records of `after` whose id is, or is not, in `before`; freed those of `before` whose id is not in `after`; in order; the net deltas are the signed differences, undefined outside 64 bits |
| Snapshot.SelectPartitions | src/snapshot.cpp:27-41 | each side is split without loss or repetition |
| Snapshot.SelectKeepsOrder | src/snapshot.cpp:27-41 | each side is in the order of the snapshot |
| Snapshot.GrowthIsNewMinusFreed | src/snapshot.cpp:27-41 | new minus freed is the growth, in records and in bytes |
| Snapshot.NetIsExactIff | src/snapshot.cpp:15-18 | for exact snapshots the signed net deltas are defined and equal new minus freed iff both totals, or neither, have the sign bit set; otherwise they are undefined where the true difference fits in 64 bits, and wrong where it does not |
| Snapshot.DiffsComposeIff | src/snapshot.cpp:20-41 | two successive differences compose iff nothing in both outer snapshots is missing from the middle one |
| Snapshot.QuiescentSnapshotIsExact | src/memsentry.cpp:451-459 | a snapshot taken between calls has the counters of its records, with unique ids |
| Snapshot.ScannedBetween | src/memsentry.cpp:451-459 | a record shown by two scans of a concurrent run is shown by a scan between them |
| Snapshot.ScanDiffsCompose | src/snapshot.cpp:20-41 | differences between three successive snapshots of a concurrent run compose, each read shard after shard while other threads go on |
| Snapshot.NetCanBeWrong | src/snapshot.cpp:15-18 | one live allocation of 2^63 bytes gives a net delta of minus 2^63 |
| Snapshot.DiffsNeedNotCompose | src/snapshot.cpp:27-41 | an id missing only from the middle snapshot comes out as new |
| Histogram.AllocationHistogram.Record | include/memsentry/profiler/histogram.hpp:34-42 | the bucket of this size, and no other, grows by it, modulo 2^64 |
| Histogram.AllocationHistogram.Feed | include/memsentry/profiler/histogram.hpp:44-48 | the buckets hold exactly the sizes fed, modulo 2^64 |
| Histogram.OneBucketEach | include/memsentry/profiler/histogram.hpp:24-31 | every size but 0 fits exactly one bucket |
| Histogram.Boundaries | include/memsentry/profiler/histogram.hpp:24-31 | the buckets end at 2^4, 2^6, 2^8, 2^10, 2^12, 2^16, 2^20 and 2^64 - 1, and each begins where the one before ends |
| Histogram.BucketsConserve | include/memsentry/profiler/histogram.hpp:34-48 | over all buckets, every size but 0 is counted once with all its bytes |
| Histogram.BucketsAreExact | include/memsentry/profiler/histogram.hpp:34-48 | while the bytes fed and their number stay below 2^64, every bucket is exact |
| Fragmentation.Analyze | include/memsentry/profiler/fragmentation.hpp:51-76 | ratio times peak is what is missing from the peak, average times frees is what was freed, both 0 where there is nothing to divide by; and the buckets of the live records |
| Fragmentation.RatioInRangeIff | include/memsentry/profiler/fragmentation.hpp:65-68 | the ratio is in [0, 1] iff the counters read satisfy current at most peak |
| Fragmentation.QuiescentRatioInRange | include/memsentry/profiler/fragmentation.hpp:65-68 | between calls it always is |
| PeakLag.RatioBelowZero | include/memsentry/profiler/fragmentation.hpp:65-68 | a run of one thread, read between `fetch_add` and exchange, with current 101 and peak 1, so a ratio of -100 |
| Escape.JsonEscape | src/reporter.cpp:29-67 | the loop computes the escaped text |
| Escape.JsonRoundTrip | src/reporter.cpp:29-67 | between quotes, in any document, the output is one JSON string (section 7 of RFC 8259) whose value is the input and which ends where the output ends |
| Escape.JsonIsClean | src/reporter.cpp:29-67 | no raw control byte, and no quote without a backslash before it |
| Escape.JsonEscapesOnlyWhatItMust | src/reporter.cpp:29-67 | text that needs no escape is left as it is; quotes, backslashes and the five named control bytes take two bytes, the other control bytes six |
| Escape.JsonControlBytes | src/reporter.cpp:54-62 | an unnamed control byte is written as `\u00` and two lower-case hexadecimal digits |
| Escape.EscapeXml | include/memsentry/profiler/flamegraph.hpp:198-224 | the loop computes the escaped text |
| Escape.XmlRoundTrip | include/memsentry/profiler/flamegraph.hpp:198-224 | undoing the references gives the input back |
| Escape.XmlIsClean | include/memsentry/profiler/flamegraph.hpp:198-224 | no angle bracket or quote is left |
| Escape.XmlEscapesOnlyWhatItMust | include/memsentry/profiler/flamegraph.hpp:198-224 | text without reserved characters is left as it is |

## Left out

- Reinitialisation with another configuration: the footer size, sampling mode and canary flag are constant over a run. `initialize` overwrites them even when it then returns early.
- Releasing a pointer under a recursion guard (src/memsentry.cpp:283-293 and 608-611): `track_free` hands it to the system first, so the branch inside `deallocate` is not reached; whole runs require such a pointer to be an untracked block.
- The tests for the freed magic at src/memsentry.cpp:286 and 322: the lookup only returns blocks with the live magic, so they are never taken.
- Untracked blocks whose bytes imitate a live block: `Manager.Manager.Free` follows the back-link, but whole runs only free untracked blocks without one. The lookup has no way to tell such an imitation apart.
- Damage to header fields other than the magic: `verify_canary` does not look at them, so only magic and footer damage is claimed to be found.
- The concurrent machine assumes that no live-looking header precedes an untracked block that is freed, and that clients free only null, live, quarantined and their own untracked blocks, each of the last by one thread.
- Bytes of memory in the concurrent machine: whether a block is intact when it is freed is an arbitrary choice there; the byte-level guarantees are those of the sequential model.
- Relaxed memory ordering: every atomic operation is one sequentially consistent step, and reading all counters for a report is not modelled step by step.
- `ShardedTracker::clear` and `size` take the locks one after another; the model takes each as one step. `snapshot_all` is treated shard by shard in `TrackerHistory` and `ConcurrentHistory`.
- Sampling.ByteSamplingMeetsSpec: stated for sizes below 2^63, because a larger size is negative in the countdown's arithmetic and raises it; what then happens is `Sampling.HugeSizesAreNotPicked`.
- Flamegraph.BuildTree: sums are unbounded numbers; for live records they stay below 2^64, as payloads do not overlap. File and line of a frame, which the first visitor fixes, are not modelled.
- Escape.ReadString: surrogate pairs, which the escaper never writes, are refused.
- Random generation and logarithms, time stamps, stack capture and symbol resolution, thread identifiers: parameters.
- Console, HTML and SVG text, file export, colours, suppression rules, scope tags as objects, the C entry points and operators, and crash handling: presentation or forwarding.
- The histogram of freed sizes kept by the manager: one more `Histogram`. It is fed for the life of the program, so its byte counts may pass 2^64, where they wrap.
