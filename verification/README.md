# Verified models of the homework repository's hard parts

Dafny models, with machine-checked proofs, of six pieces of the repository:

* the buddy allocator of `hw04-custom-memory-allocator/malloc_3.cpp` (`Dyadic`, `Blocks`, `FreeLists`,
  `Metadata`, `Growth`, `Allocator`, `AllocatorTheorems`, `AllocatorRuns`);
* the writer-priority lock and the shared log of the web server, `log.c` (`LogProtocol`, `ServerLog`);
* its bounded job queue and thread pool, `queue.c` and `server.c` (`JobQueue`, `PoolProtocol`, `Server`);
* the pipe ring buffer of `fs/pipe.c` with its resizing and per-user accounting (`PipeRing`, `Pipes`, `PipeSizes`);
* the pending-signal sets of `kernel/signal.c` (`Signals`);
* the Rio buffered reader of `segel.c` (`Rio`) and the ban calls of `kernel/hw2.c` (`BanBranch`).

Every module is in the file of its name; `Basics` holds the few declarations several of them share.

`dafny verify dfyconfig.toml` checks everything.

## How the models are built

**Allocator.** Memory is a map from addresses to 32-byte granules, the size of a header; every header is one
granule, and payload granules hold whatever clients left there, so a stray header read is a read of a payload
granule. `MemoryTracker` carries the program's counters and list heads, plus a ghost map from block addresses to
(order, free). `Valid` says that the blocks tile the 4 MB region, each aligned to its size, that no two equal buddies
are both free, that each free block is in exactly the list of its order, with sorted addresses and correct links in
both directions, that headers agree with the block map, and that the counters are right. `smalloc`, `sfree` and
`srealloc` keep it, so it holds after every run of them. What `sbrk`, `mmap` and `munmap` return are parameters.

Three things in the source behave otherwise than a reader might expect, and the model keeps them:

* `initHeap` assigns the statistics (lines 152-154), so mappings made while `sbrk` was failing are forgotten. `Past`
  records what was forgotten; every operation, `srealloc` included, says what it becomes (`Later`), and after
  initialisation it never changes. In every reachable state the counters are off by exactly that amount, so they are
  exact if and only if no mapping was live at that moment (`StatisticsExact`). `ForgottenMapping` is a run in which one
  was.
* From its second round the feasibility loop of `srealloc` computes the buddy's address from a size without the
  header (line 463 with 194-196), so it no longer aims at the buddy. `ProbeDecided` says what decides it, for any number
  of merges: the real buddy in the first round, and afterwards addresses that depend on the block alone, whose memory
  must happen to read as a free header of the old size. With one merge the probe is exact (`OneMergeExact`); with two,
  one granule of a payload decides (`TwoMergesDecidedByPayload`). The block map stays sound, because the real merge
  checks again, but the result may be too small: `ShortExactly` gives the exact condition, in terms of the block map and
  those addresses, and `EnoughUnlessStale` a short test that rules it out. `ShortReallocation` is a run from the start
  of the program that gets fewer than the 300 bytes it asks for. The opposite happens too: from two merges on, a block
  may have to move although the whole region around it is free (`MovesExactly`), and `RefusedReallocation` is a run in
  which `srealloc` then returns NULL. It returns NULL exactly for size 0, for a size over the limit, and when a request
  that must move finds no room (`Srealloc`).
* The memmove of in-place growth takes its length from the old header after the merge (line 476). Nothing outside
  the grown block is touched (`GrownMove`).

**Lock and pool.** Both are transition systems over any number of threads. A step is one critical section of the mutex;
the wait sets of the condition variables are explicit; a signal wakes at least one sleeper, and any sleeper may also
wake spuriously, as POSIX.1-2017 allows for `pthread_cond_wait`. The classes `ServerLog.Log` and `Server.Pool` hold the
program's fields; each of their methods is proved to be the step of the same name, and those that signal return it, tied
to the threads that the step wakes. Reading and appending take two steps each and ask nothing of the lock: an append
writes after the text it found at its start, and a copy is torn if the log is not the same at its end. `OverlapLoses`
shows what that does without exclusion; `LogKept`, that with it the log is always the completed entries in order.

**Pipe.** A method is one stretch of `pipe_read` or `pipe_write` between two waits, which the pipe mutex makes atomic.
Two ghost streams record every byte accepted and every byte read; `Valid` says that the first is the second followed by
the unread bytes, so this holds after any interleaving of readers and writers. Slots are indexed by the source's mask,
and that this wraps correctly is where the power of two is needed.

**Signals.** A pending set is a bitmap (a set of numbers from 1 to 64) and a queue of records; a group is the shared set
and one set for each thread. A group that is exiting no longer flushes, so the exclusion of stop signals and SIGCONT
holds as long as the group is not exiting, and every exiting group can lose it (`StopThenContinueWhileExiting`,
`ExitingGroupClashes`). A group that only dumps core accepts SIGKILL alone, so there it still holds.

**Rio.** `read` follows an arbitrary schedule of chunk sizes, interruptions and failures; the results do not depend on it.

## Model

| member | source | states |
|---|---|---|
| Dyadic.DyadicNesting | hw04-custom-memory-allocator/malloc_3.cpp:9-15 | two aligned power-of-two blocks are nested or disjoint |
| Dyadic.BuddyGeometry | hw04-custom-memory-allocator/malloc_3.cpp:189-191 | the buddy of an aligned block is aligned, is its buddy's buddy, and the lower of the two starts the parent |
| Dyadic.XorIsBuddy | hw04-custom-memory-allocator/malloc_3.cpp:189-191 | for every block start, address xor block size is the address of the other half of the parent |
| Dyadic.XorLow | hw04-custom-memory-allocator/malloc_3.cpp:194-196 | xor with a number below the alignment adds it: where a probe without the header size lands |
| Blocks.BuddyIsHeader | hw04-custom-memory-allocator/malloc_3.cpp:249-254 | in every tiling a real header sits at a block's buddy address, even when the buddy is split, and never a larger one |
| Blocks.MergeUpTiling | hw04-custom-memory-allocator/malloc_3.cpp:240-282 | merging upwards keeps an exact aligned tiling of the heap |
| Blocks.MergeUpCoalesced | hw04-custom-memory-allocator/malloc_3.cpp:240-282 | merging upwards leaves no free equal buddies except where merging stopped at its target |
| Blocks.MergeUpBlock | hw04-custom-memory-allocator/malloc_3.cpp:240-282 | the merged block is free, contains the block it grew from, and cannot be merged further towards the target |
| Blocks.MergeUpUsed | hw04-custom-memory-allocator/malloc_3.cpp:240-282 | merging changes no used block and creates none |
| Blocks.GrowsIffRegionFree | hw04-custom-memory-allocator/malloc_3.cpp:240-282 | merging reaches the target order if and only if the whole surrounding region of that order is free |
| Blocks.SplitDownTiling | hw04-custom-memory-allocator/malloc_3.cpp:298-323 | splitting down keeps an exact aligned tiling |
| Blocks.SplitDownCoalesced | hw04-custom-memory-allocator/malloc_3.cpp:298-323 | splitting down leaves no free equal buddies apart from the block about to be used |
| Blocks.FreeKeeps | hw04-custom-memory-allocator/malloc_3.cpp:404-408 | freeing a used block keeps a coalesced tiling and every other used block |
| Blocks.CarveKeeps | hw04-custom-memory-allocator/malloc_3.cpp:286-330 | an allocation keeps a coalesced tiling and adds exactly one used block |
| Blocks.FreeRegionInOneBlock | hw04-custom-memory-allocator/malloc_3.cpp:240-330 | in a coalesced heap an aligned region that is wholly free lies inside one free block |
| Blocks.AvailableIffRegion | hw04-custom-memory-allocator/malloc_3.cpp:286-295 | a sufficient free block exists if and only if some aligned region of the size is covered by free blocks |
| Blocks.SplitThenMerge | hw04-custom-memory-allocator/malloc_3.cpp:240-330 | merging everything a split produced gives back the block that was split |
| Blocks.FreeUndoesCarve | hw04-custom-memory-allocator/malloc_3.cpp:286-330 | freeing what was just allocated restores the block set exactly |
| Blocks.AllFreeIsInitial | hw04-custom-memory-allocator/malloc_3.cpp:123-156 | a coalesced heap with nothing in use is the 32 free top-level blocks |
| Blocks.FreeingAllRestoresInitial | hw04-custom-memory-allocator/malloc_3.cpp:382-409 | freeing every live block, in any order, restores exactly the 32 free top-level blocks |
| Blocks.TilingBytes | hw04-custom-memory-allocator/malloc_3.cpp:152-154 | payloads and headers of any tiling add up to 4 MB |
| Blocks.InitialTiling | hw04-custom-memory-allocator/malloc_3.cpp:142-150 | the initial top-level blocks tile the region and no two can be merged |
| FreeLists.InsertLinked | hw04-custom-memory-allocator/malloc_3.cpp:46-72 | linking a block in at its sorted place keeps all lists well linked and sorted |
| FreeLists.RemoveLinked | hw04-custom-memory-allocator/malloc_3.cpp:75-102 | unlinking a block keeps all lists well linked and sorted |
| FreeLists.SortedUnique | hw04-custom-memory-allocator/malloc_3.cpp:54-59 | a strictly sorted list is determined by its elements |
| FreeLists.BlockLists.constructor | hw04-custom-memory-allocator/malloc_3.cpp:116-120 | eleven empty lists |
| FreeLists.BlockLists.InsertBlock | hw04-custom-memory-allocator/malloc_3.cpp:46-72 | the list gains exactly the block, stays sorted and doubly linked, and only links change |
| FreeLists.BlockLists.FindPlace | hw04-custom-memory-allocator/malloc_3.cpp:54-59 | the walk stops at the first listed block that is not below the new one |
| FreeLists.BlockLists.RemoveFirst | hw04-custom-memory-allocator/malloc_3.cpp:75-86 | the lowest block is taken off and its links cleared; NULL only from an empty list |
| FreeLists.BlockLists.RemoveBlock | hw04-custom-memory-allocator/malloc_3.cpp:89-102 | exactly the given block leaves its list, wherever it stands |
| Metadata.OrderFor | hw04-custom-memory-allocator/malloc_3.cpp:201-206 | the search returns the least order that fits, or -1 if none does |
| Metadata.HalfFits | hw04-custom-memory-allocator/malloc_3.cpp:298-301 | the size test of the split loop holds exactly while the block's order is above the one required |
| Metadata.MappedFrame | hw04-custom-memory-allocator/malloc_3.cpp:346-364 | writing heap headers does not reach any mapping |
| Allocator.MemoryTracker.constructor | hw04-custom-memory-allocator/malloc_3.cpp:116-120 | an allocator not yet initialised is valid, with empty lists and zero counters |
| Allocator.MemoryTracker.GetBlockOrder | hw04-custom-memory-allocator/malloc_3.cpp:210-218 | the least order that holds the size in the header and the header itself |
| Allocator.MemoryTracker.GetRequiredOrder | hw04-custom-memory-allocator/malloc_3.cpp:199-207 | the least order that holds the request and a header |
| Allocator.MemoryTracker.FindBuddyIsBuddy | hw04-custom-memory-allocator/malloc_3.cpp:189-191 | in a consistent heap the computed address is the buddy's, and a real header is there |
| Allocator.MemoryTracker.MergeBuddyBlocks | hw04-custom-memory-allocator/malloc_3.cpp:222-236 | two equal free blocks below the top order become the lower one at twice the size; otherwise NULL and no change |
| Allocator.MemoryTracker.MergeOnce | hw04-custom-memory-allocator/malloc_3.cpp:258-270 | one round merges the two buddies in the block map, moves them between lists and keeps lists and headers in agreement |
| Allocator.MemoryTracker.AttemptFreeBuddyMerge | hw04-custom-memory-allocator/malloc_3.cpp:240-282 | the loop computes the upward merge of the block map and returns the final block, NULL at the target order already |
| Allocator.MemoryTracker.SplitOnce | hw04-custom-memory-allocator/malloc_3.cpp:302-322 | one round halves the lowest block of an order in the block map, in lists, headers and counters |
| Allocator.MemoryTracker.FindFreeOrder | hw04-custom-memory-allocator/malloc_3.cpp:291-295 | the first non-empty list at or above the target order, or one past the last order |
| Allocator.MemoryTracker.SplitTo | hw04-custom-memory-allocator/malloc_3.cpp:298-323 | the split loop stops exactly at the target order, having halved the lowest block of the order found |
| Allocator.MemoryTracker.SplitBlockBuddy | hw04-custom-memory-allocator/malloc_3.cpp:286-330 | the block comes from the lowest address of the smallest sufficient order; NULL exactly when no such block exists |
| Allocator.MemoryTracker.InitHeap | hw04-custom-memory-allocator/malloc_3.cpp:123-156 | the aligned region holds 32 linked free blocks, or nothing changes when sbrk fails |
| Allocator.MemoryTracker.InitCounters | hw04-custom-memory-allocator/malloc_3.cpp:152-154 | the counters are assigned, so blocks mapped before are no longer counted |
| Allocator.MemoryTracker.MapBlock | hw04-custom-memory-allocator/malloc_3.cpp:346-364 | a large request gets a mapping of its own and leaves the heap as it is |
| Allocator.MemoryTracker.Smalloc | hw04-custom-memory-allocator/malloc_3.cpp:334-367 | every case of the result, the new block set, validity, what the record of the initialisation becomes, and that all live payloads are kept and the new one is apart from them |
| Allocator.MemoryTracker.Sfree | hw04-custom-memory-allocator/malloc_3.cpp:382-409 | a live block is freed and merged, a mapping is removed, anything already free is left alone, and validity is kept |
| Allocator.MemoryTracker.FreeLive | hw04-custom-memory-allocator/malloc_3.cpp:382-409 | freeing one live block leaves all other live payloads as they are |
| Allocator.MemoryTracker.HeaderTells | hw04-custom-memory-allocator/malloc_3.cpp:391-402 | the size in a header tells heap blocks from mappings |
| Allocator.MemoryTracker.ProbeMerge | hw04-custom-memory-allocator/malloc_3.cpp:437-466 | the feasibility loop computes the probe function and restores the old header |
| Allocator.MemoryTracker.GrowInPlace | hw04-custom-memory-allocator/malloc_3.cpp:468-478 | growing in place keeps the allocator valid, every other live payload, and the old payload as prefix of the new one |
| Allocator.MemoryTracker.MovePayload | hw04-custom-memory-allocator/malloc_3.cpp:475-477 | the memmove, with the length from the old header, stale or not, writes inside the grown block only |
| Allocator.MemoryTracker.Relocate | hw04-custom-memory-allocator/malloc_3.cpp:480-486 | allocate, copy and free: the block map is that of one allocation and one deallocation of the old block, the old payload is the prefix of the new block; NULL exactly when there is no room, and then the old block stays |
| Allocator.MemoryTracker.Srealloc | hw04-custom-memory-allocator/malloc_3.cpp:412-487 | NULL exactly for a bad size or when a request that must move finds no room, and it changes no live block; a block that fits is handed back; a probe that passes grows it in place; a move is one allocation and one deallocation; nothing becomes live but the result; the old payload is kept, others are untouched, the record of the initialisation is kept, and the result is large enough if and only if the probe was not misled |
| Allocator.MemoryTracker.ReallocLive | hw04-custom-memory-allocator/malloc_3.cpp:423-487 | the same for a live block, by the branch taken, large requests included |
| Allocator.MemoryTracker.ReallocNull | hw04-custom-memory-allocator/malloc_3.cpp:412-422 | a NULL pointer makes it exactly one allocation: NULL exactly when there is no room |
| Allocator.NothingElse | hw04-custom-memory-allocator/malloc_3.cpp:412-487 | in every branch of srealloc, every block live afterwards is the result or was live before, and a block that fits is the result itself |
| Allocator.MemoryTracker.ClientWrite | hw04-custom-memory-allocator/malloc_3.cpp:9-15 | a client writing inside its own payload disturbs neither headers nor other payloads |
| Allocator.MemoryTracker.FreeBlocksCount | hw04-custom-memory-allocator/malloc_3.cpp:170-180 | the number of free blocks |
| Allocator.MemoryTracker.FreeBytesCount | hw04-custom-memory-allocator/malloc_3.cpp:158-168 | the sum of the payloads of the free blocks |
| Allocator.MemoryTracker.StatisticsExact | hw04-custom-memory-allocator/malloc_3.cpp:110-156 | the counters are the counts and sums over heap blocks and mappings less what was live at initialisation, so exact exactly when nothing was |
| Growth.PayloadsApart | hw04-custom-memory-allocator/malloc_3.cpp:329 | payloads of different live blocks never overlap |
| Growth.GrantKeeps | hw04-custom-memory-allocator/malloc_3.cpp:334-367 | an allocation keeps every live block; its result is new, live and large enough |
| Growth.MemMovePrefix | hw04-custom-memory-allocator/malloc_3.cpp:432-484 | after a memmove the destination starts with the old bytes, overlap or not |
| Growth.FirstRound | hw04-custom-memory-allocator/malloc_3.cpp:443-456 | the first round of the probe reads the real buddy |
| Growth.OneMergeExact | hw04-custom-memory-allocator/malloc_3.cpp:446-464 | with one merge needed the probe succeeds exactly when the buddy can be merged |
| Growth.ProbeDecided | hw04-custom-memory-allocator/malloc_3.cpp:446-466 | for any number of merges, the probe passes if and only if the buddy can be merged and every later address holds the old size marked free |
| Growth.LaterRounds | hw04-custom-memory-allocator/malloc_3.cpp:446-464 | every round after the first is decided by the memory at a fixed address, by induction over the rounds |
| Growth.SecondReadIsPayload | hw04-custom-memory-allocator/malloc_3.cpp:462-463 | the second header read is the last granule of a payload, never a header |
| Growth.TwoMergesDecidedByPayload | hw04-custom-memory-allocator/malloc_3.cpp:446-464 | with two merges needed the probe is decided by what that granule holds |
| Growth.OneMergeNeverShort | hw04-custom-memory-allocator/malloc_3.cpp:446-478 | when the next order is enough or the buddy cannot be merged, the probe passes exactly when there is room, so it never misleads |
| Growth.CleanGranuleNeverShort | hw04-custom-memory-allocator/malloc_3.cpp:446-478 | when more is needed, however much, and one granule does not read as a free header of the old size, the probe fails and cannot mislead |
| Growth.ProbeReaches | hw04-custom-memory-allocator/malloc_3.cpp:446-472 | a probe that succeeds has reached exactly the order the request needs |
| Growth.GrownKeeps | hw04-custom-memory-allocator/malloc_3.cpp:469-474 | growing in place keeps a coalesced tiling whatever the probe saw |
| Growth.GrownMove | hw04-custom-memory-allocator/malloc_3.cpp:469-477 | header writes and memmove of in-place growth keep all other live blocks and move the old payload |
| Growth.GrownResult | hw04-custom-memory-allocator/malloc_3.cpp:468-478 | the grown block is large enough if and only if the region of the needed order really was free |
| Growth.Relocation | hw04-custom-memory-allocator/malloc_3.cpp:480-486 | what the copying path adds up to |
| Growth.ReallocMeans | hw04-custom-memory-allocator/malloc_3.cpp:473-486 | the promise granule by granule: the old bytes are the first of the new block, and every other live block keeps its place, size and bytes |
| Growth.FreedLive | hw04-custom-memory-allocator/malloc_3.cpp:382-409 | after a deallocation exactly the blocks live before are live, without the one freed |
| AllocatorTheorems.NullIffNoRoom | hw04-custom-memory-allocator/malloc_3.cpp:286-330 | a small request fails if and only if no aligned region of the required size is wholly free |
| AllocatorTheorems.FreeUndoesAllocation | hw04-custom-memory-allocator/malloc_3.cpp:382-409 | freeing the result of an allocation restores the block set |
| AllocatorTheorems.ListsDetermined | hw04-custom-memory-allocator/malloc_3.cpp:39-102 | the block set determines all free lists and list heads |
| AllocatorTheorems.AllocateThenFree | hw04-custom-memory-allocator/malloc_3.cpp:334-409 | smalloc followed by sfree, for a request served from the heap, restores the block set, every free list and its head, and the counters |
| AllocatorTheorems.FreeEverything | hw04-custom-memory-allocator/malloc_3.cpp:382-409 | sfree of every live heap pointer, in any order: the heap is the 32 top blocks again, listed by address, all other lists are empty, and the count of blocks is theirs |
| AllocatorRuns.ShortGrowth | hw04-custom-memory-allocator/malloc_3.cpp:446-478 | concrete headers on which the probe is misled |
| AllocatorRuns.ShortReallocation | hw04-custom-memory-allocator/malloc_3.cpp:412-487 | a run from the start of the program, two allocations, a write, a free and one more allocation, after which srealloc to 300 bytes returns a smaller block |
| AllocatorRuns.ForgottenMapping | hw04-custom-memory-allocator/malloc_3.cpp:123-156 | a run in which a mapping made while sbrk fails is missing from the statistics for good |
| AllocatorRuns.RefusedReallocation | hw04-custom-memory-allocator/malloc_3.cpp:412-487 | a run from the start of the program after which srealloc returns NULL although the region around the block is free and of the size asked for |
| AllocatorTheorems.ShortExactly | hw04-custom-memory-allocator/malloc_3.cpp:412-487 | in every valid allocator, a small request comes back too small if and only if the buddy can be merged, every later address holds the old size marked free, and the surrounding region is not free |
| AllocatorTheorems.MovesExactly | hw04-custom-memory-allocator/malloc_3.cpp:446-487 | in every valid allocator, a small request leaves its block if and only if the buddy cannot be merged or a later address does not hold the old size marked free; a free surrounding region makes no difference |
| AllocatorTheorems.EnoughUnlessStale | hw04-custom-memory-allocator/malloc_3.cpp:412-487 | in every valid allocator the result is large enough when one order up suffices, the buddy cannot be merged, or one granule does not look like a header |
| LogProtocol.LockKept | hw03-multithreaded-web-server/log.c:60-100 | every step keeps the counters equal to the real numbers of readers, waiting and active writers, exclusion, and no lost wake-up |
| LogProtocol.Exclusion | hw03-multithreaded-web-server/log.c:60-100 | an active writer excludes every other writer and every reader |
| LogProtocol.WriterPriority | hw03-multithreaded-web-server/log.c:60-68 | a reader gets in only when no writer is inside or waiting |
| LogProtocol.LogKept | hw03-multithreaded-web-server/log.c:104-199 | every step keeps the text, written by appends after whatever they found, equal to the completed entries in acquisition order, and torn only while someone appends |
| LogProtocol.WholeInside | hw03-multithreaded-web-server/log.c:104-199 | a thread that reads, or is about to append, finds the log whole and equal to the completed entries |
| LogProtocol.OverlapLoses | hw03-multithreaded-web-server/log.c:176-199 | with two writers and a reader inside at once, which the lock rules out, the same steps overwrite an entry, unless it is empty, and tear the copy |
| LogProtocol.StartInv | hw03-multithreaded-web-server/log.c:25-48 | a new log satisfies the invariant for any number of threads |
| LogProtocol.RunKeepsInv | hw03-multithreaded-web-server/log.c:60-199 | every reachable state satisfies the invariant, under every schedule and with spurious wake-ups |
| LogProtocol.SnapshotIsHistory | hw03-multithreaded-web-server/log.c:104-123 | a finished copy is whole: the concatenation of exactly the entries acquired so far, all of them complete |
| LogProtocol.SnapshotsNest | hw03-multithreaded-web-server/log.c:104-123 | an earlier snapshot is a prefix of every later one |
| LogProtocol.NeverStuck | hw03-multithreaded-web-server/log.c:60-100 | no reachable state has a thread in the protocol and nobody able to move |
| LogProtocol.EveryoneGetsThrough | hw03-multithreaded-web-server/log.c:60-100 | once arrivals and spurious wake-ups stop, every schedule ends within a bound, with every thread out again |
| ServerLog.Log.constructor | hw03-multithreaded-web-server/log.c:25-48 | the new object is the start state |
| ServerLog.Log.ReaderTest | hw03-multithreaded-web-server/log.c:60-68 | the fields follow the protocol step, and the caller sleeps exactly when that step says so |
| ServerLog.Log.ReaderUnlock | hw03-multithreaded-web-server/log.c:70-76 | the same; the writers are signalled exactly when the last reader leaves, and the step wakes whom that signal wakes |
| ServerLog.Log.WriterArrive | hw03-multithreaded-web-server/log.c:78-90 | the same for the first test of a writer |
| ServerLog.Log.WriterTest | hw03-multithreaded-web-server/log.c:81-90 | the same for a test after a wake-up |
| ServerLog.Log.WriterUnlock | hw03-multithreaded-web-server/log.c:92-100 | the same; a signal exactly if a writer waits, a broadcast to the readers otherwise |
| ServerLog.Log.CopyOut | hw03-multithreaded-web-server/log.c:112-120 | the copy is the whole text with its terminator |
| ServerLog.Log.Reserve | hw03-multithreaded-web-server/log.c:189-193 | the doubling loop ends with room for entry and terminator, less than twice what was needed, and the text is kept |
| ServerLog.Log.Append | hw03-multithreaded-web-server/log.c:189-196 | the text grows by exactly the entry; length stays below capacity and the terminator is in place |
| ServerLog.Log.AddEntry | hw03-multithreaded-web-server/log.c:176-199 | appending under the lock is the pair of append steps |
| ServerLog.Log.Snapshot | hw03-multithreaded-web-server/log.c:104-123 | copying under the lock is the pair of copy steps, and hands out exactly the completed entries |
| JobQueue.Job.constructor | hw03-multithreaded-web-server/queue.c:6-15 | a job that is in no list |
| JobQueue.Queue.constructor | hw03-multithreaded-web-server/queue.c:17-27 | an empty queue of the given size |
| JobQueue.Queue.Enqueue | hw03-multithreaded-web-server/queue.c:29-40 | the job becomes the last one; order, links, tail and count stay right |
| JobQueue.Queue.Dequeue | hw03-multithreaded-web-server/queue.c:43-58 | the oldest job leaves, cut loose; NULL exactly from an empty queue |
| JobQueue.Queue.IsEmpty | hw03-multithreaded-web-server/queue.c:60-62 | true exactly when no job is queued |
| PoolProtocol.RoomKept | hw03-multithreaded-web-server/server.c:55-141 | every step keeps queued plus active, with the slot the acceptor reserved, within the limit, and sleepers justified |
| PoolProtocol.OrderKept | hw03-multithreaded-web-server/server.c:55-141 | every step keeps accepted equal to dispatched, queued and held in this order, and dispatched equal to active plus finished |
| PoolProtocol.RunKeepsInv | hw03-multithreaded-web-server/server.c:55-141 | both hold in every run of the server from its start, with spurious wake-ups |
| PoolProtocol.ServedInOrder | hw03-multithreaded-web-server/server.c:55-141 | jobs are dispatched once each in acceptance order, none is lost, and queued plus active never exceeds the limit |
| PoolProtocol.CountsJobs | hw03-multithreaded-web-server/server.c:60-78 | the counter of active jobs is the number of jobs being handled |
| PoolProtocol.NeverStuck | hw03-multithreaded-web-server/server.c:56-79 | a queued or active job, or a waiting acceptor, means some worker can move |
| PoolProtocol.EveryJobFinishes | hw03-multithreaded-web-server/server.c:55-141 | once connections and spurious wake-ups stop, every schedule ends within a bound with every accepted job finished and the acceptor ready |
| Server.Pool.constructor | hw03-multithreaded-web-server/server.c:103-106 | the new object is the start state |
| Server.Pool.WorkerTest | hw03-multithreaded-web-server/server.c:55-65 | the fields follow the protocol step: sleep on an empty queue, or take the oldest job and signal the acceptor, which wakes by that signal alone |
| Server.Pool.WorkerDone | hw03-multithreaded-web-server/server.c:76-79 | the same for the end of a job, with its signal to the acceptor |
| Server.Pool.AcceptorTest | hw03-multithreaded-web-server/server.c:121-128 | the same for the admission test |
| Server.Pool.Enqueue | hw03-multithreaded-web-server/server.c:135-140 | the same for adding the job accepted in between, with the signal that wakes a sleeping worker |
| PipeRing.MaskWraps | hw02-linux-syscall-ban/fs/pipe.c:332-333 | masking an index with a power of two less one wraps it around the ring |
| PipeRing.AdvancedKeeps | hw02-linux-syscall-ban/fs/pipe.c:314-322 | reading part of the oldest slot takes exactly those bytes off the front of the stream |
| PipeRing.ReleasedKeeps | hw02-linux-syscall-ban/fs/pipe.c:141-155 | releasing the oldest slot keeps pages apart and owned once, and takes the slot's bytes off the stream |
| PipeRing.MergedOk | hw02-linux-syscall-ban/fs/pipe.c:408-431 | a merge keeps the ring well formed |
| PipeRing.MergedStream | hw02-linux-syscall-ban/fs/pipe.c:408-431 | a merge appends exactly the data to the stream |
| PipeRing.FilledOk | hw02-linux-syscall-ban/fs/pipe.c:463-482 | the spare page becomes a slot; no live slot shares a page with another or with the spare |
| PipeRing.FilledStream | hw02-linux-syscall-ban/fs/pipe.c:463-482 | and its data is appended to the stream |
| PipeRing.AllocatedKeeps | hw02-linux-syscall-ban/fs/pipe.c:449-456 | a fresh page becomes the spare one and leaves the stream alone |
| Pipes.Pipe.Masked | hw02-linux-syscall-ban/fs/pipe.c:411-445 | the source's mask computes the wrapped index |
| Pipes.Pipe.FirstInFirstOut | hw02-linux-syscall-ban/fs/pipe.c:279-521 | between any two stretches, the bytes read are a prefix of the bytes accepted and the rest is what the ring holds |
| Pipes.Pipe.Release | hw02-linux-syscall-ban/fs/pipe.c:331-336 | the ring without its oldest slot, in array, index and spare page |
| Pipes.Pipe.Drain | hw02-linux-syscall-ban/fs/pipe.c:295-342 | the read loop returns the longest prefix of the stream up to the size asked for; writers are woken exactly when a slot was freed |
| Pipes.Pipe.ReadStretch | hw02-linux-syscall-ban/fs/pipe.c:280-375 | one stretch of a read: its bytes, exactly when it sleeps, what it returns otherwise, and that writers are woken exactly when this stretch or an earlier one of the call freed a slot |
| Pipes.Pipe.GetPage | hw02-linux-syscall-ban/fs/pipe.c:446-456 | the spare page is used first; failure exactly without spare page and supply |
| Pipes.Pipe.MergeSmall | hw02-linux-syscall-ban/fs/pipe.c:408-431 | the odd bytes of a write go into the newest slot exactly when it is mergeable and they fit, and lengthen that slot by them; otherwise no slot changes |
| Pipes.Pipe.FillPages | hw02-linux-syscall-ban/fs/pipe.c:433-487 | the number of bytes taken is exactly what free slots and available pages allow; old slots stay, and new ones are mergeable |
| Pipes.Pipe.WriteLoop | hw02-linux-syscall-ban/fs/pipe.c:433-507 | one pass of the write loop: bytes accepted, exactly when it sleeps, and what it returns otherwise |
| Pipes.Pipe.WriteStart | hw02-linux-syscall-ban/fs/pipe.c:387-507 | the first stretch of a write; less than a page goes whole into a mergeable slot with room, even if no slot is free; at most a page is accepted whole and contiguously or not at all |
| Pipes.Pipe.WriteResume | hw02-linux-syscall-ban/fs/pipe.c:433-507 | the same for a writer back from its wait |
| Pipes.Pipe.RoomIs | hw02-linux-syscall-ban/fs/pipe.c:433-487 | the bytes the write loop takes, case by case: all, what the free slots hold, or what the pages hold |
| Pipes.Pipe.TakenIs | hw02-linux-syscall-ban/fs/pipe.c:400-487 | the bytes a first stretch takes, in terms of the newest slot, the free slots and the pages |
| Pipes.Pipe.TurnIs | hw02-linux-syscall-ban/fs/pipe.c:433-507 | every way a stretch of a write ends, with its return value |
| Pipes.Pipe.SmallIsWhole | hw02-linux-syscall-ban/fs/pipe.c:408-431 | a write of at most a page is taken whole or not at all, whichever path it takes |
| Pipes.Pipe.Fionread | hw02-linux-syscall-ban/fs/pipe.c:529-540 | the count reported is the number of unread bytes |
| Pipes.Pipe.Resize | hw02-linux-syscall-ban/fs/pipe.c:1125-1156 | the new array holds the same slots in the same order, from any position of the old ring |
| Pipes.Pipe.CopyWindow | hw02-linux-syscall-ban/fs/pipe.c:1136-1151 | the two copies of a wrapped ring put every slot in its place |
| Pipes.Pipe.FreeAll | hw02-linux-syscall-ban/fs/pipe.c:705-712 | every page the pipe owns is freed, each once |
| PipeSizes.RoundupIsLeast | hw02-linux-syscall-ban/fs/pipe.c:1071 | the rounding gives the least power of two that is at least the argument |
| PipeSizes.RoundedSize | hw02-linux-syscall-ban/fs/pipe.c:1060-1072 | a page for less than a page, else the least power of two of pages that holds the size, zero exactly above 2^31; bits beyond 32 are cut off |
| PipeSizes.User.Account | hw02-linux-syscall-ban/fs/pipe.c:634-638 | the counter stays the sum of all charges and amounts in flight |
| PipeSizes.User.SetSize | hw02-linux-syscall-ban/fs/pipe.c:1078-1162 | success keeps slots and unread bytes, moves the charge to the new size, and keeps an unprivileged user within both limits; each error occurs exactly on its condition and changes nothing |
| PipeSizes.User.AllocPipe | hw02-linux-syscall-ban/fs/pipe.c:655-697 | the size granted, exactly when creation fails, that an unprivileged user stays within the hard limit, and that the user is charged for live pipes only |
| PipeSizes.User.FreePipe | hw02-linux-syscall-ban/fs/pipe.c:699-714 | the charge is returned and all pages are freed |
| Signals.NextSignal | hw02-linux-syscall-ban/kernel/signal.c:188-232 | the lowest pending unmasked signal, a synchronous one first; 0 exactly when there is none |
| Signals.WithoutOk | hw02-linux-syscall-ban/kernel/signal.c:746-752 | flushing keeps the other records in order and each with its bit |
| Signals.WithoutConcat | hw02-linux-syscall-ban/kernel/signal.c:746-752 | flushing works record by record, so it keeps the order |
| Signals.WithoutOfSignal | hw02-linux-syscall-ban/kernel/signal.c:746-752 | a flush leaves all records of a signal in their order, or none |
| Signals.OthersStay | hw02-linux-syscall-ban/kernel/signal.c:530-572 | a delivery takes the first record of its signal, and leaves bits and records of all others as they were |
| Signals.QueuedAtMostOnce | hw02-linux-syscall-ban/kernel/signal.c:1024-1073 | an ordinary signal sent any number of times is queued at most once in each pending set |
| Signals.SigPending.FlushMask | hw02-linux-syscall-ban/kernel/signal.c:737-754 | bits and records of the mask are gone, others stay; true exactly when a bit was set |
| Signals.SigPending.Collect | hw02-linux-syscall-ban/kernel/signal.c:530-572 | the oldest record of the signal is taken and nothing else; the bit goes exactly when no other record of it is left |
| Signals.SigPending.Scan | hw02-linux-syscall-ban/kernel/signal.c:539-549 | the walk finds the oldest record of the signal and whether there is another one |
| Signals.SigPending.Dequeue | hw02-linux-syscall-ban/kernel/signal.c:574-582 | the next signal is collected; every other bit and every other record stays; each success makes the set smaller |
| Signals.SigPending.DequeueSynchronous | hw02-linux-syscall-ban/kernel/signal.c:689-729 | a record is found exactly when a synchronous signal is pending unblocked and some record is synchronous; the first such record goes, and looking only behind it is enough to keep bits and records in step |
| Signals.AddedAfterClearing | hw02-linux-syscall-ban/kernel/signal.c:862-896 | after its opposite has been wiped out everywhere, any signal can be added without a clash |
| Signals.Group.FlushAll | hw02-linux-syscall-ban/kernel/signal.c:874-896 | the mask is flushed from the shared set and from every thread |
| Signals.Group.PrepareSignal | hw02-linux-syscall-ban/kernel/signal.c:862-925 | a stop signal wipes out SIGCONT and SIGCONT the stop signals, unless the group is exiting or dumping core |
| Signals.Group.CompleteSignal | hw02-linux-syscall-ban/kernel/signal.c:985-1013 | a fatal signal starts the group exit and sets the SIGKILL bit of every thread, without a record |
| Signals.Group.SendSignal | hw02-linux-syscall-ban/kernel/signal.c:1050-1151 | the whole new state of every set in every case; in a group not exiting nothing ever clashes |
| Signals.Group.SendSigqueue | hw02-linux-syscall-ban/kernel/signal.c:1606-1648 | a timer's record is queued at most once, and the same invariants hold |
| Signals.SendBesideOthers | hw02-linux-syscall-ban/kernel/signal.c:862-1151 | sending leaves bits and records of all other signals as they were, but for what a stop signal and SIGCONT overrule and for the SIGKILL bits of a killed group |
| Signals.SendItself | hw02-linux-syscall-ban/kernel/signal.c:1050-1151 | when sending is refused, that the signal is pending afterwards if let through, the record it leaves, and exactly when the group is killed |
| Signals.SendTimer | hw02-linux-syscall-ban/kernel/signal.c:1606-1648 | a timer's record that is nowhere queued goes to the end of its list when it is let through |
| Signals.Group.DequeueSignal | hw02-linux-syscall-ban/kernel/signal.c:590-600 | the thread's own set first, then the shared one; one delivery from that set, the other sets unchanged; invariants kept |
| Signals.Group.DequeueSynchronousSignal | hw02-linux-syscall-ban/kernel/signal.c:689-729 | exactly when a signal is found, and that its first record goes; invariants kept |
| Signals.StopThenContinueWhileExiting | hw02-linux-syscall-ban/kernel/signal.c:868-874 | in every exiting group a stop signal and SIGCONT sent in turn are pending together |
| Signals.ExitingGroupClashes | hw02-linux-syscall-ban/kernel/signal.c:868-874 | such a group is reached from a new one |
| Rio.Reader.constructor | hw03-multithreaded-web-server/segel.c:363-368 | nothing is buffered |
| Rio.Reader.Refill | hw03-multithreaded-web-server/segel.c:335-346 | interruptions are retried; nothing is lost; the stream is at its end exactly on 0 |
| Rio.Reader.TakeBuffered | hw03-multithreaded-web-server/segel.c:348-356 | the bytes handed over are the next ones, as many as asked for or all that are buffered |
| Rio.Reader.RioRead | hw03-multithreaded-web-server/segel.c:331-356 | some of the next bytes in order, none only at the end or on failure |
| Rio.Reader.ReadN | hw03-multithreaded-web-server/segel.c:375-394 | exactly n bytes or all that are left, whatever the chunks; on failure no byte is lost or repeated |
| Rio.Reader.ReadLine | hw03-multithreaded-web-server/segel.c:401-421 | at most maxlen - 1 bytes, fewer only at a newline or the end of the stream; no newline before the last byte; the count in each case, and the terminator; a limit of 0 or 1 reads nothing and counts one |
| Rio.LineLength | hw03-multithreaded-web-server/segel.c:406-417 | no newline before the last byte, and a line short of limit and end ends in one |
| Rio.LineDone | hw03-multithreaded-web-server/segel.c:406-420 | the count is the length after a newline, one more when cut short, 0 at the end of the stream |
| Rio.AnswersAreSlices | hw03-multithreaded-web-server/segel.c:375-421 | the answers of any series of calls are consecutive slices of the stream |
| Rio.PerformAll | hw03-multithreaded-web-server/segel.c:331-421 | any series of calls gets the answers fixed by the stream alone, under every chunking and interruption |
| BanBranch.VisitedChain | hw02-linux-syscall-ban/kernel/hw2.c:90-104 | the nearest ancestors form a chain without repetition that is short only because it ends at a root |
| BanBranch.FlipUp | hw02-linux-syscall-ban/kernel/hw2.c:88-106 | the loop toggles the bit on exactly that chain and counts the bits it set |
| BanBranch.FlipBanBranch | hw02-linux-syscall-ban/kernel/hw2.c:73-107 | the errors exactly on their conditions; otherwise exactly the nearest ancestors within the height change, in that one bit |
| BanBranch.FlipLetter | hw02-linux-syscall-ban/kernel/hw2.c:73-107 | by the letter: 'g', 'p' and 'k' turn the getpid, pipe or kill ban of exactly the visited tasks into its opposite and change no other ban of any task |
| BanBranch.FreeToggled | hw02-linux-syscall-ban/kernel/hw2.c:91-96 | before and after a toggle the free tasks add up to all visited |
| BanBranch.FlipTwice | hw02-linux-syscall-ban/kernel/hw2.c:73-107 | a second identical call restores every task and the counts add up to the ancestors visited, for every caller but a root; a root is refused |
| BanBranch.SetBan | hw02-linux-syscall-ban/kernel/hw2.c:18-35 | the three bans are replaced as a whole, and the call that asks for each letter sees it; or an error and no change |
| BanBranch.GetBan | hw02-linux-syscall-ban/kernel/hw2.c:37-51 | 'g', 'p' and 'k' ask for the lowest three bits in this order, and any other letter is an error |
| BanBranch.CheckBan | hw02-linux-syscall-ban/kernel/hw2.c:52-71 | what the other task would see of itself, with the error cases in the source's order |

## Left out

- Widths of `size_t` and `uintptr_t` in the allocator: addresses and counters are unbounded.
- Payload bytes inside one granule: the memmove of `srealloc` is modelled on whole 32-byte granules, as all payloads are.
- `scalloc`: smalloc and a memset; its product wraps around, which is not modelled.
- `sfree` on pointers that are not live: it reads stale headers.
- `stages/malloc_1.cpp` and `stages/malloc_2.cpp`: earlier, simpler stages.
- Log entries: their text is an arbitrary byte string; timestamps, debug sleeps and overflow of the `int` length and capacity are not modelled.
- The acceptor's `accept` and the request handler: one step each with any outcome; thread creation and the unreachable cleanup are not modelled.
- Pipes: poll, fasync, opening, packet mode, splice and tee (so every page has one user), and failed copies to or from user space. Wake-ups are a result of each stretch; the waiters themselves are not modelled.
- `linux/pipe_fs_i.h` is not part of this model: 16 default buffers, and that releasing a slot clears its operations, are taken from how `pipe.c` uses them.
- Signals: ptrace, group stop bookkeeping, job control flags, wake-ups, copying of details and the exit path that clears a SIGKILL bit. Whether a signal is ignored or fatal, and whether allocation succeeds, are inputs.
- AddedAfterClearing: it says nothing of groups that are exiting or dumping core, where the source does not flush; `Group.SafeToAdd` covers the dumping ones.
- SendSignal: a description passed with a signal must name that signal, and a timer's record must carry the timer code, as the callers ensure; signal 0 is never sent.
- The bitmap of a pending set is a set of numbers, so the word-by-word scan of `next_signal` is not modelled.
- Rio: a descriptor whose `read` gives 0 has ended; counts are not truncated to `int`.
- ReadLine: the caller's buffer holds at least one byte, because the source writes a terminator even when `maxlen` is 0.
- `sys_check_ban`: the lookup of a task by identifier is an input.
- The shell, the HTTP code, the wrappers in `segel.c` and the other kernel files: thin calls to code that is not shown.
