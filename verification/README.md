# A model of the RT-Thread kernel core, with proofs

This project models the core of the RT-Thread kernel as the repository configures it (two CPUs, 32
priorities, 8-byte alignment, 64-bit addresses) and proves what its parts promise.

- **Memory.** `BlockLayout` is the layout `mem.c` and `memheap.c` share: blocks that tile a range, no two
  neighbouring ones free. `SmallMem*` is the first-fit heap with its headers and cursor, `MemHeap*` the heap
  with an address ring and a free list and its histories; their `*Laws` say what one call makes of the blocks
  in use. `Payloads` and `MemCopy` are the bytes. `SlabPages`, `SlabZones`, `SlabRuns` and `Slab` are the page
  list, the size classes, the zones with their page map, and `rt_malloc` and `rt_free` on them; `SlabLaws` says
  where the pages are, `SlabAlignment` what becomes of the alignment promised.
- **Scheduling.** `SchedulerRuns` is the state of ready queues and threads and every step on it, `SchedulerLaws`
  what each step changes and how time slices go round; `Scheduler` keeps that state with bit groups searched by
  `__rt_ffs` (`Bits`). `LockNest` counts locks and critical sections. `TimerQueue`, `TimerRuns` and `SkipTimers`
  are the timer list, the effect of `rt_timer_check` with callbacks that start and stop timers, and the
  multi-level list on wrapping ticks; `TimerTimes` says in which ticks a timer fires. `Clock` converts delays.
- **IPC.** `SuspendLists` is what all IPC objects share: waiters, their timers and errors. `Semaphores`,
  `Mutexes`, `Events`, `MessageQueueRuns`, `MessageQueueWaits` and `MessageQueues` are the objects; each locked
  region is one atomic step, and steps of threads and interrupts interleave freely.
- **Underneath and on top.** `Integers` are the C conversions the heaps use, `Division` facts on remainders,
  `Lists` is the circular list of `rtservice.h`, `OrderedQueue` stable sorted insertion, `DmaChannels` the
  channel allocator on a semaphore and a mutex.

Most parts come twice: a state with functions for its steps, about which the lemmas are, and a class with the
fields of the C structure, whose methods follow the C code and are proved to refine those steps. Ghost
parameters and fields carry what the C code does not store: the layout behind the headers, absolute deadlines,
the queue behind the pointers. Headers of the heaps are keyed by address; building a header forgets every
header it overlaps, so no stale one is ever read.

Time, interrupts and the order of steps are parameters: a run is any sequence of events that can happen.
Allocation sizes are bounded as the code bounds them, so that `RT_ALIGN` does not wrap.

Where code and comments disagree the code is followed: the strict bound of the search in `mem.c`, the rounding
in `rt_memheap_realloc` of a null pointer (twice), the alignment promise of `slab.c` (kept up to the page size
only), its `rt_malloc` of zero bytes (a null pointer), the length `rt_memcpy` keeps in an int, the size
`rt_memheap_realloc` does, the flag a timer callback can leave behind. A mutex keeps its waiters by priority whatever flag it is made with.

## Model

| member | source | states |
|---|---|---|
| `SmallMemLayout.SearchIsLowestFit` | rt-thread/src/mem.c:288-310 | the search of a malloc returns the lowest block that fits, and comes back empty exactly when every fitting block is an exact fit ending at the end of the heap (the strict loop bound) |
| `SmallMemLayout.SearchFromLowestFree` | rt-thread/src/mem.c:304-310 | starting at the lowest-free cursor finds what starting at the bottom of the heap would |
| `SmallMemLayout.WholeHeapIsRefused` | rt-thread/src/mem.c:304-310 | (a remark) a request for the whole payload of a fresh heap is refused although its one block holds exactly that much |
| `SmallMemLayout.HistoriesAgree` | rt-thread/src/mem.c:271-616 | two histories of malloc, free and realloc that leave the same blocks in use leave the same heap: no fragmentation outlives the blocks that caused it |
| `SmallMemLayout.AllReleasedIsInitial` | rt-thread/src/mem.c:203-256 | a history that releases everything ends in the freshly initialised heap |
| `SmallMemLaws.RequestIsLeast` | rt-thread/src/mem.c:287-300 | (a remark) a request is rounded to the least multiple of eight that is at least 24 |
| `SmallMemLaws.MallocTakes` | rt-thread/src/mem.c:271-409 | a malloc adds to the blocks in use exactly the rounded request at the front of the lowest block it may take, or that whole block if less than a header and a smallest block would be left; it fails exactly for zero, for more than the heap, or where no such block is |
| `SmallMemLaws.FreeRemoves` | rt-thread/src/mem.c:553-616 | a free removes from the blocks in use exactly the one it names |
| `SmallMemLaws.ReallocReplaces` | rt-thread/src/mem.c:421-516 | a realloc shortens the block where it is exactly if more than a header and a smallest block come free, keeps one of equal size, and else moves it to where the malloc of that size goes, or fails with it and changes nothing |
| `BlockLayout.LiveDeterminesLayout` | rt-thread/src/mem.c:156-194 | tiled, coalesced layouts with the same blocks in use are equal |
| `BlockLayout.TakeFacts` | rt-thread/src/mem.c:304-376 | taking a block, split exactly if a smallest block is left of it, keeps the tiling and the absence of neighbouring free blocks and adds exactly its span to the bytes in use |
| `BlockLayout.TakeLive` | rt-thread/src/mem.c:304-376 | taking a block adds exactly one extent, of at least the size asked for, to those in use |
| `BlockLayout.FreeFacts` | rt-thread/src/mem.c:553-616 | freeing a block and plugging holes on both sides keeps the tiling and full coalescing and gives back exactly its span |
| `BlockLayout.FreeLive` | rt-thread/src/mem.c:553-616 | freeing removes exactly that block's extent from those in use |
| `BlockLayout.ShrinkFacts` | rt-thread/src/mem.c:471-504 | cutting off the tail of a block and plugging keeps tiling and coalescing, with exact accounting |
| `BlockLayout.ShrinkLive` | rt-thread/src/mem.c:471-504 | cutting off the tail shortens exactly that block among those in use |
| `BlockLayout.FreeUndoesTake` | rt-thread/src/mem.c:156-194 | freeing a block just taken restores the layout exactly |
| `BlockLayout.PlugFacts` | rt-thread/src/mem.c:156-194 | merging a freed block with free neighbours on either side leaves no two free neighbours |
| `SmallMem.SmallHeap.constructor` | rt-thread/src/mem.c:203-256 | one free block from the bottom to the end header, cursor on it, nothing used |
| `SmallMem.SmallHeap.PlugHoles` | rt-thread/src/mem.c:156-194 | the header rewriting refines the merge on both sides; the cursor stays on the lowest free block |
| `SmallMem.SmallHeap.FirstFit` | rt-thread/src/mem.c:304-310 | the search loop over headers, from the cursor, finds the lowest fit |
| `SmallMem.SmallHeap.AdvanceCursor` | rt-thread/src/mem.c:379-386 | the cursor moves to the lowest free block or the end header, and the loop ends |
| `SmallMem.SmallHeap.Malloc` | rt-thread/src/mem.c:271-409 | is the malloc step of a history; returns the lowest fitting block for the aligned, clamped request or nothing and no change; tiling, links, cursor, used and maximum bytes stay exact; no other payload byte changes |
| `SmallMem.SmallHeap.Free` | rt-thread/src/mem.c:553-616 | is the free step of a history: the block becomes free and merges, a pointer behind the heap is ignored; no payload byte changes; counters stay exact |
| `SmallMem.SmallHeap.Realloc` | rt-thread/src/mem.c:421-516 | is the realloc step of a history: keeps, shrinks in place or moves a block; the first min(old, new) bytes survive, modulo 4 GiB when they are copied, other payloads are untouched, and on failure the old block and its bytes survive |
| `SmallMem.SmallHeap.MoveBlock` | rt-thread/src/mem.c:507-515 | allocate, copy, release: as many bytes as rt_memcpy carries are preserved, failure changes nothing |
| `Payloads.CopyPayload` | rt-thread/src/mem.c:508-513 | copying a payload into a disjoint block leaves every other payload alone |
| `MemCopy.Memcpy` | rt-thread/src/kservice.c:216-286 | the word-wise, block-wise and byte-wise copying loops together copy exactly count bytes, modulo 4 GiB for the length is an int, between ranges that do not overlap and change nothing else |
| `Alignment.AlignUp` | rt-thread/src/mem.c:287-288 | the least multiple of eight not below the size |
| `MemHeapLayout.SearchIsComplete` | rt-thread/src/memheap.c:246-268 | the free-list search comes back empty exactly when no free block at all is large enough |
| `MemHeapLayout.GrowFacts` | rt-thread/src/memheap.c:424-516 | growing into the free neighbour keeps the layout coalesced and takes exactly the grown bytes from the free ones |
| `MemHeapLayout.AbsorbThenCut` | rt-thread/src/memheap.c:474-501 | merging the whole neighbour and cutting the remainder off again is growing by the difference |
| `MemHeapLists.UnlinkFacts` | rt-thread/src/memheap.c:305-309 | unlinking an item leaves the free list linked and lacking just that item |
| `MemHeapLists.PushFacts` | rt-thread/src/memheap.c:708-714 | pushing an item leaves the free list linked with that item in front |
| `MemHeapLists.InsertRing` | rt-thread/src/memheap.c:299-303 | linking the split-off item into the address ring keeps the ring |
| `MemHeapLists.BypassRing` | rt-thread/src/memheap.c:677-701 | taking a merged item out of the address ring keeps the ring |
| `BlockLayout.CutFreeAddrs` | rt-thread/src/memheap.c:273-315 | a split adds exactly the remainder to the free blocks |
| `BlockLayout.JoinFreeAddrs` | rt-thread/src/memheap.c:687-706 | a merge removes exactly the merged block from the free blocks |
| `MemHeap.MemHeap.constructor` | rt-thread/src/memheap.c:116-191 | one free item between the list head and the tail; sizes account for both headers; the pool fits the 32 bits of pool_size |
| `MemHeap.MemHeap.FindFit` | rt-thread/src/memheap.c:246-268 | the search loop returns the first listed block that is large enough |
| `MemHeap.MemHeap.Alloc` | rt-thread/src/memheap.c:224-345 | is the alloc step of a history: first fit on the free list with the strict guard against the available size; ring and list still agree, no two free neighbours, available size and high-water mark exact, no payload byte changes |
| `MemHeap.MemHeap.Free` | rt-thread/src/memheap.c:619-719 | is the free step of a history: merges with free neighbours and lists the result; available size exact, payloads untouched |
| `MemHeap.MemHeap.MarkAndMerge` | rt-thread/src/memheap.c:663-706 | merging left before right decides correctly whether the block is listed anew |
| `MemHeap.MemHeap.GrowItem` | rt-thread/src/memheap.c:424-516 | in-place growth: the rebuilt header may overwrite the old one, yet ring, list and sizes stay exact and no payload byte changes |
| `MemHeap.MemHeap.ShrinkItem` | rt-thread/src/memheap.c:546-604 | the cut-off tail merges with a free neighbour and is listed |
| `MemHeap.MemHeap.Realloc` | rt-thread/src/memheap.c:393-612 | is the realloc step of a history where the test for growth in place can be trusted: grows in place, moves, keeps or shrinks; contents preserved up to the smaller size, other payloads untouched, failure changes nothing, the high-water mark exact |
| `MemHeapLayout.GrowthExact` | rt-thread/src/memheap.c:441-460 | the test for growth in place, with the free neighbour's size in a 32-bit int, agrees with whether there is room exactly if that size is below 2 GiB, or suffices, or the request is too large even for a size taken as negative (and where the sums wrap, if what is left of the request is no less than the room) |
| `MemHeapRuns.GrowthMisjudged` | rt-thread/src/memheap.c:441-460 | in a pool of 3 GiB the test lets a block of 16 bytes grow past the end of the pool |
| `MemHeapRuns.HighWater` | rt-thread/src/memheap.c:224-719 | after any history the mark is the most bytes ever taken, the low point in the middle of a move included |
| `MemHeapRuns.HistoriesAgree` | rt-thread/src/memheap.c:224-719 | histories that leave the same blocks in use leave the same layout and the same blocks on the free list |
| `MemHeapRuns.AllReleasedIsInitial` | rt-thread/src/memheap.c:116-191 | a history that releases everything ends in the freshly initialised pool, free list included |
| `MemHeapLaws.AllocSizeIsLeast` | rt-thread/src/memheap.c:233-236 | (a remark) requests are rounded to the least multiple of eight, those of up to eight bytes to twelve |
| `MemHeapLaws.AllocTakes` | rt-thread/src/memheap.c:224-345 | an alloc adds to the blocks in use exactly the rounded request at the front of the first listed block that holds it, or that whole block if less than an item and a smallest block would be left; it fails exactly if no free block holds it or not more than it is available |
| `MemHeapLaws.FreeRemoves` | rt-thread/src/memheap.c:619-719 | a free removes from the blocks in use exactly the one it names |
| `MemHeapLaws.LastFreedFirst` | rt-thread/src/memheap.c:708-714 | a block freed behind one in use is what the next alloc that it can serve gets |
| `MemHeapLaws.ReallocReplaces` | rt-thread/src/memheap.c:393-612 | a realloc grows the block where it is if the free block behind has the room, shortens it there if more than an item and a smallest block come free, keeps it if less would, and else moves it to where the alloc of that size goes, or fails with it and changes nothing |
| `SlabPages.PagesDetermineRuns` | rt-thread/src/slab.c:284-334 | a sorted, coalesced list of page runs is determined by the set of free pages |
| `SlabPages.TakenFacts` | rt-thread/src/slab.c:241-275 | allocation takes exactly n consecutive free pages and keeps the list sorted, disjoint and coalesced |
| `SlabPages.FitsExactly` | rt-thread/src/slab.c:253-270 | allocation succeeds whenever n consecutive pages are free |
| `SlabPages.FreedFacts` | rt-thread/src/slab.c:284-334 | release adds exactly the pages given and coalesces on both sides |
| `SlabPages.FreeUndoesAlloc` | rt-thread/src/slab.c:241-334 | releasing pages just allocated restores the list run for run |
| `SlabPages.PageAllocator.Alloc` | rt-thread/src/slab.c:241-275 | the loop takes the first long enough run, splitting it or removing it |
| `SlabPages.PageAllocator.Free` | rt-thread/src/slab.c:284-334 | the loop merges with the run before, the run behind or both, or links a new run in order |
| `SlabZones.ZoneIndex` | rt-thread/src/slab.c:412-470 | the branches compute the class index, which is in range as rt_malloc asserts, and the chunk size |
| `SlabZones.ChunkFits` | rt-thread/src/slab.c:412-470 | a chunk is large enough and wastes less than eight bytes or an eighth of the request |
| `SlabZones.SameClassSameSize` | rt-thread/src/slab.c:412-470 | two requests share a zone index exactly if they share a chunk size |
| `SlabZones.NewZoneOk` | rt-thread/src/slab.c:639-659 | a new zone has at least two chunks, all behind its header and inside its pages, with consistent counts |
| `SlabZones.TakeOk` | rt-thread/src/slab.c:552-579 | a zone whose count is not zero has a chunk that is not handed out, and hands out exactly that one |
| `SlabZones.PutOk` | rt-thread/src/slab.c:844-856 | a chunk given back is exactly no longer handed out; the count stays that of the free slots |
| `SlabZones.AllFree` | rt-thread/src/slab.c:868-869 | a zone whose count is its maximum has nothing handed out |
| `SlabZones.ChunksApart` | rt-thread/src/slab.c:567-579 | chunks of a zone do not overlap |
| `SlabZones.SlotOfChunk` | rt-thread/src/slab.c:567-579 | different slots have different addresses |
| `SlabAlignment.PowerAligned` | rt-thread/src/slab.c:642-655 | chunks of a power-of-two size lie off it by as much as their zone |
| `SlabAlignment.MallocAligned` | rt-thread/src/slab.c:151-156 | after any history a request of a power of two is answered with a multiple of it exactly if it is at most a page or the page its zone or block starts at is such a multiple |
| `SlabAlignment.NotAlignedAbovePage` | rt-thread/src/slab.c:151-156 | in a freshly initialised heap of 16385 pages the first request of 8192 bytes is not answered with a multiple of 8192 |
| `SlabRuns.MallocHandsOut` | rt-thread/src/slab.c:489-676 | a successful malloc hands out exactly one new thing and moves nothing else: a chunk of the size's class, or whole pages with less than one to spare |
| `SlabRuns.MallocRefuses` | rt-thread/src/slab.c:489-676 | it fails exactly when no zone has room, none is parked and too few consecutive pages are free; then nothing changes |
| `SlabRuns.FreeTakesBack` | rt-thread/src/slab.c:785-915 | a free takes back exactly one chunk or block, also when its zone is parked or its pages released |
| `SlabRuns.NoOverlap` | rt-thread/src/slab.c:489-915 | no byte belongs to two things handed out |
| `SlabRuns.MapLeadsBack` | rt-thread/src/slab.c:803-842 | the page map leads from every address handed out to its zone and slot, or its pages |
| `SlabRuns.FromRoomValid` | rt-thread/src/slab.c:545-588 | taking from a listed zone keeps: counts, listed exactly if room, page map, disjoint blocks |
| `SlabRuns.OpenZoneValid` | rt-thread/src/slab.c:598-663 | opening a zone keeps the same |
| `SlabRuns.ChunkBackValid` | rt-thread/src/slab.c:839-860 | giving a chunk back keeps the same; a full zone is listed again |
| `SlabRuns.PutAsideValid` | rt-thread/src/slab.c:868-888 | parking a zone keeps the same |
| `SlabRuns.ReleasedValid` | rt-thread/src/slab.c:890-914 | releasing the third parked zone keeps the same |
| `SlabRuns.HistoriesKeepApart` | rt-thread/src/slab.c:489-915 | after any history distinct things handed out share no byte and each is found again from its address |
| `SlabLaws.NoPageLost` | rt-thread/src/slab.c:489-915 | after any history every page behind the page map is free or in exactly one block, and never both |
| `SlabLaws.PagesLast` | rt-thread/src/slab.c:489-676 | fresh pages are taken exactly for a large request, or if no zone of the class has room and none is put aside |
| `SlabLaws.EmptiedZone` | rt-thread/src/slab.c:868-914 | a zone whose last chunk is freed keeps serving its class if no other zone of it has room; else it is put aside, or, with two put aside already, its pages are free again; any other free leaves pages and zones put aside alone |
| `SlabLaws.FewPutAside` | rt-thread/src/slab.c:890-900 | after any history no more than two zones are put aside |
| `Slab.ZoneSize` | rt-thread/src/slab.c:385-392 | the zone size is doubled from 32 KiB, at most to 128 KiB, while twice the zone is below a 1024th of the heap; the request limit follows |
| `Slab.SlabHeap.constructor` | rt-thread/src/slab.c:355-405 | a heap of npages pages starts as the initial state for them: zone size and limit by its size, the page map taken from its first pages, the others free |
| `Slab.SlabHeap.Malloc` | rt-thread/src/slab.c:489-676 | refines the state function: from a listed zone, a parked one, fresh pages, or pages for a large request |
| `Slab.SlabHeap.Free` | rt-thread/src/slab.c:785-915 | refines the state function, finding zone and slot through the page map |
| `Slab.SlabHeap.RemoveZone` | rt-thread/src/slab.c:876-879 | the walk through the list removes exactly the zone, and ends |
| `OrderedQueue.InsertedAt` | rt-thread/src/timer.c:416-433 | stable insertion: behind everything not ranked above |
| `OrderedQueue.InsertedSorted` | rt-thread/src/timer.c:416-433 | insertion keeps a queue sorted |
| `OrderedQueue.RemovedSorted` | rt-thread/src/timer.c:165-173 | removal keeps a queue sorted |
| `TimerQueue.LevelsNest` | rt-thread/src/timer.c:409-461 | each level of the timer list is a subsequence of the next |
| `TimerQueue.LevelInserted` | rt-thread/src/timer.c:409-461 | a stable insertion into the bottom list shows on every level the timer reaches as a stable insertion into that level, and on no other |
| `TimerQueue.LevelRemoved` | rt-thread/src/timer.c:165-173 | removal from the bottom list is removal from every level |
| `SkipTimers.CompareTicks` | rt-thread/src/timer.c:424-433 | (a remark) unsigned differences of 32-bit ticks tell the order of deadlines exactly within the half-range window |
| `SkipTimers.TimerSystem.FindRows` | rt-thread/src/timer.c:409-437 | the search from the uppermost level down, going on from the same node, finds on every level the place a linear search would |
| `SkipTimers.TimerSystem.Remove` | rt-thread/src/timer.c:165-173 | unlinking on every level; the bottom node may be on the temporary list |
| `SkipTimers.TimerSystem.Start` | rt-thread/src/timer.c:364-487 | for any number of levels the multi-level insert leaves the bottom list as a linear stable sorted insert would |
| `SkipTimers.TimerSystem.Stop` | rt-thread/src/timer.c:495-519 | removes the timer unless it is not activated, which is refused |
| `SkipTimers.TimerSystem.Check` | rt-thread/src/timer.c:586-653 | the loop with its callbacks refines the check below, and ends |
| `SkipTimers.TimerSystem.Tick` | rt-thread/src/clock.c:69-115 | one tick of the clock and its check |
| `TimerRuns.Check` | rt-thread/src/timer.c:586-653 | a pass ends, and leaves no timer due at the tick it read |
| `TimerRuns.CheckFires` | rt-thread/src/timer.c:586-653 | a pass fires exactly the timers expired at its start, in order, but for those a callback of the pass started or stopped |
| `TimerRuns.FiresInOrder` | rt-thread/src/timer.c:602-645 | none is fired early or twice; earliest first, ties in start order |
| `TimerRuns.NoneForgotten` | rt-thread/src/timer.c:600-653 | an expired timer that no callback of the pass touches is fired |
| `TimerRuns.RearmExactly` | rt-thread/src/timer.c:615-644 | a periodic timer is re-armed exactly if it is still periodic and its callback neither stopped nor restarted it |
| `TimerRuns.WindowHolds` | rt-thread/src/timer.c:586-653 | on every run of starts, stops and ticks all pending deadlines stay within the half-range window |
| `TimerTimes.FiresAfterItsTicks` | rt-thread/src/timer.c:394-653 | on every run a timer set to n ticks and started fires in the n-th tick from then and in none before, as long as no thread or callback starts or stops it |
| `TimerTimes.FiresPeriodically` | rt-thread/src/timer.c:394-653 | on every run a periodic timer set to n ticks, started and left alone fires in every n-th tick and in no other |
| `TimerTimes.StoppedIsSilent` | rt-thread/src/timer.c:495-653 | on every run a stopped timer does not fire until it is started |
| `TimerRuns.StaleExactly` | rt-thread/src/timer.c:614-645 | the activated flag of a fired timer goes stale exactly when its callback makes a periodic timer one-shot and neither stops nor starts it |
| `TimerRuns.StaleActivation` | rt-thread/src/timer.c:614-645 | a callback that makes its own periodic timer one-shot leaves it marked activated on no list |
| `Clock.LeastTicks` | rt-thread/src/clock.c:128-145 | (a remark) the ticks for a delay are the least number that lasts as long |
| `SuspendLists.EnqueuedSorted` | rt-thread/src/ipc.c:123-149 | a list kept by priority stays in order of priority |
| `SuspendLists.EnqueuedFair` | rt-thread/src/ipc.c:123-149 | a thread queues behind every waiter at least as urgent and before every less urgent one |
| `SuspendLists.StaysSorted` | rt-thread/src/ipc.c:110-235 | over every run with fixed priorities the list is sorted, so the most urgent waiter is resumed first |
| `SuspendLists.StaysInTurn` | rt-thread/src/ipc.c:110-157 | over every run the waiters stand in order of priority and among equals in order of arrival, or by arrival alone if the flag says so |
| `SuspendLists.LastArrival` | rt-thread/src/ipc.c:110-157 | the stamp of a thread in a run is the place of its last suspension |
| `SuspendLists.TimeoutFindsWaiter` | rt-thread/src/thread.c:904-933 | a thread timer that expires always finds its thread suspended, as the assertion there says |
| `SuspendLists.OneEndPerWait` | rt-thread/src/thread.c:861-933 | on every run each wait of a thread ends in exactly one resume, timeout or reset, and returns what it ended in |
| `SuspendLists.SuspendWaits` | rt-thread/src/ipc.c:110-157 | a suspended thread joins the waiters, and nobody else moves; its timer is armed exactly if it waits for a time |
| `SuspendLists.BoundedWaitCanEnd` | rt-thread/src/ipc.c:534-543 | on every run a thread that waits for a time has its timer armed for as long as it waits |
| `SuspendLists.FailAllEmpties` | rt-thread/src/ipc.c:208-235 | resuming all empties the list and gives every waiter, and only waiters, an error |
| `SuspendLists.SuspendList.Suspend` | rt-thread/src/ipc.c:110-157 | the loop inserts by priority or appends |
| `SuspendLists.SuspendList.ResumeAll` | rt-thread/src/ipc.c:208-235 | the loop resumes the waiters in order with an error, and ends |
| `SuspendLists.SuspendList.Timeout` | rt-thread/src/thread.c:904-933 | the error is set and the thread unlinked |
| `SuspendLists.SuspendList.Leave` | rt-thread/src/ipc.c:549-555 | a blocked call returns the error its thread was woken with |
| `Semaphores.NobodyWaitsInVain` | rt-thread/src/ipc.c:489-642 | on every run a positive count and a waiter never coexist, and the count stays in range |
| `Semaphores.UnitsAreConserved` | rt-thread/src/ipc.c:489-642 | initial count and successful releases equal final count and successful takes, immediate or handed over, on every run (resets accounted for) |
| `Semaphores.TakesEndOnce` | rt-thread/src/ipc.c:489-556 | each blocked take ends in exactly one grant, timeout or reset |
| `Semaphores.TakeWaits` | rt-thread/src/ipc.c:489-556 | a take is answered Blocked exactly if there is no unit and it may wait; exactly then the thread comes to wait, its timer armed exactly for a bounded wait, and any other answer leaves the waiters as they were |
| `Semaphores.BlockedTakesEnd` | rt-thread/src/ipc.c:489-642 | on every run the takes of a thread answered Blocked are as many as its grants, timeouts and resets, and one more while it waits |
| `Semaphores.ServedInTurn` | rt-thread/src/ipc.c:622-641 | on every run a release serves a most urgent waiter, the earliest of them, or the earliest of all by the flag |
| `Semaphores.Semaphore.Take` | rt-thread/src/ipc.c:468-561 | refines the step, with its result |
| `Semaphores.Semaphore.Release` | rt-thread/src/ipc.c:599-655 | hands over to the first waiter, counts, or reports overflow |
| `Semaphores.Semaphore.Reset` | rt-thread/src/ipc.c:671-709 | fails all waiters and sets the count |
| `Mutexes.AlwaysValid` | rt-thread/src/ipc.c:912-1225 | on every run: free exactly if no owner exactly if not held, waiters only with an owner and sorted by priority, only the owner's priority raised, the owner at least as urgent as every waiter |
| `Mutexes.TakeWaits` | rt-thread/src/ipc.c:964-1035 | a take is answered Blocked exactly if another thread owns the mutex and it may wait; exactly then the thread comes to wait, and the owner has the more urgent of the two priorities, every other thread its own |
| `Mutexes.InheritsExactly` | rt-thread/src/ipc.c:1009-1215 | on every run the owner has the most urgent of its own priority and those of the takes that blocked since it acquired the mutex, and every other thread its own |
| `Mutexes.BlockedTakesEnd` | rt-thread/src/ipc.c:912-1225 | on every run the takes of a thread answered Blocked are as many as its hand-overs and timeouts, and one more while it waits |
| `Mutexes.WaitersInTurn` | rt-thread/src/ipc.c:123-149 | on every run from a new mutex each waiter is more urgent than all behind it, or as urgent and its last take came first |
| `Mutexes.LastTake` | rt-thread/src/ipc.c:912-1035 | the stamp of a thread in a run is the place of its last take |
| `Mutexes.MutualExclusion` | rt-thread/src/ipc.c:912-1225 | on every run no two threads have both been told they hold the mutex |
| `Mutexes.HeldIsOwned` | rt-thread/src/ipc.c:912-1225 | a thread holds the mutex exactly as often as its successful takes exceed its releases |
| `Mutexes.HandOver` | rt-thread/src/ipc.c:1152-1214 | on every run the last release restores the priority the owner had when it acquired the mutex and hands over to the most urgent waiter, among equals to the one that came first |
| `Mutexes.NeverFull` | rt-thread/src/ipc.c:964-982 | (a remark) the overflow branches on a change of owner are never taken |
| `Mutexes.MutexObject.Take` | rt-thread/src/ipc.c:912-1046 | refines the step: recursive take, free mutex, or inherit and wait |
| `Mutexes.MutexObject.Release` | rt-thread/src/ipc.c:1110-1225 | refines the step: refused, count down, hand over or free |
| `Events.AlwaysValid` | rt-thread/src/ipc.c:1470-1700 | in every reachable state no suspended thread's condition is met by the flags set |
| `Events.SendServes` | rt-thread/src/ipc.c:1493-1552 | after a send every waiter is untouched or woken with a non-empty part of what it asked for, all of it if it asked for all |
| `Events.ClearedOnce` | rt-thread/src/ipc.c:1493-1552 | flags a woken thread clears are received by no thread behind it in the list |
| `Events.SendLeaves` | rt-thread/src/ipc.c:1493-1552 | after a send the set is the old one and the flags sent, less just what woken threads that clear received; each waiter in turn is woken exactly if what those before it left meets its condition, and receives just its flags in that |
| `Events.NothingVanishes` | rt-thread/src/ipc.c:1493-1552 | a waiter whose condition the old set and the flags sent meet is woken unless one ahead of it has cleared a flag it asks for |
| `Events.ReceiveWaits` | rt-thread/src/ipc.c:1601-1700 | a receive succeeds at once exactly if its condition is met, with its flags in the set, and clears just those if it is to; it waits exactly if it is not met and it may wait, its timer armed exactly for a bounded wait |
| `Events.BlockedReceivesEnd` | rt-thread/src/ipc.c:1601-1700 | on every run the receives of a thread answered Blocked are as many as its wake-ups, timeouts and resets, and one more while it waits |
| `Events.ScanSettles` | rt-thread/src/ipc.c:1493-1552 | walking the list while the set shrinks leaves nobody satisfied behind |
| `Events.ScannedInTurn` | rt-thread/src/ipc.c:1493-1552 | on every run a send looks at the waiters by priority and arrival, or by arrival alone |
| `Events.WaitsEndOnce` | rt-thread/src/ipc.c:1601-1700 | each blocked receive ends in exactly one wake-up, timeout or reset, and returns what it ended in |
| `Events.EventObject.Send` | rt-thread/src/ipc.c:1470-1562 | the loop refines the walk; the invalid-option error is never returned |
| `Events.EventObject.Receive` | rt-thread/src/ipc.c:1601-1700 | immediate receipt, refusal or wait, with what is reported |
| `Events.EventObject.Reset` | rt-thread/src/ipc.c:1748-1776 | fails all waiters and clears the set |
| `MessageQueueRuns.AlwaysValid` | rt-thread/src/ipc.c:2821-3390 | under any interleaving: free, queued and in-flight nodes partition the pool, the count is the queue's length, and no wake-up is lost on either side |
| `MessageQueueRuns.RoomForEntry` | rt-thread/src/ipc.c:2965-2978 | the count is below its limit whenever a message is linked: the overflow branches are unreachable |
| `MessageQueueRuns.StepChanges` | rt-thread/src/ipc.c:2821-3390 | a send appends at its link, an urgent send puts in front, a receive takes the first message |
| `MessageQueueRuns.SentAsWritten` | rt-thread/src/ipc.c:2943-3130 | on every run the message a thread links is the one it wrote last, in front exactly if it called rt_mq_urgent |
| `MessageQueueRuns.RunChanges` | rt-thread/src/ipc.c:2821-3390 | the linked nodes refine a queue of messages over every run |
| `MessageQueueRuns.MessagesAreConserved` | rt-thread/src/ipc.c:2821-3390 | no message is lost, duplicated or made up |
| `MessageQueueRuns.FirstInFirstOut` | rt-thread/src/ipc.c:2821-3390 | without urgent messages they come out in the order they were linked |
| `MessageQueueWaits.ServedInTurn` | rt-thread/src/ipc.c:2974-3325 | on every run whoever is woken first on either side is a most urgent waiter there, the earliest of them, or the earliest of all by the flag |
| `MessageQueueWaits.SendWaits` | rt-thread/src/ipc.c:2855-2941 | a send is answered Blocked exactly if no node is free and it may wait; exactly then the thread comes to wait among the senders, its timer armed exactly for a bounded wait |
| `MessageQueueWaits.ReceiveWaits` | rt-thread/src/ipc.c:3165-3292 | a receive is answered Blocked exactly if nothing is queued and it may wait; exactly then the thread comes to wait among the receivers, its timer armed exactly for a bounded wait |
| `MessageQueueWaits.BlockedCallsEnd` | rt-thread/src/ipc.c:2821-3325 | on every run the calls of a thread answered Blocked are on either side as many as its wake-ups, timeouts and resets there, and one more while it waits |
| `MessageQueueWaits.WaitsEndOnce` | rt-thread/src/ipc.c:2821-3325 | each blocked send or receive ends in exactly one wake-up, timeout or reset, and returns what it ended in |
| `MessageQueues.MessageQueue.constructor` | rt-thread/src/ipc.c:2558-2605 | all nodes on the free list, head, tail and count empty |
| `MessageQueues.MessageQueue.Send` | rt-thread/src/ipc.c:2821-2941 | takes the head of the free list, waits or refuses |
| `MessageQueues.MessageQueue.Fill` | rt-thread/src/ipc.c:2943-2946 | the copy outside the lock touches only the node in hand |
| `MessageQueues.MessageQueue.Link` | rt-thread/src/ipc.c:2948-3000 | links at head or tail so that head, tail and next pointers agree with the queue; the overflow result is never returned |
| `MessageQueues.MessageQueue.Receive` | rt-thread/src/ipc.c:3165-3292 | unlinks the head, waits or refuses |
| `MessageQueues.MessageQueue.Copy` | rt-thread/src/ipc.c:3294-3295 | what is copied out is the message that was unlinked |
| `MessageQueues.MessageQueue.GiveBack` | rt-thread/src/ipc.c:3297-3325 | the node goes to the head of the free list and one sender is woken |
| `MessageQueues.MessageQueue.Reset` | rt-thread/src/ipc.c:3348-3395 | all queued nodes go to the free list, in-flight ones do not, all waiters fail |
| `MessageQueues.BackLinked` | rt-thread/src/ipc.c:2952-2963 | the pointer updates of a send append to the chain |
| `MessageQueues.HeadUnlinked` | rt-thread/src/ipc.c:3274-3281 | the pointer updates of a receive remove the first of the chain |
| `SchedulerRuns.EveryThreadInOnePlace` | rt-thread/src/scheduler.c:295-800 | in every reachable state: ready means once in the queue of the thread's CPU and current priority, running means current and in no queue, any other state in no queue |
| `SchedulerRuns.MostUrgentRuns` | rt-thread/src/scheduler.c:295-390 | rt_schedule leaves its CPU running a runnable thread at least as urgent as every thread ready on it |
| `SchedulerRuns.WakeIsNotLost` | rt-thread/src/thread.c:861-933 | a wake-up between suspending and rt_schedule keeps the thread running; a later one queues it |
| `SchedulerRuns.StaysRunnable` | rt-thread/src/scheduler.c:295-800 | no step but its own suspension or exit makes a runnable thread unrunnable |
| `SchedulerRuns.WokenIsServed` | rt-thread/src/thread.c:861-933 | on every run a resumed thread is running or queued until its own suspension or exit, and after any scheduling of its CPU that CPU runs it or a thread at least as urgent |
| `SchedulerRuns.YieldsRotate` | rt-thread/src/scheduler.c:332-386 | k yields rotate the threads that share the highest priority k places |
| `SchedulerRuns.FullTurn` | rt-thread/src/scheduler.c:332-386 | after one turn each the first runs again |
| `SchedulerRuns.SliceRotates` | rt-thread/src/clock.c:99-107 | a thread that shares its priority runs for exactly the ticks its slice has left and is then behind the others |
| `SchedulerLaws.PriorityChanged` | rt-thread/src/thread.c:707-746 | whatever its state, the thread has the priority asked for and is otherwise as it was; a ready one is last in the queue of that priority and gone from its old one; no other thread or queue changes |
| `SchedulerLaws.PriorityDecides` | rt-thread/src/thread.c:707-746 | the next scheduling acts on it: its CPU runs nothing less urgent than the thread, and another one if that is ready and more urgent now |
| `SchedulerLaws.WokenThread` | rt-thread/src/thread.c:861-933 | a woken thread runs on if its CPU still runs it, and else is last in the queue of its priority; nothing else changes |
| `SchedulerLaws.StartedThread` | rt-thread/src/thread.c:323-355 | a started thread is last in the queue of the priority it was made with; nothing else changes |
| `SchedulerLaws.SuspendedThread` | rt-thread/src/thread.c:811-850 | a runnable thread that is suspended is in no queue, any other is left alone; nothing else changes |
| `SchedulerLaws.ExitedThread` | rt-thread/src/thread.c:100-130 | a thread that exits is closed and in no queue; nothing else changes |
| `SchedulerLaws.SwitchChanges` | rt-thread/src/scheduler.c:332-386 | a switch is to the first thread of the best queue; the former one is ready and has yielded if it could run on, and no other thread changes |
| `SchedulerLaws.SwitchQueues` | rt-thread/src/scheduler.c:332-386 | a switch takes just the thread it runs out of its queue and puts the former one last in its own if that can run on |
| `SchedulerLaws.TickChanges` | rt-thread/src/clock.c:99-107 | a tick takes one off the slice of the running thread; the last one fills it up and asks the thread to yield |
| `SchedulerLaws.YieldRefills` | rt-thread/src/thread.c:524-537 | a thread that yields has a full slice when it runs again, and no other slice changes |
| `SchedulerLaws.RoundRobin` | rt-thread/src/clock.c:99-107 | threads that share their priority and start with full slices take turns, each for as many ticks as its own slice has, and have full slices again after each round |
| `Scheduler.FfsFindsBest` | rt-thread/src/scheduler.c:126-161 | the bit group and __rt_ffs find the queue a search of all queues would |
| `Scheduler.SwitchOrder` | rt-thread/src/scheduler.c:339-372 | putting the former thread back before taking the next out equals doing it afterwards |
| `Scheduler.SchedulerSystem.InsertThread` | rt-thread/src/scheduler.c:651-700 | running if it has a CPU, else appended to its queue with its bit set |
| `Scheduler.SchedulerSystem.RemoveThread` | rt-thread/src/scheduler.c:747-797 | out of its queue, the bit cleared exactly if the queue is then empty |
| `Scheduler.SchedulerSystem.HighestPriorityThread` | rt-thread/src/scheduler.c:126-161 | the first thread of the best non-empty queue |
| `Scheduler.SchedulerSystem.Schedule` | rt-thread/src/scheduler.c:332-386 | refines the scheduling step; bit groups and oncpu stay exact |
| `Scheduler.SchedulerSystem.Startup` | rt-thread/src/thread.c:323-355 | from its initial state into its queue |
| `Scheduler.SchedulerSystem.SuspendThread` | rt-thread/src/thread.c:811-850 | out of its queue, refused unless ready or running |
| `Scheduler.SchedulerSystem.Resume` | rt-thread/src/thread.c:861-895 | runnable again, refused unless suspended |
| `Scheduler.SchedulerSystem.Timeout` | rt-thread/src/thread.c:904-933 | runnable again |
| `Scheduler.SchedulerSystem.ChangePriority` | rt-thread/src/thread.c:707-746 | stores the priority; a ready thread moves to the queue of its new one |
| `Scheduler.SchedulerSystem.Yield` | rt-thread/src/thread.c:524-537 | the slice is refilled and the thread gives way to its equals |
| `Scheduler.SchedulerSystem.TickSlice` | rt-thread/src/clock.c:99-113 | the slice counts down and ends in a yield mark |
| `Scheduler.SchedulerSystem.Exit` | rt-thread/src/thread.c:100-130 | the thread is closed and in no queue |
| `Bits.FfsIsLeast` | rt-thread/src/kservice.c:1395-1409 | the table look-up gives one more than the position of the least set bit, and zero for zero |
| `Bits.TableIsRight` | rt-thread/src/kservice.c:1364-1383 | the table of 256 bytes is right |
| `LockNest.CountersCount` | rt-thread/src/cpu.c:148-190 | on every run the scheduler count is the open critical sections and one more while anything is locked; no counter wraps |
| `LockNest.SwitchOnlyOutside` | rt-thread/src/scheduler.c:332 | the test of the scheduler holds exactly if no critical section is open |
| `LockNest.ExitSchedules` | rt-thread/src/scheduler.c:898-937 | leaving a critical section reschedules exactly when nothing else is open |
| `LockNest.IrqSwitchRestores` | rt-thread/src/scheduler.c:583-629 | a switch in an interrupt leaves the interrupted thread's counters as it found them |
| `LockNest.ThreadLocks.CpusLock` | rt-thread/src/cpu.c:148-168 | counts up |
| `LockNest.ThreadLocks.CpusUnlock` | rt-thread/src/cpu.c:176-190 | counts down without wrapping |
| `LockNest.ThreadLocks.EnterCritical` | rt-thread/src/scheduler.c:836-873 | counts up all three |
| `LockNest.ThreadLocks.ExitCritical` | rt-thread/src/scheduler.c:898-937 | counts down all three without wrapping and says when to reschedule |
| `LockNest.ThreadLocks.Schedule` | rt-thread/src/scheduler.c:295-332 | gets as far as picking a thread exactly outside interrupts and critical sections, and in an interrupt leaves a request |
| `LockNest.ThreadLocks.DoIrqSwitch` | rt-thread/src/scheduler.c:551-632 | gets as far as picking a thread exactly if one is requested, outside nested interrupts and critical sections; a request that is not served stays; the counters are restored |
| `Lists.InsertAfter` | rt-thread/include/rtservice.h:58-65 | the ring gains the node as first entry |
| `Lists.InsertBefore` | rt-thread/include/rtservice.h:73-80 | the ring gains the node as last entry |
| `Lists.Remove` | rt-thread/include/rtservice.h:86-92 | the others stay a ring and the node is one of its own; a lone node stays as it is |
| `Lists.IsEmpty` | rt-thread/include/rtservice.h:98-101 | empty exactly if the head is alone |
| `Lists.Len` | rt-thread/include/rtservice.h:107-118 | the loop counts the entries, and ends |
| `Lists.RingTurns` | rt-thread/include/rtservice.h:58-92 | any node of a ring may be taken as its head |
| `Lists.InsertBeforeEntry` | rt-thread/src/ipc.c:129-143 | inserting before an entry in the middle of a list puts the node just in front of it |
| `Lists.RemoveEntry` | rt-thread/include/rtservice.h:86-92 | an entry anywhere in a list is taken out, the others keep their order |
| `DmaChannels.AlwaysValid` | driver/dmalock.c:41-72 | under any interleaving free channels are the semaphore's count, takers past it that have not marked one, and releasers that have not posted yet |
| `DmaChannels.TakersFindChannels` | driver/dmalock.c:41-72 | a taker past the semaphore never scans to the end in vain, no two hold the same channel, and a channel keeps its holder's name |
| `DmaChannels.ScanOutMarks` | driver/dmalock.c:50-59 | the steps of a scan nothing interrupts mark the first unused channel |
| `DmaChannels.DmacHost.Scan` | driver/dmalock.c:50-59 | the loop marks and names the first unused channel, as the steps of an uninterrupted scan do |
| `DmaChannels.DmacHost.Release` | driver/dmalock.c:65-72 | name and mark of a valid channel are cleared, as the two steps of its holder do; others are ignored |
| `DmaChannels.ReleaseUndoesTake` | driver/dmalock.c:50-72 | a channel taken and released again leaves the marks as they were and no name on it |

## Left out

- Magic numbers and the assertions on them, hooks, debug output, names and memory tracing: no effect on the state.
- `mem.c`: stale `prev` of the end header is not constrained, as in the code; `rt_calloc` is a malloc and a fill.
- `memheap.c`: alignment of items, which the code does not keep after small requests; the multi-heap wrappers and detaching.
- MemHeap.MemHeap.Realloc: what becomes of the pool where the test for growth in place errs (`MemHeapLayout.GrowthExact` says when), for the code then writes a header outside the free neighbour.
- `slab.c`: other calls between the two locked regions of one call (the heap is unlocked around the page allocator); `rt_realloc` and `rt_calloc`, which are made of the other two; memory statistics; the chunk and zone links, which are sequences here; the pages of the page map itself, which are never handed out.
- Timers: one clock for all CPUs, although each CPU counts its own ticks while the list is shared; soft timers; detach and delete, which are stops; a periodic timer with a period of zero ticks, with which the check would not end.
- Scheduler: signals, threads bound to no CPU, the moment between the choice of a thread and the context switch, and the inter-processor interrupt that follows an insertion on another CPU; a thread is only suspended by its own CPU while it runs, and idle threads neither suspend nor exit.
- Scheduler: `irq_switch_flag`, which is in `LockNest`; a schedule step stands for `rt_schedule` outside interrupts or for the switch at the end of one.
- Locks: counters are unbounded, where the code has 16 bits and relies on less nesting.
- IPC: atomicity of timeouts and resets, which take the local interrupt lock only, is assumed; detach and delete of objects; waiting threads that signals interrupt.
- Mutexes: several mutexes per thread and priority changes from elsewhere, for which the code restores the wrong priority; there is no transitive inheritance to model.
- Events: the 32-bit word, for an event set is a set of bit numbers here; the unlock after a wake-up in `rt_event_recv` where a lock is meant (line 1714), and the same in the mailbox, whose blocking paths are left out for that reason.
- Message queues: the length of a message and the bytes behind a shorter one; a message is one value.
- DMA channels: the semaphore and the mutex are counts and an owner here; the order of their waiters is that of `Semaphores` and `Mutexes`.
- `object.c`, `device.c`, `mempool.c`, the console, drivers and applications: lookups, formatting and register access.
