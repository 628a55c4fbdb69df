# RedMagic kernel model

A Dafny model of the stateful core of RedMagic, a small 32-bit x86 SMP kernel, with proofs of what
its code keeps over whole runs. The modules follow the kernel's parts:

- `Bits` — C's word operators, bit by bit, and what the page and index masks compute.
- `FrameColors`, `FrameAllocator` — the frame allocator, which stores no lengths: adjacent extents
  get different colours and a free recovers an extent from its colour. `FrameColors` holds the
  colour discipline and the runs; `FrameTable` is the table of words updated in place.
- `HeapBlocks`, `Heap` — the best-fit heap: tiling and coalescing over blocks, and the three header
  lists that refine it, with headers taken from the frame allocator.
- `Threads`, `Queues`, `SpinLock`, `Mutex`, `Semaphore`, `Timer`, `Scheduler` — the locks as
  interleavings of threads (one step is one section under the inner spinlock), wrap-around alarms,
  and round robin with the polling that interrupts end.
- `RamDisk`, `BufferCache`, `BlockDevice`, `ConcurrentCache`, `CacheHistory`, `LostWrites`,
  `BufferWait` — the write-back cache over the RAM disk: as functions on its state, as the object
  the calls update, and as an interleaving of threads in which a sync goes on while writers copy
  outside the device lock. `CacheHistory` ties that interleaving to the calls made, `LostWrites`
  shows when a write is lost, and `BufferWait` models sleeping on a busy buffer.
- `PageTables`, `AddressSpace`, `BootMap` — two-level paging (section 4.3 of the Intel SDM volume
  3A) against the flat map it stands for, over frames from the allocator, and the boot mappings.
- `ListRing` — the circular lists with their real next and prev pointers.
- `NumberFormat` — integer formatting and reading back; `Division` has arithmetic for it.

Words are naturals below 2^32 with wrap-around written out; signed overflow wraps in two's
complement. Locks, `switch_to` and `xchg` are atomic steps. Clock values, memory maps and the
contents of the disk are parameters. A PANIC, NULL or error return is a result value.

Several properties one would expect fail in corner cases. Each has a concrete run or input and the
exact condition:

- A write can be lost when a sync flushes its buffer at the same time, because the copy and the
  DIRTY flag are set outside the device lock: `LostWrites.OverlappedSyncLosesWrite`,
  `LostWrites.ObservableIffLosesWrite`.
- A thread that finds its buffer busy can go to sleep on it after it was freed, and then only a new
  call can wake it: `BufferWait.WakeUpLost`, `BufferWait.WakeableIffAttended`,
  `BufferWait.AttendedUntilAbandoned`.
- With every buffer busy or dirty, a request for a block the device has ends in the PANIC of
  `get_buffer`: `LostWrites.HeldBufferPanics`, `ConcurrentCache.PanicsIff`.
- A write to a block the device does not have is accepted and then blocks later reads of other
  blocks: `BufferCache.ForeignWritePoisons`, `BufferCache.PoisonSpoilsReads`,
  `BufferCache.ReadAgrees`.
- `__page_map` does not notice a failed frame allocation; the second failure overwrites the table
  of the first: `PageTables.TwoNullsLoseMapping`, `PageTables.SharedTableIff`,
  `AddressSpace.Space.PageMap`.
- A memory range that starts in the last page of the address space is mapped from physical page 0,
  over the kernel space too: `BootMap.HighRangeStartsAtZero`, `BootMap.MappedIsInjectiveIff`,
  `BootMap.BootIsInjectiveIff`.
- Available memory listed out of order is left out of the boot mappings:
  `BootMap.OutOfOrderSkips`, `BootMap.MappedExact`.
- A frame table at address 0 never allocates, because the address of its first entry is NULL:
  `FrameAllocator.TableAtZeroNeverAllocates`, `FrameAllocator.NullMeansNoneIff`.
- The page count of a region without a page boundary wraps and the region is accepted:
  `FrameAllocator.TinyRegionMiscounted`, `FrameAllocator.CountedPagesExact`.
- `list_cut_position` on a list without entries leaves the target list as it was, against its
  comment, so splicing back is not an inverse then: `ListRing.CutThenSplice`.
- A pause of 2^31 ticks or more ends early: `Timer.PauseOf25DaysRingsAtOnce`,
  `Timer.PauseLongEnoughIff`.
- `kmalloc(0)` reserves an empty block: `HeapBlocks.CarveTilesIffPositive`, `Heap.HeapDesc.Kmalloc`.
- The semaphore count wraps at 2^32: `Semaphore.CountWraps`, `Semaphore.PermitsConserved`.
- A field width near the least int pads with 2^31 - 1 characters: `NumberFormat.LeastWidthPads`,
  `NumberFormat.WrittenIsRenderIff`.

## Model

| member | source | states |
|---|---|---|
| `FrameColors.RunDecodesAllocations` | src/mm.c:498-592 | after any run of allocations and frees from a fresh table every colour is below 4 and the maximal coloured runs are exactly the live allocations |
| `FrameColors.StepKeepsInv` | src/mm.c:498-592 | one `alloc_frames` or `free_frames`, on any argument, keeps that correspondence |
| `FrameColors.MarkerIsFresh` | src/mm.c:506-533 | the chosen colour is 1, 2 or 3 and differs from both neighbours of the window; the left neighbour is never white, so the ASSERT holds |
| `FrameColors.MarkerValues` | src/mm.c:515-533 | the colour by value: 1 for the whole table, the third colour between two that differ, otherwise the next in the cycle 1, 2, 3 after the neighbour |
| `FrameColors.PaintAddsRun` | src/mm.c:535-539 | drawing such a colour on a white window adds one maximal run and changes no other |
| `FrameColors.WhitenRemovesRun` | src/mm.c:583-586 | whitening one maximal run removes it and no other |
| `FrameColors.FreeRecoversExtent` | src/mm.c:554-592 | a free through any frame of a live allocation whitens exactly its frames and ends exactly that allocation |
| `FrameColors.ColoredIffLive` | src/mm.c:562-563 | a frame is coloured exactly when some live allocation has it |
| `FrameColors.LiveExtentsDisjoint` | src/mm.c:498-547 | live allocations share no frame |
| `FrameColors.AllocIsFresh` | src/mm.c:498-547 | a new allocation shares no frame with a live one |
| `FrameColors.AllocThenFree` | src/mm.c:498-592 | freeing an allocation just made, through any of its frames, restores colours and live set |
| `FrameColors.FirstFitIsLowest` | src/mm.c:462-483 | the search answers i exactly when i starts the lowest window of n white frames, and nothing exactly when there is no window |
| `FrameColors.WindowNeedsFree` | src/mm.c:468-481 | a window of n white frames implies n free frames, so the shortcut on `nfree` never changes the answer |
| `FrameColors.OneFrameIffFree` | src/mm.c:549-552 | one frame can be had exactly when a white frame is left |
| `FrameColors.CountWhitePaint` | src/mm.c:541-586 | repainting a stretch of one colour changes the number of white frames by its length |
| `FrameAllocator.SplitIsSafeAndOptimal` | src/mm.c:417-427 | from two pages on the table holds an entry per frame, both parts are non-empty, and no other split manages more frames |
| `FrameAllocator.CountedPagesExact` | src/mm.c:411-422 | the page count is that of the whole pages inside when the region touches a page boundary, and 0xFFFFF otherwise |
| `FrameAllocator.TinyRegionMiscounted` | src/mm.c:411-422 | a region of 10 bytes that is counted as 0xFFFFF pages |
| `FrameAllocator.LayoutInside` | src/mm.c:423-451 | table and frames lie inside the region without overlap exactly when the count was right |
| `FrameAllocator.PageContain` | include/mm.h:12-12 | the least number of pages holding that many bytes |
| `FrameAllocator.WordParts` | include/mm.h:97-102 | a table word gives back its frame and its colour |
| `FrameAllocator.AllocOwns` | src/mm.c:498-547 | in bytes: an allocation adds exactly its range to what is owned and none of it was owned |
| `FrameAllocator.NullMeansNoneIff` | src/mm.c:462-504 | NULL from the search means no window, exactly unless the table is at address 0 and the window starts at its first entry |
| `FrameAllocator.TableAtZeroNeverAllocates` | src/mm.c:462-504 | a table at address 0 answers NULL to every request for ever |
| `FrameAllocator.FrameTable.Init` | src/mm.c:400-456 | 1 exactly when fewer than two pages are counted; otherwise the layout, which lies inside the region exactly when it touches a page boundary, with entry i holding frame i, all white; the table is usable exactly when the region does not start at 0 |
| `FrameAllocator.FrameTable.FillTable` | src/mm.c:444-451 | the loop writes frame address i into entry i and zero into the rest |
| `FrameAllocator.FrameTable.FindSeqPages` | src/mm.c:462-483 | the address of the first entry of the lowest window of n white frames, NULL when there is none |
| `FrameAllocator.FrameTable.FindPageIndex` | src/mm.c:485-496 | the address of the entry of the frame containing the address, NULL for unmanaged addresses |
| `FrameAllocator.FrameTable.Alloc` | src/mm.c:498-547 | the words afterwards encode the abstract allocation; NULL exactly when no window fits, and always for a table at address 0; the bytes returned were owned by nobody and are the only ones newly owned; `nfree` stays the number of white frames |
| `FrameAllocator.FrameTable.ChooseMarker` | src/mm.c:515-533 | the branches on the neighbouring words compute the colour that `FrameColors.MarkerIsFresh` is about |
| `FrameAllocator.FrameTable.PaintWords` | src/mm.c:535-539 | the drawing loop sets the colour of exactly the window's words and keeps their frames |
| `FrameAllocator.FrameTable.ColorWindow` | src/mm.c:506-539 | the words afterwards encode the colours of the abstract allocation |
| `FrameAllocator.FrameTable.Free` | src/mm.c:554-592 | whatever word is at address 0: 1 and no change for an unmanaged or free frame; otherwise 0 and exactly the extent around the address is freed |
| `FrameAllocator.FrameTable.ScanLeft` | src/mm.c:565-571 | the left scan stops at the start of the run |
| `FrameAllocator.FrameTable.ScanRight` | src/mm.c:573-579 | the right scan stops at the end of the run |
| `FrameAllocator.FrameTable.WhitenWords` | src/mm.c:583-586 | the erasing loop whitens exactly the run and keeps its frames |
| `FrameAllocator.FrameTable.WhitenRun` | src/mm.c:565-586 | the words afterwards encode the colours of the abstract free, and the number of frames freed is exact |
| `HeapBlocks.RunKeepsTiling` | src/kmalloc.c:104-218 | after every call of every run from a fresh heap, free and reserved blocks are non-empty, disjoint, cover exactly the heap, and no two free blocks touch |
| `HeapBlocks.StepKeepsTiling` | src/kmalloc.c:104-218 | each call, successful or not, keeps the tiling |
| `HeapBlocks.CarveKeepsTiling` | src/kmalloc.c:153-158 | carving a positive request from a free block keeps the tiling |
| `HeapBlocks.CarveTilesIffPositive` | src/kmalloc.c:117-158 | carving keeps the tiling exactly when the request is positive |
| `HeapBlocks.ReleaseKeepsTiling` | src/kmalloc.c:188-208 | merging a released block with the free blocks it touches keeps the tiling |
| `HeapBlocks.FreeBytesDetermineBlocks` | src/kmalloc.c:188-208 | the free blocks are determined by the set of free bytes |
| `HeapBlocks.LiveDeterminesFree` | src/kmalloc.c:188-208 | the free blocks are determined by the reserved blocks |
| `HeapBlocks.MallocKfreeRoundTrip` | src/kmalloc.c:104-218 | freeing a block just allocated succeeds and restores the heap exactly |
| `HeapBlocks.KfreeRemoves` | src/kmalloc.c:177-186 | freeing the base of a reserved block succeeds and unreserves that block alone |
| `HeapBlocks.DrainInAnyOrder` | src/kmalloc.c:168-218 | freeing every reserved block in any order, with any other frees between, leaves one free block for the whole heap |
| `Heap.TakeExactIsCarve` | src/kmalloc.c:122-126 | moving the header of an exact fit is the abstract allocation and keeps every header on exactly one list |
| `Heap.SplitIsCarve` | src/kmalloc.c:134-158 | filling a new header and shrinking the found one is the abstract allocation and keeps every header on exactly one list, for a request of 0 too; the blocks tile the heap afterwards exactly when the request was positive |
| `Heap.GiveBackIsRelease` | src/kmalloc.c:177-208 | moving a header to the free list, absorbing its neighbours and returning their headers is the abstract release and keeps every header on exactly one list |
| `Heap.AddPage` | src/kmalloc.c:139-146 | a metadata page adds its headers to the available ones and to no other list |
| `Heap.NewListsSound` | src/kmalloc.c:79-99 | the initial lists hold the whole heap as one free block, every header on one list |
| `Heap.FindFit` | src/kmalloc.c:113-127 | the loop finds the first exact fit in the list, else the first of the smallest larger blocks, else there is none large enough |
| `Heap.FindReserved` | src/kmalloc.c:177-183 | the header of the reserved block starting at the address, nothing exactly when there is none |
| `Heap.Coalesce` | src/kmalloc.c:188-203 | one pass over the free list finds both neighbours of the released block and gives the merged block, whatever their order on the list |
| `Heap.HeapDesc.Init` | src/kmalloc.c:31-102 | 0 exactly when the frame table is not at 0, a run of frames for the heap can be had and one frame is left for its headers, and then the whole heap is one free block with 253 headers; otherwise 1; the heap is usable exactly when it ends below 2^32 |
| `Heap.HeapDesc.EnsureHeader` | src/kmalloc.c:134-152 | a header is available afterwards, except exactly when there was none and no frame is free |
| `Heap.HeapDesc.Kmalloc` | src/kmalloc.c:104-166 | for any size the first of the smallest sufficient free blocks is taken, its low bytes become the one new reserved block, and the list orders are as `list_move` leaves them; NULL exactly when none suffices, or a split is needed with no header and no frame left; headers are conserved up to an added page; the tiling is kept exactly unless a request of 0 is granted |
| `Heap.HeapDesc.Kfree` | src/kmalloc.c:168-218 | 0 exactly when a reserved block starts at the address, which is then released and merged, its header first on the free list and the absorbed ones first on the available list; otherwise 1 and no change; headers are conserved |
| `SpinLock.OneCpuInside` | src/spinlock.c:25-88 | at the level of single memory accesses at most one CPU is inside, and the ASSERT on `owner_cpu` never fires |
| `SpinLock.AtMostOneWinner` | src/spinlock.c:25-88 | by what callers see: at most one CPU has found the word clear and not given it back, and the word is set exactly while there is one |
| `SpinLock.Contention` | src/spinlock.c:25-88 | a run of two CPUs through every step: one spins and fails to try while the other is inside, and wins afterwards |
| `Mutex.MutualExclusion` | src/mutex.c:34-82 | in every interleaving with arbitrary spurious wake-ups at most one thread is past `mutex_lock` and it is the owner; the raw lock is set exactly while there is an owner; an owner still queued heads the queue and is not blocked |
| `Mutex.AtMostOneInside` | src/mutex.c:34-82 | by what callers see: of the threads that returned from `mutex_lock` and have not called `mutex_unlock` since there is at most one, it is the owner and the lock word is set |
| `Mutex.LogsAreHistory` | src/mutex.c:34-82 | arrivals are the callers that found the lock word set, grants the owners the unlocks leave |
| `Mutex.OwnersInArrivalOrder` | src/mutex.c:34-82 | the owners the unlocks leave are a prefix of the callers that had to wait, in order of call |
| `Mutex.Contention` | src/mutex.c:34-82 | a run of two threads through every step, with a spurious wake-up and an unlock by a sleeping holder, after which the waiter holds the mutex |
| `Mutex.StepKeepsInv` | src/mutex.c:34-127 | every section, dispatch, preemption, sleep and wake-up keeps the protocol invariant |
| `Mutex.HandOffInArrivalOrder` | src/mutex.c:66-82 | ownership passes in order of arrival, without loss or repetition |
| `Mutex.BoundedWaiting` | src/mutex.c:66-82 | the waiter with k others before it is granted the mutex by the (k+1)-st unlock |
| `Mutex.GrantsGrow` | src/mutex.c:66-82 | every unlock grants while anyone is pending |
| `Mutex.MutexLock.constructor` | src/mutex.c:26-32 | a new mutex is free with nobody waiting |
| `Mutex.MutexLock.AddToWq` | src/mutex.c:99-113 | the record joins the tail of the queue unless it is there already |
| `Mutex.MutexLock.RemoveFromWq` | src/mutex.c:115-127 | the record leaves the queue, the others keep their order |
| `Mutex.MutexLock.LockSection` | src/mutex.c:34-52 | the lock word is set; on an answer of acquired the caller is the owner and holds the mutex, otherwise it is last in the queue, blocked and waiting; acquired exactly when the word was clear; its ASSERT holds |
| `Mutex.MutexLock.ResumeSection` | src/mutex.c:47-63 | acquired exactly when the caller is the owner, and then it leaves the head of the queue holding the mutex; otherwise it sleeps again where it is queued |
| `Mutex.MutexLock.UnlockSection` | src/mutex.c:66-82 | with nobody queued the lock word and the owner are cleared; otherwise the head of the queue becomes the owner and is not blocked, and the word stays set; the caller is outside |
| `Semaphore.PermitsConserved` | src/semaphore.c:32-91 | in every interleaving count plus permits given out equals initial count plus ups, exactly while that fits a word and modulo 2^32 beyond; a non-empty queue means count 0 |
| `Semaphore.CallsBalance` | src/semaphore.c:32-91 | by what callers see: count plus returns from `sem_down` plus woken waiters equal initial count plus calls of `sem_up`, modulo 2^32, and waiters are woken in order of call |
| `Semaphore.LogsAreHistory` | src/semaphore.c:32-91 | the counters and logs are the calls made, the calls returned, the callers that found the count 0 and the waiters woken |
| `Semaphore.HandOver` | src/semaphore.c:32-91 | a run of two threads through every step, in which a permit is handed over after a pause that an alarm ends |
| `Semaphore.FifoAndUndisturbed` | src/semaphore.c:60-107 | grants follow arrivals, queued waiters are blocked, and no alarm can wake a waiter |
| `Semaphore.UpWakesBlocked` | src/semaphore.c:77-91 | `wake_up` in `sem_up` always finds its target blocked and makes it ready |
| `Semaphore.StepKeepsInv` | src/semaphore.c:32-91 | every section, pause, alarm, dispatch, sleep and wake-up elsewhere keeps the invariant |
| `Semaphore.CountWraps` | src/semaphore.c:77-91 | from a count of 0xFFFFFFFF one `sem_up` makes the count 0 |
| `Semaphore.GrantsGrow` | src/semaphore.c:77-91 | every `sem_up` grants while anyone is queued |
| `Semaphore.BoundedWaiting` | src/semaphore.c:60-91 | the waiter with k others before it is granted a permit by the (k+1)-st `sem_up` |
| `Semaphore.SpuriousWakeLeaksIffQueued` | src/semaphore.c:60-75 | a queued thread woken from outside goes on to return from `sem_down`, and one more thread is inside than permits were given out; waking a thread that sleeps elsewhere keeps the invariant |
| `Semaphore.SemaphoreLock.constructor` | src/semaphore.c:25-30 | a new semaphore has its count and an empty queue |
| `Semaphore.SemaphoreLock.AddToWq` | src/semaphore.c:93-107 | the waiter joins the tail of the queue unless it is there already |
| `Semaphore.SemaphoreLock.DownSection` | src/semaphore.c:32-67 | acquired exactly at a positive count, which is then one less and nothing else changes; otherwise the caller is last in the queue, blocked and waiting |
| `Semaphore.SemaphoreLock.UpSection` | src/semaphore.c:50-91 | with nobody queued the count is one more, modulo 2^32; otherwise the head leaves the queue and is ready, and the count stays |
| `Timer.RingsExactly` | src/timer.c:92-123 | an alarm below 2^31 ticks rings exactly from one tick after its duration for 2^31 ticks, wherever the counter wraps |
| `Timer.SilentUnlessSet` | src/timer.c:84-123 | an alarm that is not set, was unset or reset rings at no tick |
| `Timer.NeverEarlyIff` | include/timer.h:36-36 | an alarm never rings early if and only if it is shorter than 2^31 ticks |
| `Timer.PauseLongEnoughIff` | src/sched.c:385-392 | a pause lasts its seconds if and only if they are fewer than 2^31 ticks |
| `Timer.PauseOf25DaysRingsAtOnce` | src/sched.c:385-392 | a pause of 2147484 seconds rings after one tick |
| `Timer.WokenExactlyAfterDuration` | src/sched.c:394-411 | a paused thread stays blocked for its duration and is ready at exactly one tick more, across any wrap |
| `Scheduler.PickedWithinOneTurn` | src/sched.c:105-146 | on a queue of n threads one that is ready at every probe of every call is picked within n calls, whatever interrupts do to the others during the searches |
| `Scheduler.PickIsUnique` | src/sched.c:121-141 | the pick is determined by the queue, the running thread and the statuses the probes see |
| `Scheduler.PickApproaches` | src/sched.c:121-141 | every pick is a given thread ready throughout or comes strictly nearer to it in cyclic order |
| `Scheduler.SettlesWithinOneTurn` | src/sched.c:121-141 | a search with a thread ready throughout ends within n probes |
| `Scheduler.QuietSearchIff` | src/sched.c:121-141 | a search that no interrupt disturbs ends at the first ready thread strictly after the running one in cyclic order, itself last |
| `Scheduler.AheadIsRemainder` | src/sched.c:121-141 | the k-th thread probed is k places after the running one, modulo the length of the queue |
| `Scheduler.Cpu.Find` | src/sched.c:110-112 | the position of a queued thread |
| `Scheduler.Cpu.PickNext` | src/sched.c:105-146 | the search ends at the first probe that finds its thread ready, and polls on exactly while none does |
| `Scheduler.Cpu.Schedule` | src/sched.c:59-79 | the thread of the first ready probe becomes the only running one; a preempted thread is ready; a blocked one stays blocked unless an interrupt woke it, and nobody else changes; done within one turn of probes if a thread was ready or the caller still running |
| `Scheduler.Cpu.CheckThreadAlarms` | src/sched.c:394-411 | exactly the blocked threads whose alarm rings become ready with the alarm unset; a thread not blocked or with no alarm set keeps status and alarm |
| `RamDisk.PutThenGet` | src/ramfs.c:43-64 | a block reads back as written and no other block changes |
| `RamDisk.BlockBytes` | src/ramfs.c:43-64 | byte k of block b is byte 512 b + k of the image, and writing the block changes exactly those bytes |
| `BufferCache.CacheIsTransparent` | src/bbuf.c:61-247 | from any state representing a disk with nothing unwritable and at least one buffer, every sequence of reads, writes and syncs of existing blocks returns OK, reads return the last data written, no call reaches the PANIC, and after each sync the image is the disk |
| `BufferCache.ReadAgrees` | src/bbuf.c:61-89 | a read panics exactly for a stuck cache; it returns OK exactly when the device has the block and no unwritable buffer blocks a sync it needs, and then with the disk's data |
| `BufferCache.WriteAgrees` | src/bbuf.c:91-107 | a write panics exactly for a stuck cache, otherwise it is a write to the disk; it leaves an unwritable buffer exactly when there was one or the device lacks the block |
| `BufferCache.SyncWritesBack` | src/bbuf.c:135-156 | after a sync only unwritable buffers are dirty; it returns 0 exactly when there were none, and then the image is the disk |
| `BufferCache.SyncReport` | src/bbuf.c:135-156 | a sync returns 0 exactly when the device has the block of every dirty buffer it visits |
| `BufferCache.SyncCounts` | src/bbuf.c:134-156 | what a sync returns is the number of dirty buffers it visits whose block the device lacks |
| `BufferCache.GetDelivers` | src/bbuf.c:179-233 | `get_buffer` delivers a buffer for the block after at most one sync, unless every buffer is dirty with a block the device lacks |
| `BufferCache.FreshCache` | src/bbuf.c:35-59 | a fresh cache represents the blocks of its image |
| `BufferCache.PoisonSpoilsReads` | src/bbuf.c:69-88 | with an unwritable buffer, an existing block not cached before, written and read back, is refused |
| `BufferCache.ForeignWritePoisons` | src/bbuf.c:91-107 | a write to block 7 of a one-block device leaves the cache in that state |
| `BlockDevice.Device.InitBufferCache` | src/bbuf.c:35-59 | the loop builds the initial cache of that many buffers; -1 exactly when `kmalloc` fails before, and then the buffers made so far remain |
| `BlockDevice.Device.FindHit` | src/bbuf.c:187-195 | the forward scan finds the first buffer holding the block |
| `BlockDevice.Device.FindAvailable` | src/bbuf.c:208-221 | the reverse scan finds the last buffer that may be reassigned |
| `BlockDevice.Device.TryGetBuffer` | src/bbuf.c:186-223 | one locked pass has exactly the effect of its function |
| `BlockDevice.Device.FlushEntry` | src/bbuf.c:141-152 | a dirty buffer the device has is written out, clean and off the io list; one it lacks is counted and left |
| `BlockDevice.Device.Walk` | src/bbuf.c:141-154 | the loop over any list of buffers has exactly the effect of its function |
| `BlockDevice.Device.SyncBuffer` | src/bbuf.c:135-156 | the loop has exactly the effect of its function and returns the number of blocks it could not write; with no call under way it returns 0 exactly when no buffer is unwritable, and then the image is the disk |
| `BlockDevice.Device.QueueBuffer` | src/bbuf.c:158-171 | the buffer is at the tail of the io list, once |
| `BlockDevice.Device.ReleaseBuffer` | src/bbuf.c:235-247 | the buffer is at the front of the list and free of its user |
| `BlockDevice.Device.GetBuffer` | src/bbuf.c:179-233 | two passes with a sync between have exactly the effect of their function |
| `BlockDevice.Device.UpdateBuffer` | src/bbuf.c:114-124 | the block is read in, or -1 and no change when the device lacks it |
| `BlockDevice.Device.ReadBuffer` | src/bbuf.c:61-89 | the call has exactly the effect of its function; with no call under way it panics exactly for a stuck cache and returns OK exactly when the device has the block and no unwritable buffer blocks a sync it needs, and then with the disk's data |
| `BlockDevice.Device.WriteBuffer` | src/bbuf.c:91-107 | the call has exactly the effect of its function; with no call under way it panics exactly for a stuck cache and otherwise writes the block of the disk |
| `ConcurrentCache.BuffersAreOwned` | src/bbuf.c:179-247 | in every interleaving no two buffers in use hold one block, BUSY means having a user, no two threads hold one buffer, and the ASSERTs on releasing, reading in and writing out never fire |
| `ConcurrentCache.ReassignsOldestIdle` | src/bbuf.c:208-221 | a buffer given to a new block was idle and clean, and of all such buffers the one released longest ago |
| `CacheHistory.StampIsLastRelease` | src/bbuf.c:235-247 | the age of a buffer is the number of its last release among all releases |
| `ConcurrentCache.ReadsSeeLatestWrite` | src/bbuf.c:61-107 | in every interleaving that loses no write a read about to return OK returns the block as the last completed copy left it, and -1 only for a block the device lacks |
| `CacheHistory.CallsAreServed` | src/bbuf.c:61-107 | in every interleaving a thread is outside again only after its latest call was answered, and it is answered once, for the block and with the data of that call |
| `CacheHistory.OutsideAfterAnswer` | src/bbuf.c:61-107 | between any call and the next time its thread is outside there is the step that answers it, and right after it a write is on the disk |
| `CacheHistory.DiskIsHistory` | src/bbuf.c:91-107 | the disk is what the copies made so far leave, each with the block and data of its call; it is a function of the calls alone |
| `CacheHistory.ReadsReturnHistory` | src/bbuf.c:61-107 | in every interleaving that loses no write a read returns OK with what those copies left in the block it asked for, and -1 only for a block the device lacks |
| `CacheHistory.FailsOnlyPoisoned` | src/bbuf.c:69-88 | a sync counts a failure and a read is refused with -2 only while a buffer is dirty with a block the device lacks |
| `CacheHistory.CallGoesOn` | src/bbuf.c:61-247 | no call gets stuck: with the device lock free every thread in a call has a next step, which brings the call nearer to its end, begins the sync it needs, or finds the buffer busy |
| `CacheHistory.SyncGoesOn` | src/bbuf.c:135-156 | a sync under way always has a next step, and each visits a buffer, clears one or ends the sync |
| `CacheHistory.SyncBringsOn` | src/bbuf.c:72-75 | the end of a sync brings the call that needed it nearer to its end |
| `CacheHistory.TornCopyReachesDevice` | src/bbuf.c:97-104 | a copy half way is in the buffer, and a sync that comes to it then puts it on the device |
| `ConcurrentCache.SyncIsDurable` | src/bbuf.c:135-156 | a sync without failures leaves every block on the device as last written, except blocks being written |
| `ConcurrentCache.ClearIsSoundIff` | src/bbuf.c:143-148 | clearing DIRTY keeps the data invariant exactly when the buffer has not changed since it was written to the device or its writer has still to set DIRTY |
| `ConcurrentCache.LossNeedsOverlap` | src/bbuf.c:97-104 | a write is lost only between setting DIRTY and queueing the buffer |
| `ConcurrentCache.NoOverlapNoLoss` | src/bbuf.c:91-156 | a run in which no sync clears DIRTY between a writer's setting it and queueing the buffer loses no write |
| `ConcurrentCache.PanicsIff` | src/bbuf.c:186-233 | the second pass ends in the PANIC exactly when no buffer holds the block and every buffer is busy or dirty |
| `LostWrites.ObservableIffLosesWrite` | src/bbuf.c:61-156 | in every sound state, a clear of DIRTY can be followed, without another loss, by a read that returns OK with data that is not the last written, exactly when the buffer changed since it was written to the device |
| `LostWrites.LossIsObservable` | src/bbuf.c:61-156 | the run to such a read: the sync ends, the writer queues and releases its buffer, other reads push the buffer out if it is VALID, and the block is read in |
| `LostWrites.EvictAndRead` | src/bbuf.c:61-89 | an idle clean buffer is pushed out by finitely many reads of other blocks, and the next read returns what the device has |
| `LostWrites.OverlapReachesLoss` | src/bbuf.c:91-156 | two threads on a fresh cache of one buffer reach a losing clear without a loss before |
| `LostWrites.OverlappedSyncLosesWrite` | src/bbuf.c:91-156 | so there is a run from a fresh cache after which a read returns OK with older data than the last completed write |
| `LostWrites.HeldBufferPanics` | src/bbuf.c:179-233 | a run of two readers on one buffer that ends in the PANIC although the device has both blocks |
| `BufferWait.OneHolder` | src/bbuf.c:187-247 | in every interleaving at most one thread holds the buffer |
| `BufferWait.WakeableIffAttended` | src/bbuf.c:187-285 | the first waiter can still be woken without a further call exactly when somebody holds the buffer, is about to notify, or was woken and is about to look again |
| `BufferWait.AttendedUntilAbandoned` | src/bbuf.c:187-285 | a step ends that state exactly when it queues a waiter while nobody is on the way |
| `BufferWait.NeverStranded` | src/bbuf.c:187-285 | in a run without such a step the first waiter can always be woken |
| `BufferWait.NobodyComes` | src/bbuf.c:187-285 | with nobody on the way every waiter stays blocked until there is a new call |
| `BufferWait.WokenInOrder` | src/bbuf.c:249-285 | those queued are those woken, in order, and those still queued |
| `BufferWait.WakeUpLost` | src/bbuf.c:187-285 | a run of two threads in which the second goes to sleep on a buffer already free and cannot be woken without a new call |
| `BufferWait.WakeUpKept` | src/bbuf.c:187-285 | a run in which the waiter is queued in time, woken, and gets the buffer |
| `ConcurrentCache.StepKeepsOwn` | src/bbuf.c:61-247 | every step of every thread keeps the ownership invariant |
| `ConcurrentCache.StepKeepsData` | src/bbuf.c:61-247 | every step but a losing one keeps the data invariant |
| `ConcurrentCache.WriteThenClearIsFlush` | src/bbuf.c:143-148 | the two steps of a sync on one buffer, uninterrupted, are the sequential flush |
| `Bits.PageOf` | include/mm.h:10-10 | the mask clears the offset within the page |
| `Bits.PageAlign` | include/mm.h:11-11 | the next page boundary, or 0 exactly above 0xFFFFF000 |
| `PageTables.PdeIndex` | include/paging.h:34-34 | the virtual page number divided by 1024 |
| `PageTables.PteIndex` | include/paging.h:35-35 | the virtual page number modulo 1024 |
| `PageTables.Entry` | src/mm.c:318-327 | the low three bits are set, PAGE_PRESENT, PAGE_WRITE and PAGE_USER, and all others are those of the address |
| `PageTables.EntryGrants` | src/mm.c:318-327 | the entry of a page is its address plus 7 and grants writing and user access |
| `PageTables.VirtToPhysTranslates` | include/paging.h:97-100 | on a mapped page the macro gives the physical page with the address's offset |
| `PageTables.MapUpdatesFlat` | src/mm.c:309-332 | with a table present, or a page not in use for a new one, mapping is the update of the flat map at its own page and no two directory entries share a table |
| `PageTables.MapGrants` | src/mm.c:309-332 | mapping grants every right on its own page, by both entries of the walk, and changes the rights on no other page |
| `PageTables.SharedTableIff` | src/mm.c:315-327 | if the page for the new table is already a table, two entries share it, and the flat map is right exactly when the old row was this one mapping |
| `PageTables.TwoNullsLoseMapping` | src/mm.c:315-327 | two mappings without a free frame: the second removes the first |
| `PageTables.SharingStays` | src/mm.c:309-332 | once two entries share a table no mapping undoes it |
| `PageTables.NullInUse` | src/mm.c:315-327 | page 0 is a table afterwards exactly when it was one, or a table was needed and no frame could be had |
| `PageTables.UnmapRemovesOwn` | src/mm.c:334-346 | unmapping an address with a table removes its own page and no other |
| `PageTables.UnmapKeepsRights` | src/mm.c:334-346 | and changes the rights on no other page |
| `PageTables.UnmapWithoutTableIff` | src/mm.c:334-346 | without a table, nothing else is unmapped exactly when page 0 is not a table with that entry present |
| `PageTables.MapThenUnmap` | src/mm.c:309-346 | mapping and unmapping leaves every other translation as it was |
| `AddressSpace.Space.NewFrame` | src/mm.c:316-316 | the frame is no table of the directory, from the allocator's disjointness; nothing exactly when none is free |
| `AddressSpace.Space.TableFor` | src/mm.c:313-323 | the table of the entry, or a new one at the frame obtained, at page 0 when there is none |
| `AddressSpace.Space.PageMap` | src/mm.c:309-332 | on any directory: the flat map is updated and every right granted at its own page, and at no other, when a table is there, a frame is free, or page 0 is not yet a table; exactly then the directory stays well formed; frames used and page 0 becoming a table are exact |
| `AddressSpace.Space.PageUnmap` | src/mm.c:334-346 | with a table its own page is removed and the rights on others stay; without one nothing changes exactly when page 0 is not a table with that entry present |
| `BootMap.MappedIsInjectiveIff` | src/mm.c:255-282 | for disjoint ranges without overflow, the physical pages mapped are distinct and above kernel space exactly when no available range starts above 0xFFFFF000 |
| `BootMap.HighRangeStartsAtZero` | src/mm.c:272-279 | a range that starts above 0xFFFFF000 is mapped from physical page 0 |
| `BootMap.HighRangeRemapsPageZero` | src/mm.c:255-282 | with such a range anywhere in the memory map, page 0 is mapped again |
| `BootMap.MappedInside` | src/mm.c:261-279 | every page mapped lies wholly inside an available range and the virtual address does not wrap |
| `BootMap.PagesExact` | src/mm.c:261-279 | exactly the whole pages of a range from the current virtual address on are taken |
| `BootMap.MappedExact` | src/mm.c:255-282 | with the ranges in order of address exactly the whole pages of available memory from K_SPACE_END on are mapped |
| `BootMap.OutOfOrderSkips` | src/mm.c:260-282 | two ranges out of order of which the lower one is left out |
| `BootMap.SortedGiveWholeMemory` | src/mm.c:228-282 | then the physical pages of the finished map are kernel space and all of available memory |
| `BootMap.BootIsInjectiveIff` | src/mm.c:228-282 | for disjoint ranges without overflow the finished flat map, wrapped overwriting included, has no physical page twice exactly when no available range starts above 0xFFFFF000 |
| `BootMap.BootStep` | src/mm.c:273-279 | one mapped page keeps the count of tables, frames and whether page 0 is a table, and the flat map |
| `BootMap.AddedCount` | src/mm.c:309-323 | n pages above kernel space need one table per 1024 |
| `BootMap.PlacedIsBootFlat` | src/mm.c:273-279 | without wrapping, the pages lie one after the other above kernel space, which keeps its own |
| `BootMap.GoodRangesGiveGoodMap` | src/mm.c:228-282 | with ranges as the kernel assumes them the flat map maps kernel space to itself, then pages of the ranges without a gap, none twice |
| `BootMap.IdentityEntries` | src/mm.c:243-252 | the inner loop writes page + 7 for each of the 1024 pages of one table |
| `BootMap.MapKernelSpace` | src/mm.c:228-253 | with four free frames kernel space is mapped to itself with every right and nothing else is mapped; otherwise the PANIC |
| `BootMap.MapRange` | src/mm.c:262-281 | whatever the range and the frames left: the pages of one range follow the pages mapped so far, at wrapping virtual addresses |
| `BootMap.MapRanges` | src/mm.c:255-282 | whatever the memory map and the frames left: the pages of all ranges are mapped at consecutive virtual pages, exactly as long as at most one table too many is needed |
| `BootMap.InitPaging` | src/mm.c:228-282 | for every memory map: the PANIC exactly with fewer than four frames; otherwise the flat map is the kernel space followed by the pages of the ranges, every mapped page with every right, exactly when at most one table more is needed than frames are there; with disjoint ranges that neither overflow nor start in the last page, one table per 1024 pages is used, every other mapped page is available memory and no physical page is mapped twice; with the ranges in order too, all of available memory is mapped |
| `ListRing.InitHead` | include/list.h:60-64 | a ring of the head alone |
| `ListRing.Insert` | include/list.h:73-80 | the node is linked both ways between its neighbours |
| `ListRing.Add` | include/list.h:94-97 | the sequence with the node first |
| `ListRing.AddTail` | include/list.h:107-110 | the sequence with the node last |
| `ListRing.Unlink` | include/list.h:119-135 | the sequence without the entry |
| `ListRing.Delete` | include/list.h:137-142 | the sequence without the entry, whose pointers are poisoned |
| `ListRing.Move` | include/list.h:185-189 | the entry leaves its ring and is first on the other, or on the same one |
| `ListRing.MoveTail` | include/list.h:196-201 | the entry leaves its ring and is last on the other, or on the same one |
| `ListRing.CutPosition` | include/list.h:265-304 | the entries up to the given one are on the new list in order and the rest on the old; a list without entries changes nothing |
| `ListRing.Splice` | include/list.h:306-329 | the spliced entries come first, then the old ones |
| `ListRing.CutThenSplice` | include/list.h:265-329 | cutting at any entry and splicing back restores the ring, except exactly when the list had no entries and the new list had some |
| `ListRing.SafeSweep` | include/list.h:551-555 | deleting any subset of the entries while walking visits every entry once in order and leaves exactly the others |
| `NumberFormat.ParseRender` | src/printk.c:83-165 | for every value, base, width, precision and flags the text reads back as the value, signed or unsigned as asked for |
| `NumberFormat.RenderLength` | src/printk.c:109-161 | the length is the larger of the width and sign + prefix + larger of digits and precision; at most 32 digits |
| `NumberFormat.WrittenIsRenderIff` | src/printk.c:109-162 | the text written is as it must look exactly when the padding is representable and stays so while the loops count it down, or wraps to no padding |
| `NumberFormat.LeastWidthPads` | src/printk.c:109-137 | a one-digit number in a field of width -2^31 comes out with 2^31 characters |
| `NumberFormat.DigitsDecode` | src/printk.c:119-126 | the digits decode to the number |
| `NumberFormat.NumeralShape` | src/printk.c:87-92 | a numeral has digits of the base, small letters exactly with SMALL, and no leading zero |
| `NumberFormat.NumeralUnique` | src/printk.c:87-126 | every such string is the numeral of its value |
| `NumberFormat.RenderPieces` | src/printk.c:93-162 | the text piece by piece for every combination of flags: spaces, sign, prefix in the letters asked for, zeros, numeral, spaces, with how many of each |
| `NumberFormat.FewDigits` | src/printk.c:119-126 | a number below 2^k has at most k digits |
| `NumberFormat.Number` | src/printk.c:83-165 | for every value, base, int width, int precision and flags: NULL exactly for a base outside 2..36, otherwise what the wrapping counters write, which is the rendering exactly when the padding fits |
| `NumberFormat.FillDigits` | src/printk.c:119-126 | the division loop leaves the digits in reverse, between 1 and 32 of them |
| `NumberFormat.Pad` | src/printk.c:134-136 | exactly that many characters, and what the loop leaves in its counter |
| `NumberFormat.SizeLeft` | src/printk.c:109-118 | what is left to pad after sign and prefix, modulo 2^32 |
| `NumberFormat.ChooseSign` | src/printk.c:102-107 | the sign character and the unsigned word to print, also for the least int |
| `NumberFormat.Emit` | src/printk.c:133-162 | the three padding loops and the digit loops write the padded text, the shared counter wrapping |
| `NumberFormat.SkipAtoi` | src/printk.c:59-68 | exactly the leading digits are consumed and their value is kept modulo 2^32 |
| `NumberFormat.AtoiRoundTrip` | src/printk.c:59-68 | the decimal form of a non-negative int before any non-digit is read back |

## Left out

- Scheduler.Cpu.PickNext: the run queue does not change during one search, the statuses the probes see are a parameter, and first scheduling and thread exit are not modelled.
- BlockDevice.Device.GetBuffer: a busy buffer is the outcome `Waits`; in `ConcurrentCache` such a thread tries again, and sleeping on the buffer is `BufferWait`.
- BlockDevice.Device.ReadBuffer: a busy buffer is the outcome `Waits`, as for `GetBuffer`.
- BlockDevice.Device.WriteBuffer: a busy buffer is the outcome `Waits`, as for `GetBuffer`.
- BootMap.InitPaging: the page-frame manager and the high memory set up afterwards are not modelled.
- NumberFormat.Number: output goes to a sequence, not a bounded buffer, and `vsprintf` around it is not modelled.
- BufferWait.WakeableIffAttended: the buffer keeps its block while threads wait for it; waiters of a buffer given to another block are not modelled.
- ListRing.CutPosition: `entry` is on the list, as its comment demands.
- Interrupt flags and preemption nesting, port I/O, APIC, GDT and IDT, RTC, console, boot code and context switching: hardware effects.
- `__pick_processor_fsr` and load placement, task creation and exit, demo threads.
- MP table parsing, ELF symbols, the IDE driver, device lookup by name and string functions.
- Logging and panic output.
