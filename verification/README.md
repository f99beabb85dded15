# Formal model of the kernel's hard parts

These Dafny modules model the memory allocators, the blocking objects, the scheduler and the
formatter of the RT-Thread 4.1.1 kernel in this repository, for one 32-bit core, together with the
frequency-list parser of the simplified AT layer and the page-splitting flash writer, and prove
what they promise. `dafny verify dfyconfig.toml` checks everything.

## How it is built

- `HeapTiling` is the specification that both heaps refine: a pool is cut into blocks without gaps
  or overlaps, and a tiling without free neighbours is determined by its used blocks. So an
  operation is specified by what it does to the set of used blocks.
- `SmallMem` and `MemHeap` are the two heaps as classes over an array of cells in which the headers
  lie between the data, one cell per byte, a header word in the cell of its first byte. `Valid()`
  ties cells, links and counters to the tiling. `HeapRun` runs either heap through any sequence of
  operations and proves that to its callers it is a map from addresses to byte strings.
  `AlignedAlloc` and `MemOps` are the aligned allocation and the block copies on top and below.
  `RtList` is the intrusive circular list, whose insertion and removal lemmas also serve the two
  rings of the memheap.
- `IpcList` is the suspend list; `Semaphore`, `Mutex`, `Event`, `Mailbox` and `MemPool` have an
  abstract step for each section that runs with interrupts disabled, theorems over all runs of
  those steps, and a class whose methods do the steps in place. Lemmas called `...Answers` say what
  each call answers and changes in terms of the state before it, without the steps. `Rendezvous` is the waiting
  protocol that mailbox and memory pool share. `MqStore` is the node pool of the message queue and
  `MessageQueue` its protocol, in which a node is off every list while it is copied with interrupts
  enabled; `MqRefine` carries the protocol out on the node pool.
- `Bits` has bitwise operations on naturals and both find-first-set variants; `Scheduler` the ready
  queue, the choice of the thread to run and the thread calls that change it.
- `Numbers` and `Format` are the formatter, `FreqList` the frequency list, `FlashWrite` the page
  writer, `Arith` facts about division.

Configuration: four-byte alignment, no memory tracing, precision enabled and the `0x` prefix
disabled in the formatter, no 64-bit formatting, first-fit memheap, 32 priorities (the two-level
index of 256 priorities is proved separately). Memheap, memory pool, mailbox and the flash driver
are modelled as if enabled.

## What turned out not to hold

Each has a lemma that shows it and, where there is one, the exact condition.

- Rounding a size up wraps to zero for the last three 32-bit sizes. An allocation of one of them is
  served with a request for the minimum (`SmallMem.RequestMet`, `MemHeap.GrantedSize`); the memheap
  takes a resize to one of them for a resize to twelve bytes.
- Resizing a block of the small heap to one of these sizes gives the block back and returns null,
  as if there were no room (`SmallMem.SmallMem.Realloc`, `SmallMem.RoundsToZero`).
- The small heap refuses to make a block slightly smaller when no other block is free for it
  (`SmallMem.SmallerIsRefused`); it also does not raise the new size to the minimum.
- The memheap refuses a request for exactly all its free bytes (`MemHeap.RefusedThoughItFits`), and
  its test for growing in place wraps from 2^32 - 12 bytes on. Next to a used block that is harmless;
  next to a free one the test says yes and a header is overwritten (`MemHeap.GrowTestIsRight`,
  `MemHeap.WrappedGrowth`).
- An aligned allocation asks the heap for too little when size plus alignment wraps
  (`AlignedAlloc.AskedForEnough`).
- A message queue for messages of more than 65532 bytes has nodes that are too small, because their
  size is kept in sixteen bits (`MqStore.MsgSize`).
- Yielding rotates the threads of one priority only if there are at most two
  (`Scheduler.Scheduler.Yields`), because the yield mark is cleared before the thread is inserted
  again.
- A thread that yields while nobody else is ready keeps its yield mark, so it later makes way for the
  first equal that becomes ready (the clause about `yielding` of `Scheduler.Scheduler.Schedule`).
- The owner of a mutex keeps a priority it was lent when the wait of the lender runs out, until it
  releases (`Mutex.OwnersPriority`).
- Octal output is hexadecimal, so right only below eight, and precision zero loses the digits of
  every number (`Numbers.OctalIsHex`, `Numbers.ZeroPrecisionLosesTheNumber`); a string is cut by its
  width.
- The frequency parser accepts an input of commas and white space as an empty list
  (`FreqList.CommasAlone`), and a list within the 400 MHz band is refused when only some of it lies
  in the band inside it (`FreqList.BandInsideBand`).

Where code and comments differ, the model follows the code: the formatter returns the unbounded
length and not the number of characters written, the second band ends at 440 MHz and not at 480,
the mutex orders its waiters by priority whatever flag it was given, and the `prev` offset of the
small heap's end sentinel is stale, so nothing is claimed about it.

## Model

| member | source | states |
|---|---|---|
| HeapTiling.Canonical | rt-thread/src/mem.c:125-163 | Two tilings without free neighbours that have the same used blocks are equal: coalescing leaves the order of frees no influence. |
| HeapTiling.AllFreedRestores | rt-thread/src/mem.c:125-163 | When no block is used any more, the tiling is the single free block of a new heap. |
| HeapTiling.SplitFacts | rt-thread/src/mem.c:338-369 | Cutting a block keeps the tiling and changes used span, free data and used blocks by exactly the two parts. |
| HeapTiling.JoinFacts | rt-thread/src/mem.c:125-163 | Merging two free neighbours keeps the tiling and the used blocks and wins back one header of free data. |
| HeapTiling.ExtendFacts | rt-thread/src/memheap.c:437-488 | A used block that takes in its free neighbour exchanges one used block for the longer one. |
| HeapTiling.GrantedApart | rt-thread/src/mem.c:488-500 | A newly granted block is none of the used ones and overlaps none of them. |
| HeapTiling.MoveConclude | rt-thread/src/mem.c:488-507 | Allocate, copy, free together exchange the old block for the new one, carry the bytes over and leave all other data alone. |
| SmallMem.RtAlign | rt-thread/include/rtdef.h:354 | Rounding up to four is the least multiple not below the size, except that it wraps to zero for the last three sizes. |
| SmallMem.Need | rt-thread/src/mem.c:303-313 | What is searched for is aligned, at least the minimum, and at least the request unless the rounding wraps. |
| SmallMem.SmallMem.constructor | rt-thread/src/mem.c:206-239 | A new heap is one free block with both headers in place, nothing used. |
| SmallMem.SmallMem.Init | rt-thread/src/mem.c:178-244 | The control block stands at the first aligned address of the given range and the heap right behind it, wasting less than four bytes at the end, or the range is too small: exactly when it cannot hold them and two headers. |
| SmallMem.SmallMem.Absorb | rt-thread/src/mem.c:137-162 | One merge writes the headers so that memory and tiling agree again, moves `lfree` if it pointed at the absorbed block, and touches no live data. |
| SmallMem.SmallMem.PlugHoles | rt-thread/src/mem.c:125-163 | After a block became free, no two neighbours are both free; used blocks, their span and their data are unchanged, `lfree` is the lowest free block. |
| SmallMem.SmallMem.Search | rt-thread/src/mem.c:304-316 | Starting at `lfree` and stopping early still finds the lowest free block that is large enough, or there is none. |
| SmallMem.SmallMem.Alloc | rt-thread/src/mem.c:279-407 | Null exactly for size zero or when every free block is too small, with nothing changed; otherwise the lowest free block that is large enough, at an aligned address inside the heap. Exactly one block more is in use; it has at least the size searched for and less than a smallest block more. `used` grows by size and header when the block could be cut, by the whole block otherwise; `max` is the running maximum of `used`, and no live data changes. |
| SmallMem.SmallMem.AdvanceLowest | rt-thread/src/mem.c:378-391 | Walking up from the block just taken ends at the lowest free block, or at the end. |
| SmallMem.SmallMem.Free | rt-thread/src/mem.c:516-560 | Exactly the block at that address stops being used, the invariant holds again, `used` falls by its length, all other data is kept; null is ignored. |
| SmallMem.SmallMem.Store | rt-thread/src/mem.c:393-403 | Writing inside an allotted block disturbs neither headers nor any other block. |
| SmallMem.SmallMem.Shrink | rt-thread/src/mem.c:453-486 | Cutting a tail off leaves the shorter used block, gives the rest back merged with a free neighbour, and keeps all live data. |
| SmallMem.SmallMem.Move | rt-thread/src/mem.c:488-507 | Moving fails exactly when no free block fits, with nothing changed; otherwise the block is exchanged for the first fit, the smaller of both sizes is carried over, and `max` rises to what is used while both blocks are held, if that is more. |
| SmallMem.RoundsToZero | rt-thread/include/rtdef.h:354 | A size rounds to zero if and only if it is zero or above 2^32 - 4. |
| SmallMem.NeedIsLeast | rt-thread/src/mem.c:303-308 | What is searched for is the least aligned size that holds the request and a smallest block. |
| SmallMem.LowestFit | rt-thread/src/mem.c:318-328 | The block taken is the lowest of the free blocks that are large enough. |
| SmallMem.GrantedSize | rt-thread/src/mem.c:330-376 | The block granted has at least the size searched for and less than a smallest block with its header more: exactly that size when the free block can be cut, all of it otherwise. |
| SmallMem.MoveServes | rt-thread/src/mem.c:488-507 | A resize that moves the block takes as little: besides the old block, exactly one block of that size is new. |
| SmallMem.SmallMem.Realloc | rt-thread/src/mem.c:422-507 | For every address and size: which block remains where, that the first bytes are kept, that the data of every other live block is unchanged, every value `used` takes on and `max` exactly; a block that moves becomes no larger than an allocation would make it, one that stays is exactly as long as asked for; a null result gives the block back if and only if the size is zero or above 2^32 - 4, and leaves the heap as it was otherwise. |
| SmallMem.FreeChecks | rt-thread/src/mem.c:534-541 | The assertions about pool pointer and used bit before a free hold of every used block. |
| SmallMem.FreeUndoesAlloc | rt-thread/src/mem.c:333-391 | Freeing what was just allocated restores the very same tiling, whether the block had been split or not. |
| SmallMem.RequestMet | rt-thread/src/mem.c:303-320 | The granted block holds the requested bytes if and only if the size is at most 2^32 - 4. |
| SmallMem.SmallerIsRefused | rt-thread/src/mem.c:448-493 | A request for fewer bytes is refused if and only if it spares at most 24 of them and no free block is as large as the request. |
| SmallMem.SmallerMayBeRefused | rt-thread/src/mem.c:448-493 | It happens: a concrete heap in which 100 bytes cannot be cut to 96. |
| SmallMem.LowestUnique | rt-thread/src/mem.c:146-160 | `lfree` is determined by the tiling. |
| HeapRun.Run | rt-thread/src/mem.c:279-560 | After any sequence of allocations, resizings, releases and writes by the owners the heap is in order, every result is what callers rely on, the memory holds byte for byte what they see, and `max` is the largest value `used` ever had; with nothing outstanding it is the heap it started as. |
| HeapRun.DataStays | rt-thread/src/mem.c:279-560 | In every run, a block that nobody releases, resizes or writes to keeps its address and every byte, whatever happens in between. |
| MemOps.MemCpy | rt-thread/src/kservice.c:260-331 | By words and by bytes alike, the bytes arrive unchanged and nothing else changes, for areas that are apart or of which the destination is the lower one. |
| MemOps.MemMove | rt-thread/src/kservice.c:346-366 | The bytes arrive unchanged and nothing else changes, however the areas overlap. |
| AlignedAlloc.MoveUp | rt-thread/src/kservice.c:1674-1690 | Moving up to the next multiple of the alignment moves at least a word and at most the alignment. |
| AlignedAlloc.TotalIs | rt-thread/src/kservice.c:1669-1676 | What is asked of the heap is the aligned size, the alignment and no more, where the alignment counts for at least a word. |
| AlignedAlloc.MallocAlign | rt-thread/src/kservice.c:1661-1697 | Null exactly when the heap has no block for size plus alignment; otherwise the address is a multiple of the alignment, `size` bytes from it and the word below it lie in the block, and that word holds the block address. |
| AlignedAlloc.AskedForEnough | rt-thread/src/kservice.c:1669-1676 | In 32-bit arithmetic the heap is asked for enough if and only if the rounded size and alignment have a sum that fits; exactly the sums that do not fit are excluded from the rows around this one. |
| AlignedAlloc.FreeAlign | rt-thread/src/kservice.c:1707-1716 | Exactly the block that the address was carved from is given back. |
| AlignedAlloc.RoundTrip | rt-thread/src/kservice.c:1661-1716 | Allocating aligned and freeing restores tiling, `used` and `lfree`. |
| RtList.InsertRing | rt-thread/include/rtservice.h:58-65 | Inserting behind a node turns a ring into the ring with the node inserted there. |
| RtList.RemoveRing | rt-thread/include/rtservice.h:87-93 | Unlinking a node turns a ring into the ring without it. |
| RtList.ListNodes.InsertAfter | rt-thread/include/rtservice.h:58-65 | The list gains the node right behind the given one; nodes outside the list are untouched. |
| RtList.ListNodes.InsertBefore | rt-thread/include/rtservice.h:73-80 | The list gains the node right before the given one, which for the head means at the end. |
| RtList.ListNodes.Remove | rt-thread/include/rtservice.h:87-93 | The node becomes a list of its own and the others stay a list in the same order. |
| RtList.ListNodes.IsEmpty | rt-thread/include/rtservice.h:99-102 | True exactly if the head is alone. |
| RtList.ListNodes.Len | rt-thread/include/rtservice.h:108-119 | The walk terminates and counts the nodes other than the head. |
| RtList.OtherRing | rt-thread/include/rtservice.h:58-93 | Lists that share no node with the one changed are still the same lists. |
| MemHeap.MemHeap.constructor | rt-thread/src/memheap.c:74-151 | A new pool is one listed free block and the used tail, with both rings in place and the counters of an empty pool. |
| MemHeap.MemHeap.Search | rt-thread/src/memheap.c:230-243 | The walk along the free list ends at its first entry that is large enough, or no free block is. |
| MemHeap.MemHeap.TakeSplit | rt-thread/src/memheap.c:251-304 | Block ring, free ring and marks describe the cut tiling again; the rest stands first on the free list. |
| MemHeap.MemHeap.Alloc | rt-thread/src/memheap.c:183-346 | Null exactly when the request is not below the available size or no free block fits, with nothing changed; otherwise the first listed fit is granted, all invariants hold, the rest of a cut block stands first on the free list, `max_used_size` is the running maximum, and live data is kept. |
| MemHeap.MemHeap.UnlinkBlock | rt-thread/src/memheap.c:41-49 | The block ring loses one block to its left neighbour, the rest of the ring, the free ring and live data stay. |
| MemHeap.MemHeap.UnlinkFree | rt-thread/src/memheap.c:41-49 | The free ring loses one entry; the order of the others stays. |
| MemHeap.MemHeap.MergeLeft | rt-thread/src/memheap.c:647-667 | A freed block vanishes in a free left neighbour, which is listed already; available size equals the free data again. |
| MemHeap.MemHeap.MergeRight | rt-thread/src/memheap.c:669-690 | A free right neighbour is taken in and leaves the free list; afterwards no neighbours are both free. |
| MemHeap.MemHeap.Free | rt-thread/src/memheap.c:597-727 | Exactly the block at that address stops being used, the free list changes as merging and listing at its front say, all invariants hold again, all other data is kept; null is ignored. |
| MemHeap.MemHeap.MagicChecks | rt-thread/src/memheap.c:617-628 | The magic numbers checked before a free are in place. |
| MemHeap.MemHeap.Grow | rt-thread/src/memheap.c:411-488 | A used block takes the front of its free neighbour: one used block is exchanged for the longer one, the counters match, its old data and all other data are kept. |
| MemHeap.MemHeap.Shrink | rt-thread/src/memheap.c:511-581 | The tail of a used block is given back, merged with a free neighbour and listed; available size equals the free data again. |
| MemHeap.MemHeap.Store | rt-thread/src/memheap.c:325-333 | Writing inside an allotted block disturbs neither headers nor lists nor any other block. |
| MemHeap.MemHeap.Realloc | rt-thread/src/memheap.c:361-588 | For every address and every size, except growth whose test wraps next to a free block: when the block stays, grows in place or moves, what is then in use, every amount in use meanwhile and `max_used_size` exactly, that its first bytes are kept, that other live data is unchanged, and that null for a non-zero size leaves the pool as it was. |
| MemHeap.FreeUndoesAlloc | rt-thread/src/memheap.c:245-320 | Freeing what was just allocated restores the very same tiling. |
| MemHeap.RefusedThoughItFits | rt-thread/src/memheap.c:200-243 | A request that some free block could serve is refused if and only if it asks for exactly all free bytes. |
| MemHeap.WholePoolRefused | rt-thread/src/memheap.c:200 | A new pool never gives out its one block whole. |
| MemHeap.GrowTestIsRight | rt-thread/src/memheap.c:430 | For a block of at least the smallest size the 32-bit test for room behind it is right if and only if the rounded size plus twelve fits in 32 bits; otherwise it says yes. |
| MemHeap.WrappedGrowth | rt-thread/src/memheap.c:430-480 | Where it is wrong, the header of the supposed rest is written four, eight or twelve bytes below the data of the block, inside its own header. |
| MemHeap.NoRoomButGrows | rt-thread/src/memheap.c:430 | It happens: twelve bytes are to become 2^32 - 4 with twelve bytes free behind them. |
| MemHeap.GrantedSize | rt-thread/src/memheap.c:197-310 | A granted block holds the request unless its rounding wrapped, and wastes less than a smallest block with its header: nothing when the free block can be cut, the rest of which then goes to the front of the free list. |
| MemHeap.FirstListedIs | rt-thread/src/memheap.c:204-243 | Of the free blocks that are large enough, the one listed first is taken. |
| MemHeap.RelistedIs | rt-thread/src/memheap.c:640-710 | A freed block stands first on the free list afterwards unless its left neighbour was free, which then keeps its place; a right neighbour that was free is gone from the list, all others keep their order. |
| MemHeap.ExchangedSize | rt-thread/src/memheap.c:361-588 | However it is resized, a block ends up with at least the size asked for and at most a smallest block with its header more, and it moves if and only if it has to grow and no free block with room for that stands behind it. |
| HeapRun.RunMemHeap | rt-thread/src/memheap.c:183-727 | After any sequence of allocations, resizings (of null, too), releases and writes all invariants hold, every result is what callers rely on, the pool holds byte for byte what they see, no block is smaller than twelve bytes, and `max_used_size` is the largest amount ever in use; with nothing outstanding, blocks, free list and available size are those of a new pool. |
| HeapRun.Exchanged | rt-thread/src/memheap.c:361-588 | Whichever way a block is resized, it is exchanged for one block that overlaps no other, and all bytes that fit into both are the same. |
| MemPool.MemPool.constructor | rt-thread/src/mempool.c:89-137 | Block size is rounded to four, as many blocks as fit with their link words are chained in address order, and all are counted free. |
| MemPool.MemPool.TakeFirst | rt-thread/src/mempool.c:391-400 | The first free block leaves the chain, lies inside the pool, and its link word names the pool. |
| MemPool.MemPool.Alloc | rt-thread/src/mempool.c:335-407 | A block is handed out exactly when one is free, the free count is the length of the chain, only one word is written, and otherwise the thread gives up or sleeps in front of the waiting list. |
| MemPool.MemPool.Free | rt-thread/src/mempool.c:415-464 | The block returns to the front of the chain, and one sleeper is woken if there is one. |
| MemPool.LiveApart | rt-thread/src/mempool.c:112-130 | The data of two blocks do not overlap and no link word lies in them. |
| IpcList.EnqueueInserts | rt-thread/src/ipc.c:122-171 | A thread is inserted at one place: at the end, or before the first less urgent waiter and behind its equals. |
| IpcList.EnqueueSorted | rt-thread/src/ipc.c:139-163 | A list ordered by priority stays ordered. |
| IpcList.EnqueueOrder | rt-thread/src/ipc.c:131-163 | Two who wait keep their order when somebody joins. |
| IpcList.WithoutOrder | rt-thread/src/ipc.c:191-211 | Two who wait keep their order when somebody else leaves. |
| IpcList.SuspendPlace | rt-thread/src/ipc.c:139-163 | The walk ends at that place. |
| IpcList.SuspendInsert | rt-thread/src/ipc.c:122-171 | The insertion loop computes that insertion. |
| IpcList.WithoutSorted | rt-thread/src/ipc.c:191-211 | Taking a thread out keeps the order of the others. |
| Semaphore.StepKeeps | rt-thread/src/ipc.c:484-654 | Each call keeps: nobody waits while a unit is there; units are neither lost nor made up; a release is refused only with a full counter and no waiter. |
| Semaphore.TakeAnswers | rt-thread/src/ipc.c:484-568 | A take succeeds if and only if there is a unit, gives up if and only if there is none and it may not wait, and sleeps otherwise, last in line under first come, first served. |
| Semaphore.ReleaseAnswers | rt-thread/src/ipc.c:606-654 | A release hands the unit to the first waiter, of whom none is more urgent if the flag says so; without waiters it is counted, or refused if and only if the counter is full. |
| Semaphore.NobodyOvertakes | rt-thread/src/ipc.c:484-654 | Whatever happens, of two who wait the one in front stays in front and is released first. |
| Semaphore.RunTheorem | rt-thread/src/ipc.c:484-654 | Over any run, final value plus units handed out is initial value plus units released, and waiters mean that all of them are out. |
| Semaphore.SemaphoreObject.Take | rt-thread/src/ipc.c:484-568 | The section does that step on the object. |
| Semaphore.SemaphoreObject.Release | rt-thread/src/ipc.c:606-653 | The section does that step on the object. |
| Mutex.TakeKeeps | rt-thread/src/ipc.c:942-1043 | Taking keeps the invariant (value 1 exactly without owner, holds and waiters; owner never waits and is at least as urgent as every waiter; all others have their base priority) and is refused as full only for the 256th nested take. |
| Mutex.TakeAnswers | rt-thread/src/ipc.c:914-1043 | A take is full if and only if the taker owns the mutex at the largest hold; while another thread owns it, it gives up if and only if it may not wait and sleeps otherwise; else it succeeds. One that sleeps leaves the owner with the more urgent of its priority and the taker's, and changes no other priority. |
| Mutex.ReleaseAnswers | rt-thread/src/ipc.c:1090-1187 | Only the owner can release; an inner release gives back one hold, the last one all lent priority and the mutex to the first waiter, if any. |
| Mutex.ReleaseKeeps | rt-thread/src/ipc.c:1118-1187 | A release by the owner succeeds and by others fails; a full release restores the base priority and hands over to the most urgent waiter, or frees the mutex; the overflow returns are unreachable. |
| Mutex.ExpireKeeps | rt-thread/src/ipc.c:1031-1035 | A waiter that times out leaves the invariant intact. |
| Mutex.RunTheorem | rt-thread/src/ipc.c:914-1187 | In every run the invariant holds at every moment, and takes granted minus releases of a thread is its hold; so at most one thread has the mutex. |
| Mutex.OwnersPriority | rt-thread/src/ipc.c:942-1187 | In every run the owner's priority is exactly the most urgent among its own and those of all who waited since it got the mutex; while none of their waits ran out, among its own and those of its waiters. |
| Mutex.MutexObject.Take | rt-thread/src/ipc.c:914-1043 | The section does on the object the step that `Mutex.TakeAnswers` and `Mutex.OwnersPriority` speak of, lending included. |
| Mutex.MutexObject.Release | rt-thread/src/ipc.c:1090-1187 | The section does on the object the step that `Mutex.ReleaseAnswers` speaks of. |
| Event.DelayedIsImmediate | rt-thread/src/ipc.c:1460-1519 | Delivering to sleepers during the scan reports and clears exactly what each would have got by receiving itself, in list order. |
| Event.NoneLeftSatisfied | rt-thread/src/ipc.c:1466-1519 | After a send, no waiter that is still queued is satisfied by the bits left, whatever was cleared in between. |
| Event.OnlyReportedBitsVanish | rt-thread/src/ipc.c:1479-1508 | Bits vanish only by being reported to a waiter that asked to clear them. |
| Event.NobodyLost | rt-thread/src/ipc.c:1466-1519 | Every waiter is either woken once or still queued. |
| Event.SatisfiedIs | rt-thread/src/ipc.c:1597-1606 | A condition holds when all bits asked for are set, or, without the flag for all, any of them. |
| Event.SendSets | rt-thread/src/ipc.c:1440-1530 | After a send a bit is set if and only if it was set before or sent, and no clearing waiter was woken with a report of it; sending nothing is an error. |
| Event.SendDelivers | rt-thread/src/ipc.c:1460-1519 | A waiter satisfied by the old and the sent bits together, with nobody satisfied in front of it who clears, is woken and told exactly the bits it asked for that are set. |
| Event.ScanOrder | rt-thread/src/ipc.c:1466-1519 | Waiters are woken in the order in which they waited, and those who stay keep it. |
| Event.RecvAnswers | rt-thread/src/ipc.c:1590-1677 | A receive answers at once if and only if its condition holds, with the bits it asked for that are set, cleared if it says so; otherwise it gives up if and only if it may not wait, and else sleeps. |
| Event.SendKeeps | rt-thread/src/ipc.c:1440-1530 | A send keeps the invariant, and its invalid-option error is unreachable. |
| Event.RecvKeeps | rt-thread/src/ipc.c:1565-1680 | A receive keeps the invariant, also when it clears bits or goes to sleep at the place its flag and priority give. |
| Event.RunTheorem | rt-thread/src/ipc.c:1440-1680 | In every reachable state nobody sleeps on a condition that holds, and the waiters are queued by priority if the flag says so. |
| Event.BitsOfRun | rt-thread/src/ipc.c:1440-1680 | After any run a bit is set if and only if some send set it and since then neither a clearing receiver was told of it nor the event was reset. |
| Event.EventObject.Send | rt-thread/src/ipc.c:1460-1519 | The loop over the waiting list, starting from the old and the sent bits together, does the step that `Event.SendSets` and `Event.SendDelivers` speak of. |
| Event.EventObject.Recv | rt-thread/src/ipc.c:1597-1677 | The section does the abstract step on the object. |
| Rendezvous.StepKeeps | rt-thread/src/ipc.c:2023-2114 | Each section keeps: takers sleep only while woken takers outnumber the things there are, givers likewise for room; things plus room is constant. |
| Rendezvous.GiveAnswers | rt-thread/src/ipc.c:2023-2114 | With room one thing is added and the first sleeping taker woken; without room the thread sleeps at its place, if it may wait, and nobody else is moved. |
| Rendezvous.TakeAnswers | rt-thread/src/ipc.c:2277-2370 | With something there one thing is taken and the first sleeping giver woken; otherwise the thread sleeps at its place, if it may wait, and nobody else is moved. |
| Rendezvous.OthersAnswer | rt-thread/src/ipc.c:2393-2425 | A timeout takes just its thread off the lists; a reset empties both lists and throws everything away. |
| Rendezvous.RunTheorem | rt-thread/src/ipc.c:1991-2425 | In every run of senders, receivers, timeouts and resets no wake-up is lost: once the woken have run, receivers sleep only on an empty and senders only on a full mailbox. |
| Mailbox.Appended | rt-thread/src/ipc.c:2085-2090 | Writing at the input offset appends to what the ring holds, around the end as well. |
| Mailbox.Prepended | rt-thread/src/ipc.c:2183-2194 | Rewinding the output offset and writing there prepends. |
| Mailbox.Removed | rt-thread/src/ipc.c:2340-2346 | Reading at the output offset yields the first entry and leaves the rest. |
| Mailbox.Mailbox.constructor | rt-thread/src/ipc.c:1780-1814 | A new mailbox is empty; its size is cut to sixteen bits. |
| Mailbox.Mailbox.Deposit | rt-thread/src/ipc.c:2085-2105 | The entry-overflow error behind the write is unreachable. |
| Mailbox.Mailbox.SendWait | rt-thread/src/ipc.c:2017-2129 | One round appends the value, reports full, or sleeps in the right place of the sender list, and wakes one receiver; the abstract step is done and the invariant kept. |
| Mailbox.Mailbox.Urgent | rt-thread/src/ipc.c:2164-2219 | The value goes to the front, or the mailbox is full. |
| Mailbox.Mailbox.Recv | rt-thread/src/ipc.c:2271-2378 | One round removes the first value, reports empty, or sleeps, and wakes one sender; the pool is not written. |
| Mailbox.Mailbox.Reset | rt-thread/src/ipc.c:2393-2425 | The mailbox is empty and nobody sleeps on it. |
| MqStore.Store.constructor | rt-thread/src/ipc.c:2486-2538 | All nodes of the pool are threaded onto the free chain, last one first; message size, rounded to four, and number of nodes are cut to sixteen bits. |
| MqStore.MsgSize | rt-thread/src/ipc.c:2513 | A node holds messages of the size asked for if and only if that is at most 65532. |
| MqStore.MaxMsgsIs | rt-thread/src/ipc.c:2514 | As many nodes are made as fit into the pool, if their number fits in sixteen bits. |
| MqStore.Store.TakeFree | rt-thread/src/ipc.c:2853-2857 | The first free node leaves the chain and is then on neither. |
| MqStore.Store.LinkTail | rt-thread/src/ipc.c:2866-2892 | The node becomes the last of the queue, head, tail and count agree, and the overflow error is unreachable. |
| MqStore.Store.LinkHead | rt-thread/src/ipc.c:2999-3020 | The node becomes the first of the queue; the overflow error is unreachable. |
| MqStore.Store.Unlink | rt-thread/src/ipc.c:3168-3181 | The first node leaves the queue, also when it is the last one. |
| MqStore.Store.PutFree | rt-thread/src/ipc.c:3189-3193 | The node is the first free one again. |
| MqStore.Store.Drain | rt-thread/src/ipc.c:3253-3271 | A reset moves every queued node to the free chain. |
| MqStore.Pigeonhole | rt-thread/src/ipc.c:2868-2884 | Distinct nodes are not more than the pool has, so the count cannot overflow. |
| MessageQueue.FiniteStaysFinite | rt-thread/src/ipc.c:2844-2851 | A finite timeout re-computed after a wake-up never becomes an endless one. |
| MessageQueue.RemainingExact | rt-thread/src/ipc.c:2844-2851 | It is the time left if and only if the subtraction stays within 32 bits. |
| MessageQueue.SendAnswers | rt-thread/src/ipc.c:2768-2857 | A send is an error if and only if the message is too long. Otherwise it takes the first free node; without one it is full if and only if its timeout is zero, and else sleeps at its place with message and timeout. |
| MessageQueue.UrgentAnswers | rt-thread/src/ipc.c:2971-2993 | An urgent send is an error if and only if the message is too long, full if and only if it is not and no node is free, and never sleeps. |
| MessageQueue.RecvAnswers | rt-thread/src/ipc.c:3095-3181 | A receive takes the first message; without one it times out if and only if its timeout is zero, and else sleeps at its place with size and timeout. |
| MessageQueue.ResumeAnswers | rt-thread/src/ipc.c:2822-2851 | Whoever runs again after sleeping reports an error if and only if it was woken with one; otherwise it sends or receives as before with what is left of its timeout. |
| MessageQueue.CopyAnswers | rt-thread/src/ipc.c:2859-2864 | While the message is copied in, only the node in hand changes, and it holds the message afterwards. |
| MessageQueue.CopyOutAnswers | rt-thread/src/ipc.c:3182-3187 | Copying out changes nothing but what the receiver has in hand: the leading bytes of its message, as many as it asked for. |
| MessageQueue.JoinAnswers | rt-thread/src/ipc.c:2866-2917 | Linking a message in wakes the first sleeping receiver, if any, and nobody else. |
| MessageQueue.PutBackAnswers | rt-thread/src/ipc.c:3189-3217 | Giving the node back makes it the first free one and wakes the first sleeping sender, if any, and nobody else. |
| MessageQueue.ExpireAnswers | rt-thread/src/ipc.c:2820-2838 | A timeout wakes just its thread, with an error. |
| MessageQueue.ResetAnswers | rt-thread/src/ipc.c:3234-3280 | A reset wakes everybody with an error, and every queued node is free. |
| MessageQueue.JoinKeeps | rt-thread/src/ipc.c:2855-2917 | Linking a filled node in keeps the invariant and succeeds. |
| MessageQueue.RoomToLink | rt-thread/src/ipc.c:2868-2884 | Whoever holds a filled node finds the count below its limit. |
| MessageQueue.CopyOutDelivers | rt-thread/src/ipc.c:3182-3187 | A receive of k bytes yields the first bytes of the message taken off the queue, k of them or as many as a node holds. |
| MessageQueue.PutBackKeeps | rt-thread/src/ipc.c:3189-3219 | Returning the node wakes a sender and keeps the invariant. |
| MessageQueue.ResetKeeps | rt-thread/src/ipc.c:3234-3280 | A reset in the middle of other calls keeps the invariant. |
| MessageQueue.RunTheorem | rt-thread/src/ipc.c:2749-3280 | Under every interleaving the nodes stay partitioned into free, queued, being filled and being drained, the count is the length of the queue, contents are what was sent, and no wake-up is lost. |
| MessageQueue.Refines | rt-thread/src/ipc.c:2749-3280 | Every step is a step of a double-ended queue of messages: send appends, urgent prepends, receive takes the front, nothing else changes it. |
| MqRefine.NodeInHand | rt-thread/src/ipc.c:2855-2866 | Whatever the others did since, a node in a thread's hands is on neither chain and in no other hands. |
| MqRefine.JoinOn | rt-thread/src/ipc.c:2866-2917 | Linking, at whatever moment after the copy, finds the link word still ended, puts the node behind the last or in front of the first, and does the step of the protocol. |
| MqRefine.Section | rt-thread/src/ipc.c:2749-3280 | Each section carried out on the node chains does the step of the protocol, with its result, which the `Answers` lemmas of `MessageQueue` pin down, and leaves chains, head, tail, count and buffers in agreement with the protocol state. |
| MqRefine.New | rt-thread/src/ipc.c:2486-2538 | A new queue agrees with the state in which the protocol starts. |
| MqRefine.Follow | rt-thread/src/ipc.c:2749-3280 | Under every interleaving of senders, urgent senders, receivers, timeouts and resets, head, tail, free chain and count agree with the queue, and no overflow branch is reached. |
| Bits.FfsTableCorrect | rt-thread/src/kservice.c:1775-1789 | For every 32-bit value the byte-table lookup is one more than the position of the lowest set bit, and zero for zero. |
| Bits.FfsTinyCorrect | rt-thread/src/kservice.c:1740-1743 | The lookup modulo 37 computes the same for every 32-bit value. |
| Scheduler.IndexInsert | rt-thread/src/scheduler.c:773-777 | Setting the bit keeps bitmap and lists in agreement. |
| Scheduler.IndexRemove | rt-thread/src/scheduler.c:858-871 | Clearing the bit of a list that became empty keeps them in agreement. |
| Scheduler.HighestReady | rt-thread/src/scheduler.c:169-191 | The find-first-set lookup names the smallest priority with a ready thread. |
| Scheduler.Insert2Indexes | rt-thread/src/scheduler.c:773-777 | The two-level bitmap of 256 priorities stays in agreement when a priority becomes ready. |
| Scheduler.Remove2Indexes | rt-thread/src/scheduler.c:858-871 | It stays in agreement when the last thread of a priority leaves. |
| Scheduler.Highest2IsLowest | rt-thread/src/scheduler.c:174-181 | Two lookups name the smallest ready priority. |
| Scheduler.Scheduler.InsertThread | rt-thread/src/scheduler.c:739-783 | The thread is listed at the head, or at the tail after yielding; the current thread becomes running instead; bitmap, lists and states agree. |
| Scheduler.Scheduler.RemoveThread | rt-thread/src/scheduler.c:845-875 | The thread is in no list; bitmap and lists agree. |
| Scheduler.Scheduler.HighestPriorityThread | rt-thread/src/scheduler.c:169-191 | The thread returned is the head of the most urgent non-empty list. |
| Scheduler.Scheduler.Schedule | rt-thread/src/scheduler.c:423-545 | With the lock count at zero a running thread results that is in no ready list and at least as urgent as every ready thread, if any can run; nobody stops being able to run; a running thread keeps the processor if and only if nobody is more urgent, nor equal when it has yielded; the yield mark is taken off if and only if somebody else is ready; a switch files the old thread in front of its list and takes the new one out; with the lock held nothing changes. |
| Scheduler.Scheduler.Resume | rt-thread/src/thread.c:885-921 | Exactly a suspended thread is made ready, in front of its list or, with the yield mark, at its end; all other lists stay. |
| Scheduler.Scheduler.Suspend | rt-thread/src/thread.c:840-874 | The current thread leaves the competition without touching the lists. |
| Scheduler.Scheduler.ChangePriority | rt-thread/src/thread.c:733-768 | A ready thread moves from the list of its old priority to that of the new one; all other lists stay, and a thread that is not ready moves in none. |
| Scheduler.Scheduler.Close | rt-thread/src/thread.c:396-438 | A closed thread leaves its list if it was ready; everybody else stays. |
| Scheduler.Scheduler.Yield | rt-thread/src/thread.c:545-558 | The yielding thread keeps the processor exactly if every ready thread is strictly less urgent. |
| Scheduler.Scheduler.ExitCritical | rt-thread/src/scheduler.c:985-1010 | The outermost exit leaves the most urgent thread running, which is the current one if and only if it need not make way; inner exits change nothing. |
| Scheduler.Scheduler.InCritical | rt-thread/src/scheduler.c:921-1010 | Inside a critical section, however deeply nested and whoever is woken, nobody's turn changes; just the suspended threads that were woken become ready. |
| Scheduler.Scheduler.DeferredWakeUps | rt-thread/src/scheduler.c:921-1010 | The outermost exit honours all wake-ups: exactly those threads can run in addition, and the most urgent thread runs, which is the one that made them if and only if nobody who can run is more urgent, nor equal when it had yielded. |
| Scheduler.Scheduler.YieldOnce | rt-thread/src/scheduler.c:458-490 | A yield exchanges the current thread with the first of its list, or keeps it if the list is empty. |
| Scheduler.Scheduler.Yields | rt-thread/src/scheduler.c:458-490 | As many yields as there are other ready threads of that priority give each of them the processor if and only if there is at most one; of more, the first alternates with the yielding thread and the others are passed over. |
| Numbers.DigitsRead | rt-thread/src/kservice.c:666-694 | The digits produced by repeated division read back to the number. |
| Numbers.DigitsCased | rt-thread/src/kservice.c:736-743 | Digits above nine are letters of the case asked for. |
| Numbers.NumberLayout | rt-thread/src/kservice.c:744-871 | Padding stands on the right if so flagged, otherwise on the left, as zeros behind the sign or as spaces in front of it; the sign printed is the one that flags and number call for. |
| Numbers.NumberLength | rt-thread/src/kservice.c:713-871 | A printed number is as long as the width, or as sign plus the larger of digits and precision; with precision zero the digits are missing. |
| Numbers.NumberReads | rt-thread/src/kservice.c:713-871 | For base ten and sixteen and every precision but zero, zeros and digits read back to the magnitude. |
| Numbers.DecimalRoundTrip | rt-thread/src/kservice.c:736-753 | A signed decimal reads back to the number printed, -2^31 included, for all flags and widths and every precision but zero. |
| Numbers.OctalAgrees | rt-thread/src/kservice.c:680-691 | The hexadecimal digits of a number are its octal ones if and only if it is below eight. |
| Numbers.OctalIsHex | rt-thread/src/kservice.c:680-691 | Octal output is hexadecimal, for every number; it is right if and only if the magnitude is below eight and the precision is not zero. |
| Numbers.ZeroPrecisionLosesTheNumber | rt-thread/src/kservice.c:857-862 | With precision zero all numbers of one sign print alike. |
| Format.FewDigits | rt-thread/src/kservice.c:726-730 | The digits of a number below 8^n are at most n, so sixteen cells of scratch suffice. |
| Format.Scratch | rt-thread/src/kservice.c:766-772 | The division loop leaves exactly the digits in the scratch buffer, last one first. |
| Format.PrintNumber | rt-thread/src/kservice.c:713-871 | The routine appends the printed number to the unbounded output, storing only what fits. |
| Format.ParseDirective | rt-thread/src/kservice.c:922-1000 | Flags, width, precision and qualifier are read as the format says. |
| Format.DirectiveReads | rt-thread/src/kservice.c:922-988 | A directive written as flags, width, precision and qualifier, with literal numbers or stars, is read as exactly that, up to its conversion letter. |
| Format.ConvertMoves | rt-thread/src/kservice.c:994-1131 | Each conversion consumes its letter, and one argument if and only if it is not a percent sign and not unknown; unknown letters are printed as they are. |
| Format.PutString | rt-thread/src/kservice.c:1018-1046 | The string is cut by width and precision and padded on one side. |
| Format.PutConversion | rt-thread/src/kservice.c:1002-1131 | Each conversion appends its text and moves on in format and arguments. |
| Format.VsnPrintf | rt-thread/src/kservice.c:886-1146 | For every format and arguments the routine ends, stores exactly the first size - 1 characters of the unbounded output and a zero behind them, writes nothing else, and returns the unbounded length. |
| Format.PlainText | rt-thread/src/kservice.c:911-918 | Text without directives is copied. |
| Format.EscapedPrints | rt-thread/src/kservice.c:911-918 | Printing a text in which every percent sign was doubled yields the text. |
| Format.PrintedDecimalReads | rt-thread/src/kservice.c:1084-1117 | What a signed decimal directive prints, with any flags, width, qualifier and precision but zero, reads back to the argument, cut to a halfword if so qualified. |
| Format.PrintedUnsignedReads | rt-thread/src/kservice.c:1073-1131 | What u, x, X and o print, with any flags, width, qualifier and precision but zero, reads back to the argument, in base ten or sixteen, with letters in the case of the conversion letter. |
| Format.PrintedPointerReads | rt-thread/src/kservice.c:1051-1066 | A pointer is printed in lower-case hexadecimal that reads back, without a width in at least eight places and without blanks. |
| Format.NarrowIs | rt-thread/src/kservice.c:1105-1125 | A halfword is the low sixteen bits of its argument, read as a signed number by signed conversions. |
| Format.CharIs | rt-thread/src/kservice.c:996-1017 | A character stands at one end of its field and blanks fill the rest. |
| Format.StringIs | rt-thread/src/kservice.c:1019-1049 | As much of the string is shown as it has and width and a positive precision allow, at one end of the field, with blanks in the rest. |
| Format.WidthCutsStrings | rt-thread/src/kservice.c:1022-1026 | A width alone makes a string exactly that wide, cutting it off if need be; a precision of zero does not cut. |
| Format.TrailingPercent | rt-thread/src/kservice.c:1090-1103 | A percent sign stands for itself when nothing but flags follows it up to the end of the format. |
| FreqList.StrToInt | PS/at_simplified/at_simplified.c:226-238 | The result is -1 exactly unless all characters are digits whose value modulo 2^32 is not 2^32 - 1. |
| FreqList.SplitIs | PS/at_simplified/at_simplified.c:263-268 | The pieces contain no comma, and joined by commas they are the input. |
| FreqList.CollectIs | PS/at_simplified/at_simplified.c:258-304 | The first sixteen words that are not blank decide whether it is a list of numbers; more than sixteen are too many; otherwise the result is their values. |
| FreqList.StrToIntArray | PS/at_simplified/at_simplified.c:240-304 | The loops compute what the pieces between commas denote, trimmed and with empty ones skipped, or the matching error. |
| FreqList.ParseUndoesJoin | PS/at_simplified/at_simplified.c:240-304 | Parsing undoes printing with commas for one to sixteen numbers below 2^32 - 1. |
| FreqList.CollectNothing | PS/at_simplified/at_simplified.c:258-304 | No number is collected, and none refused, if and only if every piece is blank. |
| FreqList.CommasAlone | PS/at_simplified/at_simplified.c:258-304 | An empty list is accepted if and only if the input is white space and commas with at least one comma. |
| FreqList.OneComma | PS/at_simplified/at_simplified.c:258-304 | It happens: a lone comma. |
| FreqList.BaseFreq | PS/at_simplified/at_simplified.c:306-336 | The last band of the table that contains the frequency is found, with the grid frequency at or below it; outside all bands the base is 1. |
| FreqList.IndexIsRight | PS/at_simplified/at_simplified.c:82-151 | An index is within the limit of its band, below the end mark, and stands for the highest grid frequency not above the one asked for. |
| FreqList.GetFreqList | PS/at_simplified/at_simplified.c:412-454 | A list is accepted exactly if it parses and lies in one band, and then holds the indices and the end mark; a later frequency outside the band of the first gives 2, a first one outside all bands 3. |
| FreqList.VerdictIs | PS/at_simplified/at_simplified.c:424-443 | A list is in order if and only if one band takes all its numbers; the answer 3 means exactly that the first number is outside all bands. |
| FreqList.NoIndex | PS/at_simplified/at_simplified.c:430-441 | A first frequency outside all bands is caught because the wrapped difference leaves index byte 226. |
| FreqList.BandInsideBand | PS/at_simplified/at_simplified.c:139-148 | A non-empty list within one band is accepted if and only if that is not the 400 MHz band, or all of the list or nothing of it lies in the 433 MHz band inside that. |
| FreqList.TwoInBandOne | PS/at_simplified/at_simplified.c:139-148 | It happens: 433 and 434 MHz are refused together. |
| FlashWrite.PageWrite | libraries/HAL_Drivers/drv_flash.c:31-68 | For every address and non-empty data, the pieces written are consecutive, non-empty, stay each in one 256-byte page and concatenate to the data; empty data is an error with nothing written. |

## Left out

- Multi-core branches, hooks, debug output, names, the object registry, statistics commands.
- Deleting and detaching blocking objects (waking everybody is modelled by reset), and threads that are deleted while they wait.
- The locks of the memheap, and calls that nest across several mutexes; ready lists and suspend lists of threads are sequences, tied to the pointer form by `RtList`.
- Changing the priority of a thread while it waits in a list ordered by priority.
- The bytes of a header word, the pool pointer in memheap headers, and the message length field the queue does not store either.
- Masks with a power of two are written as remainders; the bits of an event are a set.
- Signed overflow in the formatter's width and precision and in the frequency parser's accumulator is undefined in C: widths are unbounded here, the accumulator wraps.
- The wrap of the output position at the end of the address space, and arguments whose type does not match their directive (every argument is one 32-bit word).
- `rt_memset`, string functions, `rt_calloc`, the slab allocator, the tiny variants of the block copies.
- Flash erase, flash read, the range assertion of the flash driver and all register access; the radio calls behind the frequency list.
- Timers: a timeout is an event that may happen at any time after a finite wait has begun.
- SmallMem.SmallMem.Init: the range given must not reach the end of the address space, where the source's additions wrap.
- AlignedAlloc.MallocAlign: size, alignment and their sum must not wrap when rounded, which the source does not check; `AlignedAlloc.AskedForEnough` shows that these are exactly the requests that ask for enough.
- AlignedAlloc.RoundTrip: the same sums are excluded.
- MemHeap.MemHeap.Realloc: growth to 2^32 - 12 bytes or more next to a free block is excluded; `MemHeap.GrowTestIsRight` and `MemHeap.WrappedGrowth` say what happens there.
- HeapRun.RunMemHeap: that same request is skipped, and so are operations on addresses that are not outstanding.
- MemHeap.MemHeap.constructor: the pool must hold its two headers, which the source does not check.
- MemPool.MemPool.constructor: the pool must hold a block and the block size must not wrap, which the source does not check; the variant that allocates the pool itself is the same list.
- MemOps.MemCpy: areas that overlap with the destination above the source are excluded, as the source demands.
- HeapRun.Run: operations on addresses that are not outstanding are skipped, as callers must not make them.
