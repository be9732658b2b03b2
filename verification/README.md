# Verification of dxpool

This project models the concurrent core of dxpool in Dafny and proves what that core promises: fixed-size object
pools over two kinds of index allocator, the dynamic memory pools in C, and the worker pool with its task queue.

Concurrent algorithms are step machines: one event is one atomic access (or one critical section of a mutex) by one
thread, a run is any list of events, and the number of threads is arbitrary. Code that one thread runs is a class
whose methods change fields and arrays in place. Every theorem about runs holds for every schedule.

| Part | Files |
|---|---|
| Lock-free index ring, interleaved | `ring_protocol`, `ring_safety`, `ring_guarantees`, `ring_laps`, `ring_double_hand_out`, `ring_answers`, `ring_empty` |
| The same ring with wrapping positions, interleaved | `ring_wrap`, `ring_wrap_alone`, `ring_wrap_double`, `ring_wrap_single`, `ring_wrap_safety`, `ring_wrap_answers`, `ring_wrap_empty` |
| Index allocators as objects, and the pool of items on top | `indexer_spec`, `mutex_indexer`, `concurrent_indexer`, `indexers`, `pool_spec`, `pool` |
| Memory pools, interleaved | `node_pool`, `node_stacks`, `node_guarantees`, `node_reuse`, `node_counters`, `node_answers`, `multipool` |
| Memory pools as linked objects, and their release | `mem_pool`, `multipool_object` |
| Size classes | `size_class` |
| Worker pool and its shutdown | `worker_protocol`, `worker_shutdown`, `worker_tasks`, `worker_pool` |
| Remainders, multisets of what threads own, options | `remainder`, `bags`, `options` |

## Main results

**The index ring.** As long as no position wraps: in all runs the two positions and what the threads own are in balance
(`TicketsRun`). In runs where no thread laps another, every index is in exactly one place, the whole run is a run of a
FIFO queue (`LapFreeRunRefinesFifo`), and a thread that owns a ticket is at most four accesses away from returning.
Such laps cannot happen with two threads, or with one index. With three threads and two indices they can: a reader that
has loaded its slot and not cleared it yet can be lapped, and then one index gets two callers.
`ExclusiveExactlyWhenSmall` states the exact condition for positions that never wrap: no schedule gives an index two
callers if and only if there are at most two threads or there is one index.

**The index ring at the wrap.** `ring_wrap` adds the bounded positions of the code and the accesses of
`WrapOnOverflow`. A run that starts fewer than limit - N returns is a run of the unbounded ring
(`FewReturnsNeverWrap`), so everything above holds of it. Beyond that less is true of the code. When both positions are
at the limit and the read position wraps first, the position test passes, and a reader that stopped a lap earlier has
not cleared its slot: two threads then get one index, for every N of at least two and every limit. With one index,
three threads and a full turn of the positions do the same. `BoundedExclusiveExactly` is the exact condition for the
code: no schedule gives an index two callers if and only if there is one thread, or there are two threads and one index.

**How calls end.** In every state of every run a call of `Next` ends exactly by finding nothing, equal positions or an
unused slot, or by handing out the index of its slot; a call of `Return` ends exactly by storing its own index in the
slot of its own ticket (`EveryCallIsAnswered`, and with wraps `EveryBoundedCallIsAnswered`). Left alone, a call has its
ticket or its end after at most eleven accesses, whatever the others did before (`SeekingEnds`).

**Empty.** A `Next` that finds the positions equal tells the truth. One that finds the slot unused may not: another
thread can have claimed that position since it was loaded. `EmptyIsTrueExactlyWhenAlone`, and with the positions of the
code `BoundedEmptyExactly`: in every schedule Empty means that nothing is free if and only if there is at most one
thread, whatever the number of indices and the limit. Empty is here what a caller sees: the call is over, and no index
was handed out.

**The sequential ring.** With the bounded, wrapping positions of the code, for every pool size and every machine
maximum that holds one lap, `Next` and `Return` are the operations of a FIFO queue, and `Next` is empty exactly when
nothing is free. This includes the state in which the read position has wrapped and the write position has not.

**The object pool.** Any program that takes, moves, writes to and destroys handles in any order returns every index
exactly once, with either allocator, and always meets the condition that the allocators only state in comments: an
index is returned by whoever holds it. Items handed out are fresh or were reset after their last use. The objects run
exactly the steps of a small specification (`DeskStep`), in which an item changes only through a handle that holds it:
what its holder last wrote is there until the handle is destroyed, and is what is reset then.

**The memory pools.** Memory safety and routing to the home pool hold in every run. In runs without a harmful push
(nobody pushes a node that a thread is about to pop with another successor in mind, which is less than forbidding that a
loaded head is ever popped and pushed back) each list is an abstract stack,
every compare-and-swap is one push or one pop, every node is in one place, and the usage counters are exact modulo 2^32.
One acquirer at a time between its load of the head and its compare-and-swap, with any number of returners, implies
that condition. `SafeExactlyForOneAcquirer` gives the converse too: with two acquirers in that window and two threads
one block can get two callers. Acquire ends only with the block it popped or allocated or with a failed malloc, and
return only after its own node was pushed on its home pool. Every accepted request to the multipool is answered, in
order, by a block or a failed malloc (`EveryRequestIsAnswered`). Every block the multipool hands out is of the smallest class that holds the request.

**Shutdown.** No wake-up is lost; after the flag is cleared there is a task for every worker inside `Take`; each
worker takes at most one more task; `Shutdown`, with its loops and whatever the other threads do in between, returns with
all workers gone; every join completes after a bounded number of steps even while others submit.
The comment at `src/WorkerPool.h:151` says that destruction waits for all tasks to finish. The loop at line 52 does
otherwise: it drops whatever is left. `QueuedTasksStartExactlyWhen` gives the exact condition under which everything
queued still starts, and `JobIsDropped` a run in which a submitted job never does. A task taken is the task run, and is
run to its end by the time `Shutdown` returns; what is queued are exactly the accepted submissions, in order, and one
no-op for each worker.

## Model

| member | source | states |
|---|---|---|
| RingProtocol.TicketsInit | src/ConcurrentIndexer.h:83-108 | a new ring is in balance and nobody owns a ticket |
| RingProtocol.TicketsStep | src/ConcurrentIndexer.h:124-143 | every access of any thread that concerns no wrap keeps the balance: write minus read position is the capacity minus claimed readers, held indices and returners without a ticket; no ticket has two owners |
| RingProtocol.TicketsRun | src/ConcurrentIndexer.h:124-190 | the balance holds after every run in which no position wraps, any number of threads, with or without laps |
| RingSafety.SlotOfReader | src/ConcurrentIndexer.h:143-155 | the slot of an unfinished read holds its value exactly when its writer is done |
| RingSafety.SlotOfWriter | src/ConcurrentIndexer.h:178-190 | the slot of an unfinished write is unused exactly when the reader one lap behind is done |
| RingSafety.RingStep | src/ConcurrentIndexer.h:124-190 | while positions do not wrap, the ring invariant survives every step that lets no thread lap another |
| RingSafety.PlacesKept | src/ConcurrentIndexer.h:155-157 | a step moves an index between slot, thread and caller but neither duplicates nor loses one |
| RingGuarantees.InitRing | src/ConcurrentIndexer.h:96-107 | a new ring has every index in exactly one slot and satisfies the invariant |
| RingGuarantees.LapFreeRunKeepsIndices | src/ConcurrentIndexer.h:124-190 | after every lap-free run without a wrap each index 0..N-1 is in exactly one place |
| RingGuarantees.OnceIsExclusive | src/ConcurrentIndexer.h:157-157 | such an index has at most one caller and is in no slot while held |
| RingGuarantees.ReaderGetsItsDeposit | src/ConcurrentIndexer.h:146-157 | what a reader hands out is what the writer of the same ticket deposited |
| RingGuarantees.LapFreeRefinesFifo | src/ConcurrentIndexer.h:143-190 | each step in a lap-free state is one operation of an atomic FIFO queue or none |
| RingGuarantees.LapFreeRunRefinesFifo | src/ConcurrentIndexer.h:143-190 | every lap-free run of a new ring without a wrap is a run of that queue from all indices in order |
| RingGuarantees.WriterFinishes | src/ConcurrentIndexer.h:150-153 | the writer that a spinning reader waits for can store within two accesses |
| RingGuarantees.BlockingReader | src/ConcurrentIndexer.h:185-187 | a spinning writer waits for the reader exactly one lap behind |
| RingGuarantees.ClaimedOperationCompletes | src/ConcurrentIndexer.h:145-190 | no spin deadlock: a thread with a ticket returns after at most four accesses by ticket owners |
| RingLaps.SmallStepIsLapFree | src/ConcurrentIndexer.h:124-158 | while positions do not wrap, with at most two threads or one index no step lets a thread lap another |
| RingLaps.SmallRunIsLapFree | src/ConcurrentIndexer.h:124-190 | so every such run is lap-free |
| RingLaps.CalmReadersNeverWait | src/ConcurrentIndexer.h:146-153 | in such runs the first load of the slot already finds the value |
| RingLaps.SmallRunIsSafe | src/ConcurrentIndexer.h:124-190 | every such run is lap-free, keeps each index in one place and never enters the reader's busy-wait |
| RingDoubleHandOut.IndexHandedOutTwice | src/ConcurrentIndexer.h:143-157 | for three or more threads and two or more indices there is a run that gives index 0 two callers |
| RingDoubleHandOut.ExclusiveExactlyWhenSmall | src/ConcurrentIndexer.h:124-190 | while positions do not wrap, no schedule gives an index two callers if and only if there are at most two threads or one index |
| RingWrap.SameBelowLimit | src/ConcurrentIndexer.h:121-122 | a run that leaves the write position below the limit is the same run with bounded positions |
| RingWrap.ReachInRuns | src/ConcurrentIndexer.h:172-178 | the write position moves at most once for each call of `Return` |
| RingWrap.FewReturnsNeverWrap | src/ConcurrentIndexer.h:60-74 | with fewer than limit - N returns started the ring with bounded positions is the unbounded one |
| RingWrapAlone.WrapAlone | src/ConcurrentIndexer.h:65-74 | the wrap, undisturbed, makes the position at the limit 0 and changes nothing else |
| RingWrapAlone.TakeAlone | src/ConcurrentIndexer.h:116-158 | a `Next` that nobody disturbs, wrap included: the slot it tests is cleared and its index handed out |
| RingWrapAlone.GiveAlone | src/ConcurrentIndexer.h:170-194 | a `Return` that nobody disturbs, wrap included: the index goes to the next slot |
| RingWrapDouble.HandOutAgain | src/ConcurrentIndexer.h:121-157 | both positions at the limit and one reader stopped a lap before: the wrapped `Next` passes both tests and takes the stopped reader's index |
| RingWrapDouble.WrapHandsOutTwice | src/ConcurrentIndexer.h:116-197 | for two or more threads, two or more indices and every limit there is a run that gives one index two callers |
| RingWrapSingle.TurnHandsOutTwice | src/ConcurrentIndexer.h:116-197 | for one index, three or more threads and every limit there is a run that gives the index two callers |
| RingWrapSafety.AloneBoundedRun | src/ConcurrentIndexer.h:116-197 | one thread keeps every index in one place, wraps included |
| RingWrapSafety.SingleBoundedRun | src/ConcurrentIndexer.h:116-197 | two threads on one index keep it in one place, with the parity of the positions as the invariant, wraps included |
| RingWrapSafety.BoundedExclusiveExactly | src/ConcurrentIndexer.h:116-197 | for the bounded positions of the code: no schedule gives an index two callers if and only if there is at most one thread, or two threads and one index |
| RingWrapSafety.SmallAndFewIsExclusive | src/ConcurrentIndexer.h:116-197 | with fewer than limit - N returns two threads, or one index, are safe in every schedule |
| RingAnswers.NextEnds | src/ConcurrentIndexer.h:116-161 | a thread inside `Next` leaves it exactly by an access that finds equal positions or an unused slot, without an index, or by clearing its slot and handing out that slot's index; a lost compare-and-swap goes on |
| RingAnswers.ReturnEnds | src/ConcurrentIndexer.h:170-197 | a thread inside `Return` leaves it exactly by storing its own index in the slot of its own ticket |
| RingAnswers.FailedClaimStartsOver | src/ConcurrentIndexer.h:117-145 | a claim that is lost or fails for no reason changes nothing and starts over with a fresh load |
| RingAnswers.EveryCallIsAnswered | src/ConcurrentIndexer.h:116-197 | both for every event of every run; Empty is answered exactly at the two tests |
| RingWrapAnswers.EveryBoundedCallIsAnswered | src/ConcurrentIndexer.h:116-197 | the same for every event of every run with the bounded positions of the code |
| RingWrapAnswers.SeekingEnds | src/ConcurrentIndexer.h:116-178 | a call left alone has claimed its position or ended after at most eleven accesses, wraps included, whatever the others did before |
| RingEmpty.EqualPositionsMeanEmpty | src/ConcurrentIndexer.h:124-129 | when the position test says empty, nothing is free at that moment, in every run |
| RingEmpty.UnusedSlotHasAReason | src/ConcurrentIndexer.h:139-141 | when the slot test says empty, the position was claimed since or its writer has yet to store; for an unclaimed position it says so exactly while its writer is free to store and has not |
| RingEmpty.EmptyCanBeSpurious | src/ConcurrentIndexer.h:137-141 | for every capacity and two or more threads, a run in which the slot test says empty although an index is free |
| RingEmpty.EmptyIsTrueExactlyWhenAlone | src/ConcurrentIndexer.h:116-161 | in every schedule a `Next` that ends without an index does so while nothing is free, if and only if there is at most one thread |
| RingWrapEmpty.SoloRun | src/ConcurrentIndexer.h:116-197 | the ring of one thread holds a queue of indices after every run, wraps included |
| RingWrapEmpty.BoundedSpurious | src/ConcurrentIndexer.h:137-141 | for two or more threads, any capacity and any limit, a run in which Empty comes back although an index is in the ring and nobody else is busy |
| RingWrapEmpty.BoundedEmptyExactly | src/ConcurrentIndexer.h:116-161 | for the bounded positions of the code: in every schedule a `Next` that ends without an index does so while no index is in the ring, if and only if there is at most one thread |
| Remainder.ModIsRemainder | src/ConcurrentIndexer.h:135-135 | the slot of a position is its remainder by the ring size |
| Remainder.LargestMultiple | src/ConcurrentIndexer.h:83-83 | the wrap position is the largest multiple of the ring size up to the machine maximum |
| ConcurrentIndexers.RingWraps | src/ConcurrentIndexer.h:65-74 | moving the read position from the wrap position to 0 leaves the queue as it is |
| ConcurrentIndexers.RingTakes | src/ConcurrentIndexer.h:143-157 | clearing the slot at the read position removes the oldest index |
| ConcurrentIndexers.RingPuts | src/ConcurrentIndexer.h:183-190 | filling the slot at the write position, found unused, appends an index |
| ConcurrentIndexers.TailSlot | src/ConcurrentIndexer.h:172-183 | the write slot follows the youngest index, whichever of the positions has wrapped |
| ConcurrentIndexers.ConcurrentIndexer.constructor | src/ConcurrentIndexer.h:83-108 | a new ring holds 0..N-1 in order, for every machine maximum that holds one lap |
| ConcurrentIndexers.ConcurrentIndexer.WrapOnOverflow | src/ConcurrentIndexer.h:65-74 | a position at the limit becomes 0 and any other stays |
| ConcurrentIndexers.ConcurrentIndexer.Next | src/ConcurrentIndexer.h:116-161 | the oldest free index, empty exactly when none is free; the rest of the queue is unchanged |
| ConcurrentIndexers.ConcurrentIndexer.Return | src/ConcurrentIndexer.h:170-197 | the index joins the end of the queue |
| MutexIndexers.MutexIndexer.constructor | src/MutexIndexer.h:29-39 | a new allocator holds 0..N-1 |
| MutexIndexers.MutexIndexer.Next | src/MutexIndexer.h:48-59 | pops the stack of free indices, empty exactly when none is free |
| MutexIndexers.MutexIndexer.Return | src/MutexIndexer.h:67-72 | pushes an index its caller holds; the stack always has room |
| IndexerSpec.HolderLeavesRoom | src/MutexIndexer.h:61-72 | free and held indices add up to the capacity, so returning a held index never overflows |
| IndexerSpec.TakeHead | src/MutexIndexer.h:48-59 | taking the head of a free list is the abstract `Next` |
| IndexerSpec.PutBack | src/MutexIndexer.h:67-72 | adding a held index at either end is the abstract `Return` |
| Indexers.Indexer.Next | src/Pool.h:45-52 | either allocator hands out the next index of its free list |
| Indexers.Indexer.Return | src/Pool.h:45-52 | the mutex allocator is a stack, the ring a queue |
| Pools.AccountsTake | src/Pool.h:111-125 | a take moves one index from free to held and into the record of takes |
| Pools.AccountsReturn | src/Pool.h:118-121 | a return moves a held index back, which is what the allocators ask of their callers |
| Pools.AccountsAddUp | src/Pool.h:111-126 | free plus held is the pool size, and takes are returns plus held |
| Pools.PoolItem.constructor | src/PoolItem.h:52-58 | a handle is empty exactly when it has no item |
| Pools.PoolItem.MoveFrom | src/PoolItem.h:73-82 | the new handle takes over everything; the old one is empty with no callback |
| Pools.Pool.constructor | src/Pool.h:71-75 | builds the chosen allocator with indices 0..N-1 and N fresh items; no handles, no record of takes |
| Pools.Pool.Take | src/Pool.h:111-126 | empty exactly when nothing is free, else a handle on the next free index whose item is fresh or reset since its last use; no item and no other handle changes |
| Pools.Pool.MoveItem | src/PoolItem.h:73-82 | ownership of the index moves to the new handle; no index gains or loses its owner |
| Pools.Pool.ReturnToPool | src/Pool.h:118-121 | that item is reset and no other changes, then its index is given back once |
| Pools.Pool.Destroy | src/PoolItem.h:120-122 | a full handle resets its item and returns its index, an empty one changes nothing |
| Pools.Perform | src/Pool.h:111-126 | an operation of a program is exactly the step of the specified desk: free indices, items and what each handle holds |
| Pools.PerformAll | src/Pool.h:111-126 | so is a whole program |
| PoolSpec.OneOwnerStep | src/Pool.h:111-126 | an index is always either free or with exactly one handle |
| PoolSpec.OnlyItsHolderChangesIt | src/PoolItem.h:101-103 | an item changes only by a write through the handle that holds it or by the reset when that handle is destroyed |
| PoolSpec.KeptUntilTouched | src/Pool.h:111-126 | over any program a held item keeps its value and its holder until one of these happens |
| PoolSpec.LastWriteIsReset | src/Pool.h:118-121 | what the holder last wrote is what is reset when its handle is destroyed |
| Pools.RunProgram | src/Pool.h:111-126 | after any program every take was matched by exactly one return of the same index and the pool is full |
| NodePool.InitMemory | simple_pool/dyn_mem_pool.h:138-147 | new pools have empty lists and sound memory |
| NodePool.ReturnStep | simple_pool/dyn_mem_pool.h:229-233 | a return finds its own node through the header of the block |
| NodePool.MemoryStep | simple_pool/dyn_mem_pool.h:207-243 | every access is to existing memory, every block leads back to its node and has its pool's size, and no list leaves its home pool |
| NodeStacks.ChainIsUnique | simple_pool/dyn_mem_pool.h:22-40 | a list determines its stack, so it is finite and acyclic |
| NodeStacks.HeadOfChain | simple_pool/dyn_mem_pool.h:211-216 | the head of a list is the top of its stack and the rest hangs below it |
| NodeAnswers.StepIsAnswered | simple_pool/dyn_mem_pool.h:207-243 | in every state: acquire ends exactly by handing out the node it popped off its pool's list or allocated when that list was empty, or by a failed malloc; return ends exactly after pushing its own node on its home pool |
| NodeAnswers.EveryCallIsAnswered | simple_pool/dyn_mem_pool.h:207-243 | the same for every event of every run of new pools |
| NodeAnswers.BusyEnds | simple_pool/dyn_mem_pool.h:210-242 | a call left alone ends, or asks malloc, after at most seven accesses, whatever the others did before |
| NodeStacks.StackEvent | simple_pool/dyn_mem_pool.h:207-243 | unless a push is harmful, each event is one push, one pop or no change, and every node stays in exactly one place |
| NodeStacks.BooksFollow | simple_pool/dyn_mem_pool.h:217-243 | a successful compare-and-swap moves exactly one node between list and thread |
| NodeGuarantees.InitStacks | simple_pool/dyn_mem_pool.h:138-147 | new pools have empty stacks |
| NodeGuarantees.HarmlessRunKeepsStacks | simple_pool/dyn_mem_pool.h:207-243 | after every run without a harmful push each list is exactly its abstract stack and each node is in one place |
| NodeGuarantees.OnceEachIsHeldOnce | simple_pool/dyn_mem_pool.h:219-219 | then no block has two callers |
| NodeGuarantees.AnchoredPushIsHarmless | simple_pool/dyn_mem_pool.h:216-217 | while the nodes loaded by acquirers are still listed, no push is harmful |
| NodeGuarantees.SoleAcquirerIsSafe | simple_pool/dyn_mem_pool.h:210-242 | one thread per pool between head load and compare-and-swap, any number in return: no push is ever harmful |
| NodeReuse.BlockHandedOutTwice | simple_pool/dyn_mem_pool.h:210-221 | with two threads there is a run that gives one block two callers |
| NodeReuse.SafeExactlyForOneAcquirer | simple_pool/dyn_mem_pool.h:207-243 | no schedule with at most k acquirers in the window gives a block two callers if and only if k is at most 1 or there is one thread |
| NodeCounters.CountersStep | simple_pool/dyn_mem_pool.h:46-62 | each event keeps the counters exact up to the threads that have yet to count, modulo 2^32 |
| NodeCounters.CountersRun | simple_pool/dyn_mem_pool.h:188-243 | so they stay exact in every run without a harmful push |
| NodeCounters.NodesAdded | simple_pool/dyn_mem_pool.h:86-108 | only an allocation adds a node to a pool, and no node changes pools |
| NodeCounters.IdleCounters | simple_pool/dyn_mem_pool.h:35-40 | with no call in progress, available is the list length and allocs is listed plus held blocks, modulo 2^32 |
| NodeCounters.PoolsAreSound | simple_pool/dyn_mem_pool.h:188-243 | from new pools on, after every run without a harmful push: lists are their stacks, no block has two callers, and the counters are exact |
| SizeClasses.LeadingZerosBracket | simple_pool/dyn_mem_pool.h:319-319 | counting leading zeros locates the highest set bit |
| SizeClasses.FindIndexIsSmallest | simple_pool/dyn_mem_pool.h:313-320 | the index found is the least i with 2^(9+i) at least the size, and no other |
| SizeClasses.FindIndexIsMonotone | simple_pool/dyn_mem_pool.h:313-320 | larger sizes never get a smaller class |
| SizeClasses.InTableExactly | simple_pool/dyn_mem_pool.h:259-262 | the index is below 14 exactly for sizes from 1 to 2^22 |
| SizeClasses.ClassFits | simple_pool/dyn_mem_pool.h:322-331 | the class holds the size and is 512 or less than twice the size |
| Multipools.StepKeepsHomes | simple_pool/dyn_mem_pool.h:22-26 | no event changes the home or the size of an existing block |
| Multipools.MultiRunKeeps | simple_pool/dyn_mem_pool.h:329-341 | in every run an acquiring thread works on the pool of its size class, and every grant lives there |
| Multipools.EveryGrantFits | simple_pool/dyn_mem_pool.h:229-341 | every block ever handed out fits its request, wastes less than half above 512 bytes, and leads back to its node and home pool |
| Multipools.RefusedExactly | simple_pool/dyn_mem_pool.h:332-337 | a request is refused at once exactly when it is empty or larger than 4 MB |
| Multipools.EveryRequestIsAnswered | simple_pool/dyn_mem_pool.h:329-341 | the sizes a thread has asked for are, in order, those it was answered, by a block or a failed malloc, and the one it is working on |
| MemPools.ReleasesOnce | simple_pool/dyn_mem_pool.h:117-126 | releasing a list of distinct nodes releases each node and each block exactly once |
| MemPools.MemNode.FreePoolable | simple_pool/dyn_mem_pool.h:117-126 | frees the block, then the node |
| MemPools.MemPool.TryAllocData | simple_pool/dyn_mem_pool.h:86-108 | node and block refer to each other; a node without a block is freed again |
| MemPools.MemPool.Acquire | simple_pool/dyn_mem_pool.h:207-222 | pops the top block, or allocates when the list is empty |
| MemPools.MemPool.Return | simple_pool/dyn_mem_pool.h:229-243 | pushes the block's own node on its home pool |
| MemPools.MemPool.FreeAll | simple_pool/dyn_mem_pool.h:155-165 | terminates; frees each listed node and block exactly once and nothing else; the list is empty and the counter is lower by its length |
| MemPools.MemPool.Free | simple_pool/dyn_mem_pool.h:172-177 | the pool itself is freed last |
| MultipoolObjects.OthersUntouched | simple_pool/dyn_mem_pool.h:301-303 | releasing one pool touches no node or block of another |
| MultipoolObjects.EverythingOnce | simple_pool/dyn_mem_pool.h:298-303 | the pools, their listed nodes and these nodes' blocks are all different objects |
| MultipoolObjects.Multipool.constructor | simple_pool/dyn_mem_pool.h:279-291 | fourteen empty pools, pool i with blocks of 2^(9+i) bytes |
| MultipoolObjects.Multipool.Acquire | simple_pool/dyn_mem_pool.h:329-341 | the top block of the pool of the smallest class that fits, a new one of that class when that pool is empty, none for an unfit size; its counters follow and the other pools are unchanged |
| MultipoolObjects.Multipool.Return | simple_pool/dyn_mem_pool.h:229-243 | a block that is away goes back on top of its own pool, whose counter follows; the multipool stays valid and the other pools unchanged |
| MultipoolObjects.Multipool.FreeAll | simple_pool/dyn_mem_pool.h:298-305 | frees the listed nodes and blocks, the pools and the multipool, in order, each object once and nothing else |
| WorkerProtocol.InitPool | src/WorkerPool.h:58-71 | a new pool satisfies the invariant |
| WorkerProtocol.PoolStep | src/WorkQueue.h:37-55 | every event keeps: submitted is taken followed by queued; an awake taker for each queued task while anyone sleeps; a task for every taker once the flag is cleared |
| WorkerProtocol.PoolRun | src/WorkerPool.h:48-136 | so does every run, with spurious wake-ups and any mix of calls |
| WorkerShutdown.OneMoreTask | src/WorkerPool.h:52-55 | after the flag is cleared a worker takes one more task if it was inside `Take` and none otherwise |
| WorkerShutdown.TakenPlusOwed | src/WorkQueue.h:48-55 | tasks taken plus workers inside `Take` is constant once the flag is cleared |
| WorkerShutdown.NobodySleeps | src/WorkerPool.h:127-131 | once the last no-op is in, nobody sleeps and there is a queued task for every taker |
| WorkerShutdown.AddingNeverBlocks | src/WorkerPool.h:129-131 | adding a no-op is always possible and brings the shutdown one step on |
| WorkerShutdown.AddingEnds | src/WorkerPool.h:121-136 | no other thread adds to the work of the shutting-down thread |
| WorkerShutdown.WindingStep | src/WorkerPool.h:52-55 | after the last no-op every effective event uses up one unit of remaining work, submissions none |
| WorkerShutdown.EveryJoinCompletes | src/WorkerPool.h:133-135 | a run is finished exactly when it holds all remaining work, at most four steps a worker and one more; until then somebody can move |
| WorkerShutdown.ShutdownCanFinish | src/WorkerPool.h:121-136 | from wherever it stands after clearing the flag, shutdown can reach its end |
| WorkerShutdown.ShutdownAccounts | src/WorkerPool.h:126-135 | exactly as many tasks are taken as workers were inside `Take`, oldest first; the number left behind is exact |
| WorkerShutdown.QueuedTasksStartExactlyWhen | src/WorkerPool.h:126-135 | all tasks submitted before start if and only if no more were queued than workers were inside `Take` |
| WorkerShutdown.JobIsDropped | src/WorkerPool.h:150-156 | for any number of threads there is a run in which a submitted job is never started |
| WorkerShutdown.NothingAfterDone | src/WorkerPool.h:133-136 | nothing starts after shutdown has returned |
| WorkerTasks.ExecutedRun | src/WorkerPool.h:52-55 | in every run what was taken is what was run to its end and what the workers are running: the task taken is the task run, once |
| WorkerTasks.DoneIsExecuted | src/WorkerPool.h:133-135 | when `Shutdown` has returned everything taken was run to its end |
| WorkerTasks.QueuedTasksRunExactlyWhen | src/WorkerPool.h:126-135 | all tasks submitted before are run to their end if and only if no more were queued than workers were inside `Take` |
| WorkerTasks.QueuedRun | src/WorkerPool.h:104-131 | in every run the jobs queued grow by exactly the accepted submissions, in order, and the no-ops by exactly the adding steps |
| WorkerTasks.QueuedFromStart | src/WorkerPool.h:104-131 | of a new pool the jobs queued are the accepted submissions, and a finished shutdown has added a no-op for each worker |
| WorkerTasks.NoOpsOfShutdown | src/WorkerPool.h:129-131 | a whole shutdown queues a no-op for each worker and no job of its own |
| WorkerTasks.AllWorkRun | src/WorkerPool.h:52-55 | no worker leaves its loop while the flag is set |
| WorkerTasks.AwakeWorkerServes | src/WorkerPool.h:52-55 | an awake worker takes the oldest task within three steps of its own, runs it, and finishes it with one more |
| WorkerPools.WorkQueue.Add | src/WorkQueue.h:37-41 | appends the task and wakes one sleeper if there is one |
| WorkerPools.WorkQueue.Take | src/WorkQueue.h:48-55 | one pass of the wait loop: the oldest task, or sleep when there is none |
| WorkerPools.WorkQueue.HasWork | src/WorkQueue.h:63-66 | true exactly when tasks are queued |
| WorkerPools.WorkerPool.Submit | src/WorkerPool.h:104-106 | is the machine's submission |
| WorkerPools.WorkerPool.Work | src/WorkerPool.h:52-55 | is the machine's worker step, of which `WorkerTasks.ExecutedRun` says that the task taken is the task run |
| WorkerPools.WorkerPool.ShutdownOnce | src/WorkerPool.h:121-136 | is the machine's next shutdown step, of which `WorkerTasks.QueuedRun` says what it queues |
| WorkerPools.WorkerPool.AddNoOps | src/WorkerPool.h:129-131 | the loop adds one no-op for each worker, and no job but those submitted meanwhile, whatever the other threads do in between |
| WorkerPools.WorkerPool.RunOut | src/WorkerPool.h:133-135 | after the last no-op a worker that runs leaves its loop, so its join returns |
| WorkerPools.WorkerPool.JoinAll | src/WorkerPool.h:133-135 | the loop joins every worker |
| WorkerPools.WorkerPool.Shutdown | src/WorkerPool.h:121-136 | returns with all workers gone, a task taken and run to its end for each worker that was inside `Take` when the flag was cleared, and a no-op added for each worker; all tasks queued then were run exactly when there were no more of them; a later call changes nothing |
| WorkerPools.WorkerPool.RunSchedule | src/WorkerPool.h:48-136 | the objects follow the machine through any schedule and keep its invariant |

## Left out

- Weak memory ordering: atomics are sequentially consistent. Weak compare-and-swaps fail at will in the step machines.
- Fair scheduling: completion results bound the steps that remain and show that one can be taken; that threads are scheduled is assumed.
- RingProtocol.TicketsStep: positions are unbounded; `RingWrap.FewReturnsNeverWrap` carries it to the code's positions until the first wrap, after which a position no longer identifies a ticket.
- RingProtocol.TicketsRun: unbounded positions, as `RingProtocol.TicketsStep`.
- RingSafety.RingStep: unbounded positions, as `RingProtocol.TicketsStep`.
- RingGuarantees.LapFreeRunKeepsIndices: unbounded positions, as `RingProtocol.TicketsStep`; for the code's positions see `RingWrapSafety.BoundedExclusiveExactly`.
- RingGuarantees.LapFreeRunRefinesFifo: unbounded positions, as `RingProtocol.TicketsStep`.
- RingLaps.SmallStepIsLapFree: unbounded positions; at the wrap it is false of the code, see `RingWrapDouble.WrapHandsOutTwice`.
- RingLaps.SmallRunIsLapFree: unbounded positions, as `RingLaps.SmallStepIsLapFree`.
- RingLaps.SmallRunIsSafe: unbounded positions; at the wrap it is false of the code, see `RingWrapDouble.WrapHandsOutTwice` and `RingWrapSingle.TurnHandsOutTwice`.
- RingDoubleHandOut.ExclusiveExactlyWhenSmall: unbounded positions; the exact condition for the code is `RingWrapSafety.BoundedExclusiveExactly`.
- RingEmpty.EmptyIsTrueExactlyWhenAlone: unbounded positions; `RingWrapEmpty.BoundedEmptyExactly` is the same with the code's.
- Spinning, laps and the queue order after a wrap: of the ring with bounded positions only exclusive ownership and Empty are stated, and for one thread the queue.
- Step machines as objects: the interleaved ring and memory pools are values, as an interleaving has no single call to attach a contract to.
- ConcurrentIndexers.ConcurrentIndexer.Next: one call at a time and compare-and-swaps that succeed, so a failed attempt and the yield in the wait loops are not part of it.
- ConcurrentIndexers.ConcurrentIndexer.Return: one call at a time, as `ConcurrentIndexers.ConcurrentIndexer.Next`.
- IndexerSpec.HolderLeavesRoom: returning an index nobody holds is undefined in the source and is not modelled.
- Pools.Pool.Take: calls from several threads at once; the pool is modelled over the sequential allocators.
- Pools.RunProgram: programs of one thread, as `Pools.Pool.Take`.
- Pools.Pool.constructor: a ring of no indices, whose size is 0 and which the source divides by.
- The item pointer of a handle is its position in the container; items are values replaced as a whole.
- NodePool.MemoryStep: freeing while others acquire or return is documented as unsafe and is not part of the step machine.
- MultipoolObjects.Multipool.constructor: allocation of the pools always succeeds, since the source does not check it.
- MultipoolObjects.Multipool.Acquire: a size without a class gives NULL, as with assertions compiled out.
- SizeClasses.FindIndexIsSmallest: size 0 is documented as undefined; the wrapped computation is modelled and has no class.
- Pointer arithmetic, alignment and the inside of malloc: headers are a map from block to node, and allocation may fail at any time.
- WorkerPools.WorkQueue.Take: one pass of the wait loop; the loop itself is the worker's steps between `Committed` and `Asleep`.
- WorkerPools.WorkerPool.Shutdown: the others do the same events before each of its steps, and a worker it waits for is run until it leaves.
- WorkerProtocol.PoolRun: every task returns, no task shuts its own pool down, and one thread calls `Shutdown`.
- Futures, promises and arguments in the templated `Submit`: a task is an identifier.
- The global multipool, CPU affinity, NUMA discovery, `Processor`, the pool builder and the type policies: setters, checks and system calls.
- Tests, fuzzers, benchmarks and examples.
