# The Solaris Porting Layer, modelled in Dafny

SPL gives ZFS the Solaris kernel interfaces on Linux. Most of it is glue, but several parts are
algorithms that must keep whole-run invariants under concurrency, or exact arithmetic. This
project models those parts and proves what they are for.

| files | part of SPL |
|---|---|
| `KmemCacheSpec`, `KmemCacheProofs`, `KmemCacheRuns`, `KmemCacheCalls`, `KmemCache` | the slab allocator: slabs, per-CPU magazines, the emergency tree, and what an allocation that may not sleep returns |
| `SlabLayout` | slab sizing, object layout, magazine sizing, the power-of-two macros |
| `TaskqSpec`, `TaskqProofs`, `TaskqRuns`, `Taskq` | task queues: dispatch, delay, cancel, wait, dynamic threads |
| `Condvar` | condition variables, one atomic operation at a time |
| `TsdSpec`, `TsdProofs`, `Tsd` | thread specific data: hash table with key and process rings |
| `XdrSpec`, `XdrProofs`, `Xdr` | the XDR memory codec (sections 3.2, 3.5, 3.9, 3.11 and 3.13 of RFC 1832) |
| `Division` | 64-bit division for 32-bit machines |
| `Rand` | the xorshift128+ generator and its jump |
| `Kstat` | I/O queue-time accounting |
| `Seqs`, `Arith`, `Wrappers` | facts about lists, division and powers of two that the others share |

Code that changes state in place is a class (`Cache`, `Taskq`, `Table`, `Stream`, `KstatIo`) or a
method on an array, and each of its methods is proved equal to a step of a state machine on
values. The theorems about all runs are stated on that machine. Steps are the sections that the
source runs with its lock held or with interrupts off, so steps of any number of CPUs, callers and
threads interleave in every order. Condition variables, which use no lock, are modelled by a
program counter per thread and one atomic operation per step. Division and the slab layout are
straight-line arithmetic and are functions with every 32- and 64-bit wrap written out.

## What the proofs found

- `spl_kmem_cache_alloc` with KM_NOSLEEP passes on what the refill returns, and a refill that succeeds
  returns NULL. So with an empty local magazine the call fails while a batch of objects is free, and
  leaves that batch in the magazine (`KmemCacheCalls.NoSleepFailsWithObjectsFree`). It yields an object if
  and only if the magazine was not empty, or fewer objects than a batch were free and the last
  attempt to grow the cache handed over an emergency object (`KmemCacheCalls.NoSleepExact`), which a
  deadlocked cache does (`KmemCacheCalls.NoSleepYieldsEmergency`).
- `taskq_dispatch` with TQ_NOQUEUE puts the highest id in front of the priority list. Afterwards the
  check of `taskq_wait_id` is right for all tasks if and only if the list was empty
  (`TaskqProofs.NoQueueWaitIff`, and for every run `TaskqRuns.NoQueueWaits`): every task behind the new one
  is hidden from the search. When the lowest task goes, tq_lowest_id, on which the other two
  waits rest, is right if and only if the list was empty or some task not hidden has an id below
  the first hidden one (`TaskqProofs.NoQueueLowestIff`). `TaskqRuns.NoQueueBreaksWaiting` is a run in which
  both waits for a task that has not run return and tq_lowest_id later decreases. All waiting
  theorems hold for every run in which no TQ_NOQUEUE dispatch meets a non-empty priority list.
- The comment on `taskq_wait_outstanding` speaks of ids lower than the argument; the code waits for
  the argument's own task too. The model follows the code.
- The key search of `tsd_create` goes through TSD_KEYS_MAX + 1 values. The top one is PID_KEY, which
  `tsd_set` rejects. ENOENT comes back exactly if every key but the one last given out is live.
- `tsd_set` with NULL runs the destructor with NULL, because the value is overwritten first
  (`TsdProofs.SetCalls`).
- `__divmoddi4` fails for INT64_MIN divided by -1 and for nothing else.
- `spl_offslab_size` holds its object exactly while the object stays below 2^30 bytes.

## Assumptions

- The page allocator returns memory that is not in use; the emergency tree is an ordered set.
- Callers free only objects they hold, pass keys they created to `tsd_set`, keep C's guarantees about
  argument ranges, and start no condition-variable operation after destroy has begun.
- A timer that fires and the section of `task_expire_impl` are one step: `taskq_cancel_id` synchronises
  only with a timer that is still pending.
- Task ids, counters of tasks, and clock values do not wrap.

## Model

| member | source | states |
|---|---|---|
| KmemCacheRuns.RunInv | module/spl/spl-kmem-cache.c:377-453 | every interleaving of alloc, free, refill, flush, grow, reap and emergency allocation, on any number of CPUs, keeps the whole invariant: placement, list membership, list order, magazine bounds and all counters |
| KmemCacheRuns.CreatedInv | module/spl/spl-kmem-cache.c:871-1045 | a new cache satisfies the invariant |
| KmemCacheRuns.NextInv | module/spl/spl-kmem-cache.c:1314-1576 | each section keeps the invariant |
| KmemCacheRuns.ExactlyOnePlace | module/spl/spl-kmem-cache.c:1122-1154 | in every reachable state an object of a live slab is in exactly one of its slab's free list, one magazine slot or the callers' hands, counted with repeats, and any other address is nowhere |
| KmemCacheRuns.NotHandedOutTwice | module/spl/spl-kmem-cache.c:1436-1506 | an object that was handed out and not freed stays with its caller through any run and is not what the next alloc on any CPU returns |
| KmemCacheRuns.ReclaimReleasesOnlyIdle | module/spl/spl-kmem-cache.c:405-453 | reclaim releases a slab if and only if all its objects are on its free list; then none is in a magazine or held |
| KmemCacheRuns.DestroyDrains | module/spl/spl-kmem-cache.c:1062-1116 | after any run, with nothing held, flushing the magazines and reclaiming makes every counter zero and empties both lists, the slab set and the emergency tree |
| KmemCacheRuns.FlushTakesOldest | module/spl/spl-kmem-cache.c:581-595 | a flush removes exactly the oldest objects of one magazine, in order, and touches no other magazine and no caller |
| KmemCacheRuns.FlushAllInv | module/spl/spl-kmem-cache.c:832-848 | emptying all magazines keeps the invariant and leaves every magazine empty |
| KmemCacheRuns.FreeInv | module/spl/spl-kmem-cache.c:1508-1576 | freeing a held object keeps the invariant: an emergency object leaves the tree and its counters, an object of a slab is then in the local magazine |
| KmemCacheRuns.FreeIntoMagazine | module/spl/spl-kmem-cache.c:1564-1572 | what a free leaves in the magazines: a full local magazine loses exactly its oldest skm_refill objects, the freed object becomes the newest, every other magazine is as it was, and an emergency object enters none |
| KmemCacheRuns.AllocUndoesFree | module/spl/spl-kmem-cache.c:1473-1475 | an alloc on the same CPU returns the object just freed, and the two together leave only the room that was made |
| KmemCacheRuns.TakeUndoesShrink | module/spl/spl-kmem-cache.c:1392-1430 | an object given back to a full slab is the next one a refill takes; slabs, counters and the partial list are then as they were |
| KmemCacheCalls.NoSleepExact | module/spl/spl-kmem-cache.c:1472-1483 | whatever other CPUs do while the call has dropped the lock, a KM_NOSLEEP allocation keeps the invariant and yields an object, which the caller then holds, if and only if the local magazine was not empty, or fewer than skm_refill objects were free and the last attempt to grow handed over an emergency object |
| KmemCacheCalls.NoSleepFailsWithObjectsFree | module/spl/spl-kmem-cache.c:1472-1483 | with an empty magazine and at least skm_refill objects free it returns NULL, hands nothing out, and leaves exactly skm_refill objects in the magazine and that many fewer free |
| KmemCacheCalls.NoSleepYieldsEmergency | module/spl/spl-kmem-cache.c:1335-1343 | on a deadlocked cache without free objects it returns an emergency object for any address not in the tree |
| KmemCacheCalls.NoSleepAccounts | module/spl/spl-kmem-cache.c:1436-1500 | without interference callers hold afterwards what they held before and exactly the object returned, which they did not hold |
| KmemCacheCalls.RefillCallInv | module/spl/spl-kmem-cache.c:1314-1386 | a refill with any number of attempts to grow, each with other CPUs running before, inside and after it, keeps the invariant, and an object it returns is held |
| KmemCacheCalls.VisitsIffShort | module/spl/spl-kmem-cache.c:1329-1343 | the refill tries to grow the cache if and only if fewer objects are free than it owes |
| KmemCacheCalls.TakenIs | module/spl/spl-kmem-cache.c:1327-1382 | one refill section moves as many objects as are owed or free, whichever is less, and the free count falls by as many |
| KmemCacheCalls.FreeIffPartial | module/spl/spl-kmem-cache.c:1329-1330 | the counters show a free object exactly if the partial list is not empty |
| KmemCacheCalls.NewSlabInOrder | module/spl/spl-kmem-cache.c:337-355 | the objects of a new slab reach the magazine in the order of their addresses |
| KmemCacheCalls.EmergencyOnlyWhenShort | module/spl/spl-kmem-cache.c:512-548 | an emergency object is handed over only while no object of any slab is free, and nobody holds it before |
| KmemCacheCalls.RefillCallFills | module/spl/spl-kmem-cache.c:1327-1384 | without interference a refill that never gives up puts all it owes into the magazine, however many slabs that takes |
| KmemCacheProofs.TakeKeeps | module/spl/spl-kmem-cache.c:1358-1381 | moving one object from the first partial slab to a magazine keeps every part of the invariant |
| KmemCacheProofs.ShrinkKeeps | module/spl/spl-kmem-cache.c:1392-1430 | returning an object keeps it, with the move of a formerly full slab to the head and of an empty one to the tail of the partial list |
| KmemCacheProofs.GrowKeeps | module/spl/spl-kmem-cache.c:1161-1184 | a new slab at the tail keeps it |
| KmemCacheProofs.ReclaimKeeps | module/spl/spl-kmem-cache.c:405-453 | removing every empty slab keeps it |
| KmemCacheProofs.HeadHasFree | module/spl/spl-kmem-cache.c:1358-1376 | the first partial slab always has a free object, so the inner loop of refill may take one without a test |
| KmemCacheProofs.OldestIsCounted | module/spl/spl-kmem-cache.c:1392-1404 | the slab of an object in a magazine exists and has a positive reference count |
| KmemCache.ScanIsReclaim | module/spl/spl-kmem-cache.c:405-429 | because the partial list is a run of slabs in use followed by empty ones, stopping the reverse scan at the first slab in use frees exactly the set a full filter frees |
| KmemCache.Cache.constructor | module/spl/spl-kmem-cache.c:871-1045 | the fields of a new cache, and its invariant |
| KmemCache.Cache.AllocFast | module/spl/spl-kmem-cache.c:1472-1475 | the newest object of the magazine goes to a caller who did not hold it |
| KmemCache.Cache.RefillSection | module/spl/spl-kmem-cache.c:1314-1382 | the nested loops move the objects one-by-one refilling would, and stop short only without partial slabs |
| KmemCache.Cache.TakeFromHead | module/spl/spl-kmem-cache.c:1358-1381 | one turn of the outer loop takes at least one object and still leads to the state the whole refill leads to |
| KmemCache.Cache.ShrinkObj | module/spl/spl-kmem-cache.c:1392-1430 | the in-place relinking of one returned object |
| KmemCache.Cache.FlushSection | module/spl/spl-kmem-cache.c:581-595 | the loop and the final move of the rest equal shrinking the oldest objects one by one |
| KmemCache.Cache.Free | module/spl/spl-kmem-cache.c:1508-1576 | the whole new state of a free, which FreeIntoMagazine spells out for the magazines, and that reclaim is due exactly if the object is not an emergency object and the magazine was full |
| KmemCache.Cache.EmergencyNeeded | module/spl/spl-kmem-cache.c:512-517 | the first section of spl_emergency_alloc lets through exactly if no live slab has a free object |
| KmemCache.Cache.EmergencyAlloc | module/spl/spl-kmem-cache.c:529-548 | its second section: an address already in the tree is refused, a new one is counted and held |
| KmemCache.Cache.EmergencyFree | module/spl/spl-kmem-cache.c:553-575 | found exactly if in the tree, and then dropped from tree and counters |
| KmemCache.Cache.GrowSlab | module/spl/spl-kmem-cache.c:1161-1184 | a fresh slab with all objects free, at the tail, counted |
| KmemCache.Cache.ScanTail | module/spl/spl-kmem-cache.c:417-429 | the reverse scan removes a suffix of empty slabs and stops at a slab in use |
| KmemCache.Cache.ReclaimSection | module/spl/spl-kmem-cache.c:405-453 | the scan equals the full filter, the freed slabs are exactly those that disappear, and afterwards skc_slab_total equals skc_slab_alloc |
| SlabLayout.P2RoundUpLeast | include/spl/sys/sysmacros.h:210-211 | the or-and-add macro gives the least multiple of the power of two from its argument on, or zero exactly if that is 2^32 |
| SlabLayout.IsP2Pow2 | include/spl/sys/sysmacros.h:187 | a non-zero number that passes the and-test of ISP2 is a power of two |
| SlabLayout.Pow2IsP2 | include/spl/sys/sysmacros.h:187 | every power of two passes it |
| SlabLayout.FitIsTight | module/spl/spl-kmem-cache.c:718-724 | header and objects fit the chosen size and the limit, and one more object would not |
| SlabLayout.SlabHoldsAll | module/spl/spl-kmem-cache.c:688-733 | without 32-bit overflow a successful sizing holds header and all cells, and for KMC_KMEM the size is a power of two |
| SlabLayout.KmemOrderIs | module/spl/spl-kmem-cache.c:714-716 | the order chosen is one, or for more than four pages the one whose block is the largest below the wanted size |
| SlabLayout.KmemSlabSize | module/spl/spl-kmem-cache.c:688-733 | a KMC_KMEM slab has two pages if the wanted objects need at most four; otherwise it is less than they need, and at least half of it or the largest block there is |
| SlabLayout.VmemSlabSize | module/spl/spl-kmem-cache.c:688-733 | a KMC_VMEM slab whose spl_kmem_cache_obj_per_slab objects fit the limit has exactly these objects and exactly their size and the header |
| SlabLayout.SizingFailsIff | module/spl/spl-kmem-cache.c:688-733 | sizing fails if and only if not one object fits beside the header, or off-slab if no object is asked for or a KMC_KMEM object exceeds the largest block |
| SlabLayout.LayoutSound | module/spl/spl-kmem-cache.c:241-278 | every object is aligned, after the slab header, inside the slab, with its own header inside its own cell, and no two cells overlap |
| SlabLayout.LayoutCells | module/spl/spl-kmem-cache.c:337-355 | the addresses of the allocation loop are the cells of the layout theorem, each after the end of the one before |
| SlabLayout.OffslabHoldsObject | module/spl/spl-kmem-cache.c:274-278 | the off-slab size is a power of two above twice the object size exactly while the object is below 2^30, and zero otherwise |
| SlabLayout.OffslabSlabIsOnePage | module/spl/spl-kmem-cache.c:692-700 | an off-slab cache has one page per slab header and the tunable number of objects |
| SlabLayout.MagazineSizeOrder | module/spl/spl-kmem-cache.c:740-763 | larger objects never get larger magazines, and the tunable is used as it is exactly between 2 and 256 |
| SlabLayout.MagazineHolds | module/spl/spl-kmem-cache.c:750-759 | what a full magazine holds, between bounds for each of the five classes: with 4 KiB pages more than 128 KiB, 256 KiB, 2 MiB and 4 MiB in the upper four |
| SlabLayout.RefillBelowSize | module/spl/spl-kmem-cache.c:767-786 | the refill batch is at least one and below the magazine size |
| TaskqRuns.RunInv | module/spl/spl-taskq.c:99-202 | every interleaving of dispatches, timers, cancels, workers, spawns, exits and destroy keeps placement, pool and thread invariants |
| TaskqRuns.RunSound | module/spl/spl-taskq.c:208-321 | in every run in which no TQ_NOQUEUE dispatch meets a non-empty priority list, the four lists stay strictly sorted and tq_lowest_id is the least unfinished id, or tq_next_id if there is none |
| TaskqRuns.NextSound | module/spl/spl-taskq.c:916-962 | each such step keeps that |
| TaskqRuns.ExactlyOnePlace | module/spl/spl-taskq.c:556-732 | in every run every id below tq_next_id is delayed, prioritised, pending, active, completed or cancelled; the lists agree with that both ways, and an unfinished id is on exactly one list once |
| TaskqRuns.StepOnward | module/spl/spl-taskq.c:208-243 | a step leaves a task alone or moves it one stage onward in its life |
| TaskqRuns.RunsAtMostOnce | module/spl/spl-taskq.c:916-971 | in every run a task's function is started once if the task is active or completed, and never if it waits or was cancelled |
| TaskqRuns.OverForever | module/spl/spl-taskq.c:503-551 | a completed or cancelled task stays so |
| TaskqRuns.WaitOutstandingExact | module/spl/spl-taskq.c:437-462 | for an id given out, the check is true if and only if every task up to and including the id is over |
| TaskqRuns.WaitOutstandingSound | module/spl/spl-taskq.c:437-462 | what a true check promised holds in all later states, whatever is dispatched later |
| TaskqRuns.WaitExact | module/spl/spl-taskq.c:465-488 | the check of taskq_wait is true if and only if no task is outstanding |
| TaskqRuns.WaitIdExact | module/spl/spl-taskq.c:413-434 | the check of taskq_wait_id is true if and only if the task is over or was never dispatched |
| TaskqRuns.LowestNeverDecreases | module/spl/spl-taskq.c:266-298 | tq_lowest_id never decreases |
| TaskqRuns.NextIsLeast | module/spl/spl-taskq.c:765-778 | a thread takes the lowest prioritised id, or without one the lowest pending id, so tasks of a kind start in the order of their ids |
| TaskqRuns.NoQueueWaits | module/spl/spl-taskq.c:413-424 | in every reachable state up to then tame, a TQ_NOQUEUE dispatch leaves the taskq_wait_id check right for all tasks if and only if it meets an empty priority list |
| TaskqRuns.NoQueueBreaksWaiting | module/spl/spl-taskq.c:586-588 | a run from any new queue with two threads: task 2 waits behind task 3, tq_lowest_id becomes 3, the search misses task 2, and later tq_lowest_id falls back to 2 |
| TaskqRuns.JumpIsARun | module/spl/spl-taskq.c:566-588 | its dispatches are steps of the queue, the TQ_NOQUEUE one with a thread idle as the code demands |
| TaskqRuns.PoolCounts | module/spl/spl-taskq.c:99-202 | tq_nalloc counts the entries that are free, queued, executing or in the hand of a cancel, and the free list stays within tq_minalloc |
| TaskqRuns.DestroyDrains | module/spl/spl-taskq.c:1174-1196 | with no task outstanding and no cancel under way, draining the free list makes tq_nalloc zero, and all lists are empty |
| TaskqRuns.ThreadCounts | module/spl/spl-taskq.c:805-889 | tq_nactive is the active-list length and at most tq_nthreads, which is the thread-list length, and threads plus spawns stay within the maximum |
| TaskqRuns.NeverTooMany | module/spl/spl-taskq.c:881-889 | a spawned thread always joins the list: its early exit is unreachable |
| TaskqRuns.PrimaryForever | module/spl/spl-taskq.c:832-848 | the first thread stays first until destroy stops the threads |
| TaskqRuns.DispatchOrder | module/spl/spl-taskq.c:586-594 | which task a thread takes next after each kind of dispatch: the new one at once with TQ_NOQUEUE, behind other priority tasks with TQ_FRONT, behind everything otherwise, not at all if delayed |
| TaskqRuns.ExpireOrder | module/spl/spl-taskq.c:208-243 | a task whose timer has expired is taken next unless a priority task with a lower id waits |
| TaskqRuns.CancelledNeverRuns | module/spl/spl-taskq.c:503-551 | a task cancelled while it waits is not executed in any continuation |
| TaskqRuns.ReachesMaximum | module/spl/spl-taskq.c:805-822 | from any state of an open dynamic queue with no thread on its way, spawns lead to exactly tq_maxthreads threads |
| TaskqRuns.NewReachesMaximum | module/spl/spl-taskq.c:1025-1117 | so does a new dynamic queue |
| TaskqRuns.LeavesOnlyIdle | module/spl/spl-taskq.c:832-848 | until destroy, a thread leaves only a dynamic queue, with nothing waiting, nothing executing and no spawn under way, and never the first thread |
| TaskqRuns.ShrinksToFirst | module/spl/spl-taskq.c:832-848 | an idle dynamic queue can shrink to one thread |
| TaskqProofs.NoQueueSortsIff | module/spl/spl-taskq.c:586-588 | a TQ_NOQUEUE dispatch keeps the lists sorted if and only if the priority list was empty |
| TaskqProofs.NoQueueHides | module/spl/spl-taskq.c:327-344 | it hides every task of the priority list from the search |
| TaskqProofs.NoQueueWaitIff | module/spl/spl-taskq.c:413-424 | after it the taskq_wait_id check is right for all tasks if and only if the priority list was empty |
| TaskqProofs.NoQueueLowestIff | module/spl/spl-taskq.c:266-298 | when the lowest task then ends or is cancelled, tq_lowest_id is right if and only if the priority list was empty or an unfinished task elsewhere has an id below its first |
| TaskqProofs.InsertSorted | module/spl/spl-taskq.c:303-321 | inserting by a scan from the tail keeps a sorted list sorted |
| TaskqProofs.InsertSplit | module/spl/spl-taskq.c:225-236 | where the scan inserts: everything behind is not smaller, the element before is smaller |
| TaskqProofs.LowestIdIsLeast | module/spl/spl-taskq.c:266-298 | on sorted lists the least of four heads and the next id is the least unfinished id |
| TaskqProofs.FindExact | module/spl/spl-taskq.c:352-381 | on sorted lists the early-stopping search says exactly whether a task waits, executes or neither |
| TaskqProofs.StartThreads | module/spl/spl-taskq.c:872-889 | a starting thread finds room and joins at the end |
| TaskqProofs.StartExact | module/spl/spl-taskq.c:872-889 | a thread that starts joins the tail of the list if and only if there are fewer than the maximum |
| TaskqProofs.SpawnExact | module/spl/spl-taskq.c:805-822 | tq_nspawn rises by one if and only if the queue is dynamic and open and threads plus spawns are below tq_maxthreads; nothing else changes but the thread sent for |
| TaskqProofs.DoneExact | module/spl/spl-taskq.c:181-202 | an entry is freed if and only if tq_nalloc is above tq_minalloc, and else joins the free list |
| Taskq.InsertInOrder | module/spl/spl-taskq.c:303-321 | the loop from the tail computes the insertion |
| Taskq.ScanList | module/spl/spl-taskq.c:327-344 | the loop of taskq_find_list |
| Taskq.Taskq.constructor | module/spl/spl-taskq.c:1025-1117 | a new queue, with a filled pool if asked for |
| Taskq.Taskq.Prepopulate | module/spl/spl-taskq.c:1076-1085 | the loop leaves tq_minalloc free entries, all counted |
| Taskq.Taskq.TaskDone | module/spl/spl-taskq.c:181-202 | an entry is kept or freed by the count |
| Taskq.Taskq.ReadLowest | module/spl/spl-taskq.c:266-298 | the value computed from the heads |
| Taskq.Taskq.FindTask | module/spl/spl-taskq.c:352-381 | the searches in order, and the scan of the active list |
| Taskq.Taskq.ThreadSpawn | module/spl/spl-taskq.c:805-822 | tq_nspawn rises exactly if the queue is dynamic and active and tq_nthreads + tq_nspawn < tq_maxthreads |
| Taskq.Taskq.DispatchCheck | module/spl/spl-taskq.c:566-579 | a dispatch goes on exactly if the queue is active and, with TQ_NOQUEUE and no idle thread, another thread may still be spawned, which it then is |
| Taskq.Taskq.DispatchLink | module/spl/spl-taskq.c:581-610 | the entry is allocated, numbered and linked: the dispatch step |
| Taskq.Taskq.DispatchEntLink | module/spl/spl-taskq.c:696-722 | the caller's entry is numbered and linked |
| Taskq.Taskq.DispatchTask | module/spl/spl-taskq.c:556-618 | a whole dispatch, with the spawn test in the fields of the queue: when it queues, where, which entry it takes, that it returns the next id or 0, and that it spawns exactly if no thread is idle |
| Taskq.Taskq.DispatchEntTask | module/spl/spl-taskq.c:671-731 | the same for a caller's entry, which TQ_NOQUEUE sends to the priority list and for which it may spawn twice |
| Taskq.Taskq.TimerExpires | module/spl/spl-taskq.c:208-243 | the timer step |
| Taskq.Taskq.CancelTask | module/spl/spl-taskq.c:503-551 | the result by state of the task, and the cancel step for a waiting one |
| Taskq.Taskq.CancelTimerStopped | module/spl/spl-taskq.c:531-539 | the second section of a cancel |
| Taskq.Taskq.ThreadTakes | module/spl/spl-taskq.c:916-942 | the take step, priority list first |
| Taskq.Taskq.ThreadEnds | module/spl/spl-taskq.c:944-962 | the finish step with the lowest id recalculated |
| Taskq.Taskq.ThreadJoins | module/spl/spl-taskq.c:872-889 | the start step |
| Taskq.Taskq.ThreadShouldStop | module/spl/spl-taskq.c:832-848 | true exactly for a thread other than the first of an idle dynamic queue with more than one thread, if the tunable allows it |
| Taskq.Taskq.ThreadQuits | module/spl/spl-taskq.c:982-983 | the leave step |
| Taskq.Taskq.DrainFree | module/spl/spl-taskq.c:1174-1181 | the loop empties the free list and counts it off |
| Condvar.RunInv | module/spl/spl-condvar.c:80-130 | in every interleaving cv_refs is the number of threads in an operation plus the base reference, cv_waiters the number of threads between their two updates, a set cv_mutex has a thread that vouches for it, and queue, sleep state and mutex ownership agree with the program counters |
| Condvar.ActMutex | module/spl/spl-condvar.c:112-120 | the unlocked clear is harmless: whoever leaves without clearing leaves another counted waiter behind |
| Condvar.DestroyIsSafe | module/spl/spl-condvar.c:48-77 | when destroy returns no thread will touch the condition variable again, both counters are zero, cv_mutex is NULL and the queue is empty |
| Condvar.QuietAfterDestroy | module/spl/spl-condvar.c:60-77 | and so it stays in every continuation |
| Condvar.DestroyReturns | module/spl/spl-condvar.c:67-70 | once all operations are over, two reads let destroy return |
| Condvar.LookExact | module/spl/spl-condvar.c:48-57 | destroy passes its first test exactly if no thread is between its two updates of cv_waiters, and its second exactly if none will touch the condition variable again |
| Condvar.WaitReturnsOwning | module/spl/spl-condvar.c:80-130 | through any interleaving, a thread that has returned from a wait owns the mutex it waited with, until it releases it or calls again |
| Condvar.LoneWaitSleeps | module/spl/spl-condvar.c:88-110 | a wait on an unused condition variable gets its thread queued, asleep and counted, cv_mutex naming its mutex and the mutex released |
| Condvar.LoneWaitReturns | module/spl/spl-condvar.c:112-129 | and once woken leads back to the state before the call, the mutex again its own |
| Condvar.QueuesBehind | module/spl/spl-condvar.c:91-98 | a waiter that finds cv_mutex set leaves it alone and joins the tail of the queue with its second operation |
| Condvar.OnlyThatMutex | module/spl/spl-condvar.c:91-95 | if all waits use one mutex, cv_mutex is NULL or that mutex in every run, as the source asserts |
| Condvar.SleepersAreCounted | module/spl/spl-condvar.c:98-113 | if the signaller holds the waiters' mutex, the sleeping threads on the queue are among those counted in cv_waiters |
| Condvar.WakeTakes | module/spl/spl-condvar.c:374-409 | a wakeup by signal takes exactly one thread out of the sleepers if there is one, by broadcast all |
| Condvar.LongestQueuedFirst | module/spl/spl-condvar.c:374-392 | the thread a signal wakes is the sleeper that has been queued longest |
| Condvar.NoLostWakeup | module/spl/spl-condvar.c:374-409 | through any interleaving, from the start of a signal call by the mutex holder to its last operation, at least one of those asleep at the start has become runnable, and after a broadcast nobody sleeps |
| Condvar.NobodyFallsAsleep | module/spl/spl-condvar.c:98-113 | no thread joins the sleepers while the signaller holds the mutex |
| TsdProofs.FreshRunRefines | module/spl/spl-tsd.c:330-356 | from a new table on, after any sequence of create, set, destroy and exit, for any hash function, each entry is in the bin of its hash and on exactly its key's and its process's ring, and the table holds what the operations make of an empty map |
| TsdProofs.RunRefines | module/spl/spl-tsd.c:98-202 | the same from any well-formed table |
| TsdProofs.StepRefines | module/spl/spl-tsd.c:459-500 | each operation acts on the plain map as it says |
| TsdProofs.SetRefines | module/spl/spl-tsd.c:459-500 | set stores, replaces or, for NULL, removes exactly one value |
| TsdProofs.DestroyRefines | module/spl/spl-tsd.c:588-640 | destroy removes the key and exactly the values of the key |
| TsdProofs.ExitRefines | module/spl/spl-tsd.c:651-702 | exit removes exactly the values of the process |
| TsdProofs.CreateRefines | module/spl/spl-tsd.c:215-265 | create adds the key it found with its destructor, or nothing |
| TsdProofs.DestroyCalls | module/spl/spl-tsd.c:128-142 | destroy calls a non-NULL destructor exactly once for each value of the key, with that value, and makes no other call |
| TsdProofs.ExitCalls | module/spl/spl-tsd.c:651-702 | the same for exit and the process |
| TsdProofs.SetCalls | module/spl/spl-tsd.c:473-487 | a set of NULL on a value with a destructor makes one call, with NULL; every other set makes none |
| TsdProofs.FiniCallsAll | module/spl/spl-tsd.c:366-392 | tearing the table down calls it exactly once for every value left |
| TsdProofs.NewestCalledLast | module/spl/spl-tsd.c:128-202 | destructors run in the order in which the values were first set: for a value added now, destroy of the key and exit of the process make its call last, after the calls they would have made |
| TsdProofs.KeySearch | module/spl/spl-tsd.c:230-244 | the key search yields the first free key of the cycle 1 .. TSD_KEYS_MAX + 1, fails if and only if every key but the last given out is live, and then at least TSD_KEYS_MAX keys are live and ht_key is unchanged |
| TsdProofs.RemoveEntryIs | module/spl/spl-tsd.c:401-446 | the process anchor is removed exactly with the last entry of its ring |
| TsdProofs.SearchExact | module/spl/spl-tsd.c:98-119 | searching one bin finds an entry if and only if it is in the table |
| TsdProofs.GetExact | module/spl/spl-tsd.c:511-553 | an entry with data is found exactly if the plain map has it, and keys out of range have none |
| Tsd.Table.constructor | module/spl/spl-tsd.c:330-356 | an empty, well-formed table |
| Tsd.Table.HashSearch | module/spl/spl-tsd.c:98-119 | the scan of the bin |
| Tsd.Table.NextFreeKey | module/spl/spl-tsd.c:230-244 | the do-while loop computes the key search |
| Tsd.Table.CreateKeyFor | module/spl/spl-tsd.c:568-577 | a key already set is kept; otherwise the new table and the key, or zero without memory or a free key |
| Tsd.Table.RemoveOne | module/spl/spl-tsd.c:401-446 | the removal with the successor read before unlinking |
| Tsd.Table.SetData | module/spl/spl-tsd.c:459-500 | the new table, the return code and the destructor calls; ENOMEM exactly if memory is missing for an entry or anchor it needs, and then the data is unchanged |
| Tsd.Table.Get | module/spl/spl-tsd.c:511-553 | the value of the plain map, or NULL |
| Tsd.Table.EmptyKeyRing | module/spl/spl-tsd.c:607-626 | the loop deletes the whole ring and leaves the work list in reverse |
| Tsd.Table.EmptyPidRing | module/spl/spl-tsd.c:670-689 | the same for a process |
| Tsd.Table.RunDtors | module/spl/spl-tsd.c:128-142 | the calls made over a work list |
| Tsd.Table.DestroyKey | module/spl/spl-tsd.c:588-640 | the new table and the calls in order |
| Tsd.Table.ExitProcess | module/spl/spl-tsd.c:651-702 | the new table and the calls in order |
| XdrProofs.DecodesIffEncodes | module/spl/spl-xdr.c:176-493 | for every schema of chars, shorts, ints, hypers, opaques, strings, records and nested arrays, bytes decode to a value if and only if they start with the value's encoding |
| XdrProofs.DecodeEncode | module/spl/spl-xdr.c:176-493 | decoding an encoding, whatever follows, returns the value and takes exactly the bytes written |
| XdrProofs.EncodeDecode | module/spl/spl-xdr.c:204-493 | whatever decodes encodes back to the same bytes, because non-zero padding, oversized chars and shorts and embedded NULs are rejected |
| XdrProofs.EncodingIsPrefixFree | module/spl/spl-xdr.c:176-447 | no encoding starts with that of another value of the schema |
| XdrProofs.EncodingInUnits | module/spl/spl-xdr.c:176-447 | every encoding is a whole number of four-byte units |
| XdrProofs.EncodesIff | module/spl/spl-xdr.c:176-450 | a value has an encoding if and only if opaque bytes and strings have at most 2^32 - 4 bytes, strings and arrays are within their maximum, and so for all parts; numbers always have one |
| XdrProofs.EncodableDecodes | module/spl/spl-xdr.c:176-493 | and every such value comes back from its encoding, whatever follows |
| XdrProofs.BytesForm | module/spl/spl-xdr.c:176-202 | padded bytes are the bytes and then fewer than four zeros, up to a multiple of four |
| XdrProofs.WireForms | module/spl/spl-xdr.c:262-447 | chars and shorts travel as ints; strings and arrays as their length and then the bytes or elements |
| XdrProofs.NumberOrder | module/spl/spl-xdr.c:262-331 | the bytes of chars, shorts and ints compare as the numbers do |
| XdrProofs.WordOrder | module/spl/spl-xdr.c:235-246 | words are written most significant byte first: byte strings compare as the words do |
| XdrProofs.HyperOrder | module/spl/spl-xdr.c:341-350 | and hypers with the high word first |
| XdrProofs.RoundupIs | module/spl/spl-xdr.c:179-183 | the padded size wraps exactly for the last three 32-bit counts, which the test after it catches |
| XdrProofs.ArrayFits | module/spl/spl-xdr.c:375-376 | the two tests of the array routines let through exactly the counts whose total element size fits 32 bits |
| XdrProofs.BytesAgain | module/spl/spl-xdr.c:204-233 | decoded padded bytes encode to what was read |
| XdrProofs.StringAgain | module/spl/spl-xdr.c:452-493 | a decoded string has no NUL, is within its maximum and encodes to what was read |
| Xdr.Stream.EncValue | module/spl/spl-xdr.c:176-447 | encoding succeeds if and only if the value has an encoding and it fits the buffer; then the encoding is appended, and in any case nothing before the old or after the new cursor changes |
| Xdr.Stream.EncWord | module/spl/spl-xdr.c:235-246 | the same for one big-endian word |
| Xdr.Stream.EncBytes | module/spl/spl-xdr.c:176-202 | the same for bytes with zero padding |
| Xdr.Stream.EncHyper | module/spl/spl-xdr.c:341-350 | the same for two words, high first |
| Xdr.Stream.EncString | module/spl/spl-xdr.c:435-450 | the same for a length and padded bytes |
| Xdr.Stream.EncArray | module/spl/spl-xdr.c:369-389 | the same for a count and the elements |
| Xdr.Stream.EncItems | module/spl/spl-xdr.c:381-386 | the element loop |
| Xdr.Stream.DecValue | module/spl/spl-xdr.c:204-493 | decoding succeeds if and only if the bytes at the cursor decode; then it returns the value and moves the cursor by the bytes it took |
| Xdr.Stream.DecWord | module/spl/spl-xdr.c:248-259 | the same for a word |
| Xdr.Stream.DecBytes | module/spl/spl-xdr.c:204-233 | the same for padded bytes, with the padding tested |
| Xdr.Stream.DecSmall | module/spl/spl-xdr.c:272-338 | the same for char, short and int, with the range test |
| Xdr.Stream.DecHyper | module/spl/spl-xdr.c:352-367 | the same for two words |
| Xdr.Stream.DecString | module/spl/spl-xdr.c:452-493 | the same for a string, with the NUL test |
| Xdr.Stream.DecArray | module/spl/spl-xdr.c:391-433 | the same for an array |
| Xdr.Stream.DecItems | module/spl/spl-xdr.c:421-429 | the element loop |
| Division.UDivExact | module/spl/spl-generic.c:227-259 | for all 64-bit operands with a non-zero divisor the result is the floor of the quotient, through every branch and with all intermediate wraps accounted for |
| Division.EstimateClose | module/spl/spl-generic.c:247-252 | the estimate after undoing the normalisation is the quotient or one more |
| Division.CorrectFixes | module/spl/spl-generic.c:252-257 | such an estimate is corrected to the quotient |
| Division.TwoDigitsExact | module/spl/spl-generic.c:236-244 | the two-digit branch is exact and nothing wraps |
| Division.Nlz64Normalises | module/spl/spl-generic.c:189-205 | shifting by nlz64 brings the top bit to position 63 without loss |
| Division.UModExact | module/spl/spl-generic.c:284-302 | the remainder functions give the remainder |
| Division.DivModTruncates | module/spl/spl-generic.c:307-331 | the signed functions truncate toward zero if and only if the operands are not INT64_MIN and -1; the remainder is right even then, and __divdi3 agrees |
| Division.DivisionLaw | module/spl/spl-generic.c:307-331 | n equals q times d plus r if and only if that case is excluded, and r is smaller than d in magnitude and carries the sign of n |
| Rand.StepIsBijective | module/spl/spl-generic.c:101-110 | the state step has an explicit two-sided inverse |
| Rand.NonzeroForever | module/spl/spl-generic.c:101-110 | after any number of steps the state is zero if and only if it was |
| Rand.StreamsNeverMeet | module/spl/spl-generic.c:101-110 | two streams that agree after the same number of steps had the same seed |
| Rand.RepeatsFromTheSeed | module/spl/spl-generic.c:101-110 | a repeated state means the stream has come back to its seed |
| Rand.NextBit | module/spl/spl-generic.c:101-110 | each bit of the new word is the parity of the bits that the shifts by 23, 18 and 5 bring together, and the old second word becomes the first |
| Rand.WordsAreNumbers | module/spl/spl-generic.c:101-110 | words are the numbers below 2^64, one for one |
| Rand.ValueBit | module/spl/spl-generic.c:101-110 | bit i of a word is worth 2^i |
| Rand.SumExact | module/spl/spl-generic.c:109 | the number returned is the sum of the two words, less 2^64 if it does not fit, and either word and the sum give the other |
| Rand.Linear | module/spl/spl-generic.c:101-110 | the step is linear over exclusive or |
| Rand.JumpCommutes | module/spl/spl-generic.c:112-132 | jumping and then stepping any number of times equals stepping and then jumping, for every state |
| Rand.JumpLinear | module/spl/spl-generic.c:112-132 | the jump is linear over exclusive or |
| Rand.JumpIsParity | module/spl/spl-generic.c:112-132 | a bit after the jump is the parity of its values at the steps k that bit k of the two constants selects, the first constant for the first 64 steps |
| Rand.RandNext | module/spl/spl-generic.c:101-110 | the two-word array takes the step, and the sum of the new second word and the old one is returned |
| Rand.RandJump | module/spl/spl-generic.c:112-132 | the nested loops over the 128 bits compute the jump in place |
| Kstat.IntegralsAreExact | module/spl/spl-kstat.c:54-85 | after any run with a clock that does not run back and exits only of items present, the length integral is the sum over all items of the time each spent in the queue up to the last update, the busy integral is the number of clock ticks at which some item was in the queue, and the counter is the number present |
| Kstat.UpdateInv | module/spl/spl-kstat.c:54-85 | each enter and exit keeps that |
| Kstat.BusyIffCounted | module/spl/spl-kstat.c:64-67 | between events some item is present if and only if the counter is not zero, which is why only then time is added |
| Kstat.NoExitAtZero | module/spl/spl-kstat.c:71-85 | the assertion of the exit functions holds for every exit of an item present |
| Kstat.KstatIo.WaitqEnter | module/spl/spl-kstat.c:54-68 | the wait-queue fields after an enter; the run-queue fields are untouched |
| Kstat.KstatIo.WaitqExit | module/spl/spl-kstat.c:71-84 | the wait-queue fields after an exit |
| Kstat.KstatIo.RunqEnter | module/spl/spl-kstat.c:87-101 | the run-queue fields after an enter |
| Kstat.KstatIo.RunqExit | module/spl/spl-kstat.c:104-117 | the run-queue fields after an exit |

## Left out

- The Linux primitives below SPL: page allocator, vmalloc, rb-tree balancing, wait queues, timers, spinlocks, hash_long, byte-order macros. Each has the contract named under Assumptions.
- Liveness and wakeup timing: that sleeping callers are eventually woken, the growing and deadlocked timeouts of the allocator, the one-second throttle of `task_alloc`, and destroy waiting for tq_nspawn after a failed spawn dispatch.
- That `taskq_dispatch` adds nothing once TASKQ_ACTIVE is clear: the flag is not looked at again after `task_alloc` has dropped the lock, so the model lets such a dispatch through.
- The KMC_SLAB path, shrinker glue, constructors and move callbacks: thin wrappers over the Linux slab.
- The high-water marks skc_obj_max and skc_slab_max, and the choice of when the age and reap work runs.
- That the jump of the generator is 2^64 steps: that is a computation with 128 by 128 matrices, not an induction.
- Rand.RandNext: words are sequences of 64 bits, so the returned sum is stated on their values; `random_get_pseudo_bytes` and the per-CPU seeding are not modelled.
- Kstat.IntegralsAreExact: times and integrals are unbounded integers; the 64-bit wrap of hrtime_t is not modelled.
- Tsd.Table.constructor: an entry is named by its key and process instead of its address; failure to allocate the table and races between the operations, which the source leaves to callers, are not modelled.
- Xdr.Stream.DecArray: failure of the allocation for a NULL destination is not modelled, nor are the in-memory positions of elements.
- Xdr.Stream.DecString: failure of the KM_NOSLEEP allocation for a NULL destination is not modelled.
- Taskq.Taskq.DispatchLink: whether `task_alloc` finds memory is a parameter; the retry loop at tq_maxalloc is not modelled.
- Taskq.Taskq.DispatchTask: covers a dispatch whose `task_alloc` keeps the lock; when it drops the lock, the call is DispatchCheck, then other steps, then DispatchLink.
- Taskq.Taskq.constructor: the threads are given as running; failure to create one, after which taskq_create destroys the queue, is not modelled.
- `__aeabi_uldivmod` and `__aeabi_ldivmod`: inline assembly.
- The `ddi_strto*` conversions, `cr_groups_search`, vnode, kobj, proc, zlib, err and thread code, kstat output, locks and atomics headers: I/O, formatting, one-line wrappers or no clean law.
