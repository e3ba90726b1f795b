# LegoOS core: a Dafny model

LegoOS carries much of a Unix kernel core: wait and wake protocols, memory allocators, index structures and a few
encoders. This project models the parts of it whose correctness is least visible in the code and proves what they
promise.

`dafny verify dfyconfig.toml` checks the whole project.

How the parts are modelled:

- **Protocols** (`Mutex`/`MutexOrder`, `Futex`/`FutexMoved`/`FutexCalls`/`FutexSleep`, `Signal`/`SignalEffects`) are state machines over any number of threads. A state is a value, a step is
  one atomic access or one section under a lock, and a run is any sequence of steps. The theorems speak about every
  state of every run, under sequential consistency. `ThreadGroup` and `FutexWake` hold the loops of the same code as
  class methods on the thread ring and the priority list.
- **Allocators** (`Buddy`/`PageAlloc`, `Memblock*`, `Percpu*`, `Slob*`) are a list or set view with its laws, and a class
  whose methods update the arrays, packed cells, lists and counters as the code does. `BootFree` joins two of them: the
  ranges memblock leaves free become the free pages of the buddy allocator.
- **Index structures** (`RbTree`/`RbHeap`/`RbErase`/`RbWalk`, `Radix`/`RadixHeap`, `Lists`/`Plist`) are a tree or sequence
  view, and an arena of nodes whose link fields the methods rewrite, one store or one level at a time. Pointers are
  numbers and 0 is NULL. The two mirrored branches of the red-black code are one branch with a direction.
- **Encoders** (`Kallsyms*`, `Decimal`/`Kstrtox*`) are proved against an independent meaning (expansion, the sum of digits times powers),
  so that the decoder in one file undoes the encoder in another.

Integers are mathematical; wrap-around is written out where the code can reach it (`Kstrtox`, `KallsymsAddr`,
`MemblockAlloc`, the packed iterator index).

Where the code differs from what one would expect:

- `compress_symbols` does not shrink its `size` after the memmove, so it looks at bytes past the shortened symbol.
  They are zero and no token holds a zero, so the result is right (`KallsymsTool.CompressText`).
- `_parse_integer` keeps its digit count and its overflow flag in one word. Below 2^31 digits the flag is exact
  (`Kstrtox.RunOk`). From there on the count runs into the flag: 2^31 zeros are out of range (`Kstrtox.TooLong`), and at
  2^31 digits the flag is always wrong (`Kstrtox.FlagInverted`). A string is accepted exactly when it is a numeral below
  2^64 of fewer than 2^31 digits (`Kstrtox.AcceptedWhen`).
- `write_src` expands tokens into a buffer of 128 bytes, while `read_symbol` accepts symbols of 129 characters with their
  type. A map of one long name overruns the buffer (`KallsymsImage.LongNameFails`). It never happens when every symbol
  has at most 127 characters with its type, and in a table that does not use up the 256 codes it happens exactly
  otherwise (`KallsymsImage.Compress`).
- `write_src` prints tokens between quotes without escaping them. A name with a quote or a backslash, which `read_symbol`
  accepts, makes a table the assembler refuses (`KallsymsImage.QuoteFails`); all others are read back verbatim
  (`KallsymsImage.TokensRead`).
- `__free_pages_memory` asks `__ffs` for the lowest bit of the first page frame number, which has none for frame 0.
  The tiling holds whatever `__ffs(0)` returns (`BootFree.FreePagesMemory`); only the choice of the largest block there
  depends on it.

## Model

| member | source | states |
|---|---|---|
| `Mutex.InvStep` | kernel/mutex.c:73-149 | every atomic step of any number of threads - fast paths, slow paths, signals to interruptible waiters - keeps the lock, list, ownership and wake-up invariants together |
| `Mutex.RunInv` | kernel/mutex.c:73-149 | the invariants hold in every state of every finite run, whatever the interleaving |
| `Mutex.MutualExclusion` | kernel/mutex.c:60-68 | in every reachable state at most one thread owns the mutex |
| `Mutex.NoLostWakeup` | kernel/mutex.c:263-297 | while the wait list is not empty and count is not negative, an unlocker still has its wake step to do or a listed waiter is awake, also when interrupted waiters leave; whom it wakes is in MutexOrder.HandOff |
| `Mutex.NobodyLeftAsleep` | kernel/mutex.c:321-336 | once every thread has left the mutex code or sleeps in it, nobody sleeps on a mutex that is free |
| `Mutex.DeadlockFree` | kernel/mutex.c:73-149 | while a thread is inside the mutex code, some thread can step on its own |
| `MutexOrder.HandOff` | kernel/mutex.c:264-300 | on every run, the unlocker that looks at the wait list wakes the waiter that has been on it longest, whoever came and went in between, and wakes nobody exactly when the list is empty |
| `MutexOrder.RunOrder` | kernel/mutex.c:73-149 | in every state of every run the wait list is in order of arrival and without duplicates, arrival being the last step at which a thread joined |
| `MutexOrder.TryLockTakes` | kernel/mutex.c:249-259 | trylock takes the mutex exactly when nobody owns it, and otherwise changes nothing |
| `MutexOrder.LockTakes` | kernel/mutex.c:60-68 | lock on the fast path takes the mutex exactly when nobody owns it |
| `MutexOrder.LockReturns` | kernel/mutex.c:73-149 | mutex_lock returns with the mutex held; only an interruptible waiter may return without it, and is then off the list |
| `Lists.RingAddTail` | include/lego/list.h:52-86 | list_add_tail before entry k of a ring gives the ring with the new entry between k - 1 and k |
| `Lists.RingDel` | include/lego/list.h:95-152 | list_del_init of entry k leaves the ring of the others |
| `Plist.StableInsertUnique` | lib/plist.c:19-47 | stable insertion by priority has one result |
| `Plist.InsertSorted` | lib/plist.c:19-47 | a stable insertion into a sorted chain is sorted |
| `Plist.Head.constructor` | include/lego/plist.h:117-121 | an empty list: the node ring holds only the head |
| `Plist.Head.InitNode` | include/lego/plist.h:128-133 | sets up a node outside the list without touching the list |
| `Plist.Head.FindPosition` | lib/plist.c:19-47 | the walk over the priority ring alone ends where stable insertion belongs in the whole chain |
| `Plist.Head.Add` | lib/plist.c:19-47 | the chain becomes the stable insertion of the node; the priority ring holds exactly the first node of each priority |
| `Plist.Head.Del` | lib/plist.c:55-72 | the other nodes keep their order; the priority ring again holds the first node of each priority |
| `Plist.Head.Requeue` | lib/plist.c:84-109 | the same chain as plist_del followed by plist_add, also when the code leaves the node in place |
| `Plist.DelPrioRing` | lib/plist.c:55-72 | what plist_del does to the priority ring when the node starts a run, continues one or is alone |
| `Futex.InvStep` | kernel/futex.c:704-796 | every step of waiters, wakers and requeuers over any number of threads and buckets keeps the locks, counters, chains, lock_ptr, keys and wake-up invariants; what whole calls do to the queues is in FutexCalls |
| `Futex.RunInv` | kernel/futex.c:704-796 | they hold in every state of every run |
| `Futex.Bookkeeping` | kernel/futex.c:226-246 | in every reachable state a bucket counter is its chain length plus the threads between queue_lock and queue_me or queue_unlock and the requeues in flight towards it |
| `Futex.UnqueueIsSafe` | kernel/futex.c:874-914 | when unqueue_me has verified lock_ptr, it holds that bucket lock, its entry is on that chain and on no other |
| `Futex.LockPtrNamesBucket` | kernel/futex.c:666-684 | a chained entry names the bucket of its chain, or a requeue holding that bucket lock is about to store it |
| `Futex.NoLostWakeup` | kernel/futex.c:536-578 | a waiter queued on its futex while the word differs from what it expects has a wake-all by a thread that stored to the word still on its way, even though a waker may skip the lock when the counter reads zero |
| `Futex.NobodyLeftAsleep` | kernel/futex.c:959-1016 | when all threads sleep or are outside, every waiter no requeue has moved still waits for the value its word holds, and counters equal chain lengths |
| `FutexMoved.OnKeyChain` | kernel/futex.c:666-684 | in every reachable state a chained waiter, moved by a requeue or not, is on the chain of the key it waits on, or a requeue holding that bucket lock is about to store that key |
| `FutexMoved.WakeAllTakes` | kernel/futex.c:536-578 | a store and wake-all on the word a waiter is queued on, by a requeue or by itself: when the call has returned the waiter has been unlinked by a waker, unless it unlinked itself or a requeue moved it on before |
| `FutexCalls.RequeueDoes` | kernel/futex.c:704-796 | over every run, futex_requeue from the comparison to the unlock, other threads running in between: when the word differs from the value given or cannot be read nothing changes; otherwise, of the waiters on the first word in list order, the first nr_wake were woken and the next nr_requeue at most wait on the second word in its bucket, with its lock_ptr, and every other entry of both buckets is in place, in order and as it was |
| `FutexCalls.WakeDoes` | kernel/futex.c:536-578 | over every run, futex_wake from its lock to the unlock woke exactly the first max(1, nr_wake) waiters on the word that have one of the bits, all of them without a limit, and left every other entry of the bucket in place |
| `FutexCalls.WakeSkips` | kernel/futex.c:536-578 | futex_wake returns without taking the lock only when nobody is queued in the bucket |
| `FutexCalls.WaitTests` | kernel/futex.c:959-1016 | futex_wait goes on to queue itself exactly when it could read the word and found the value expected |
| `FutexCalls.WaitQueues` | kernel/futex.c:842-861 | queue_me puts the waiter on the chain of its key and leaves the others in order |
| `FutexCalls.WaitUnqueues` | kernel/futex.c:874-914 | unqueue_me under its lock: a waiter that is still on that bucket leaves the chain and the others stay in order, and otherwise it looks again |
| `FutexCalls.WaitReturns` | kernel/futex.c:874-914 | a queued waiter returns without unqueueing itself exactly when it finds lock_ptr cleared |
| `FutexSleep.SleepRunInv` | kernel/futex.c:922-940 | with task states and wake queues added, every run keeps: a waiter put on a wake queue before it was unlinked is awake or somebody still has to wake it |
| `FutexSleep.TakenIsWoken` | kernel/futex.c:489-507 | in every reachable state a queued waiter whose lock_ptr is null runs, or is on a wake queue that is still to be served, also when wake_q_add finds it on the queue of somebody else |
| `FutexSleep.WokenOther` | kernel/sched/core.c:1253-1297 | wake_q_add and the two halves of a turn of wake_up_q lose no wake-up |
| `FutexSleep.SleepersAreQueued` | kernel/futex.c:922-1016 | when every thread is outside the futex code or inside schedule() and all wake queues are served, every sleeper has a lock_ptr, is on that chain, and unless moved still waits for the value its word holds |
| `FutexWake.Bucket.Queue` | kernel/futex.c:799-861 | the entry goes into the two-level list behind every waiter of the same or a better priority, and the counter grows by one |
| `FutexWake.Bucket.Wake` | kernel/futex.c:536-578 | on the links of the priority list: only entries with the key and one of the bits are woken, at least one and at most nr_wake, and all of them when fewer; they are those of a prefix of the list, in order, the rest stays in order and the list intact, and no matching entry left behind has a better priority than one woken |
| `FutexWake.WakeOrder` | kernel/futex.c:842-861 | on a chain in priority order no matching waiter left behind has a better priority than one that was woken, and all are woken when they fit the quota |
| `Signal.NoStrandedSignal` | kernel/signal.c:269-300 | on every run, with no group exit under way, a pending shared signal that some live thread does not block has a live thread that does not block it flagged TIF_SIGPENDING, and its dequeue returns a signal |
| `Signal.InvStep` | kernel/signal.c:362-439 | send, forced send, dequeue, mask change, narrowing and recalc, thread exit, clone and reap keep that and the queue invariant |
| `Signal.RunInv` | kernel/signal.c:362-439 | both hold in every state of every run from a one-thread group |
| `Signal.CompleteServes` | kernel/signal.c:362-439 | complete_signal flags a thread that can take the signal whenever one exists, or starts a group exit |
| `Signal.SendServes` | kernel/signal.c:450-541 | sending, also a duplicate or one that fails for memory, strands nothing |
| `Signal.RecalcServes` | kernel/signal.c:269-300 | clearing TIF_SIGPENDING by recalculation strands nothing |
| `Signal.RetargetFinds` | kernel/signal.c:619-646 | the walk of retarget_shared_pending flags a taker for every signal that has one among the other threads, although it drops signals from its set as it goes |
| `Signal.RetargetServes` | kernel/signal.c:619-646 | what only the caller served is served by another thread afterwards |
| `Signal.BlockServes` | kernel/signal.c:648-658 | widening the mask passes newly blocked shared signals on |
| `Signal.ExitServes` | kernel/signal.c:1547-1586 | an exiting thread hands its share on |
| `Signal.UnblockServes` | kernel/signal.c:2258-2305 | narrowing the own mask to wait and recalculating flags the thread for what it can now take, and strands nothing |
| `Signal.ForceServes` | kernel/signal.c:566-589 | unblocking a signal by force, where recalc_sigpending_and_wake may set the flag of another thread but never clears it, strands nothing |
| `Signal.DequeueServes` | kernel/signal.c:1147-1214 | taking a signal and recalculating strands no other |
| `Signal.CloneServes` | kernel/fork.c:838-872 | a new thread cannot miss a shared signal, since clone is refused while one is pending for the caller |
| `Signal.ReapServes` | kernel/exit.c:54-110 | a reaped thread served nothing; curr_target stays on the ring |
| `Signal.CollectOk` | kernel/signal.c:1094-1129 | collecting takes the oldest entry of the signal; the bit stays exactly when another entry remains, so a signal queued n times is collected n times |
| `Signal.WithoutFirstQueued` | kernel/signal.c:1094-1129 | taking the oldest entry removes one entry of that signal and of no other |
| `Signal.SendPend` | kernel/signal.c:450-541 | a queue entry always has its bit set and a signal below SIGRTMIN is queued at most once |
| `SignalEffects.SentEffect` | kernel/signal.c:450-541 | after a send the addressed set has the bit and, but for a repeated signal below SIGRTMIN or a lack of memory, one more entry at its end with the info given; all other sets are as they were but for a SIGKILL bit; -EAGAIN exactly for a real-time signal of a user without memory |
| `SignalEffects.CompleteEffect` | kernel/signal.c:362-439 | who is told: the addressed thread if it may be, else for a group signal the first of the ring from curr_target on that may be, else nobody; a fatal one kills every thread, any other flags one |
| `SignalEffects.CollectTakes` | kernel/signal.c:1094-1129 | collecting takes out the oldest entry of the signal and hands out its info; the bit goes exactly when no entry of the signal is left, and all other bits and entries stay |
| `SignalEffects.DequeueEffect` | kernel/signal.c:1147-1214 | next_signal and collect_signal on the private and then the shared set: one unmasked signal, synchronous ones first and then the lowest, is taken out of the private set if that has one, else out of the shared one; none exactly when all pending ones are masked |
| `SignalEffects.RecalcEffect` | kernel/signal.c:295-300 | the thread is flagged exactly when something pending for it is not blocked, and no other flag changes |
| `SignalEffects.RetargetEffect` | kernel/signal.c:619-646 | exactly those threads get flagged that are, for one of the signals, the first live one after the caller on the ring not to block it |
| `SignalEffects.UnblockEffect` | kernel/signal.c:2258-2305 | the mask loses exactly what is not kept, no other mask changes, and the thread is flagged exactly when something pending is then not blocked |
| `SignalEffects.ForceUnblockEffect` | kernel/signal.c:566-589 | unblocking by force flags the thread exactly when something pending becomes deliverable by it, and never clears a flag |
| `SignalEffects.ForceEffect` | kernel/signal.c:566-589 | a blocked signal forced on a live thread is pending and no longer blocked, and the thread flagged, whatever the thread was doing |
| `SignalEffects.CloneEffect` | kernel/fork.c:838-872 | a thread joins exactly when its parent has no unblocked signal pending, with the mask of the parent and nothing pending |
| `SignalEffects.ReapEffect` | kernel/exit.c:54-110 | the thread leaves the ring and nobody else does; curr_target moves to its neighbour exactly when it was the target |
| `ThreadGroup.SignalStruct.FindTaker` | kernel/signal.c:362-439 | the loop from curr_target round the ring finds the first thread of the walk that wants the signal, or none when none does |
| `ThreadGroup.SignalStruct.CompleteSignal` | kernel/signal.c:362-439 | in place: the addressed thread is told if it may be, else the first on the ring from curr_target that may, else nobody; the new state is the step whose effect on stranding is proved |
| `ThreadGroup.SignalStruct.KillAll` | kernel/signal.c:362-439 | the do/while reaches every thread of the group once |
| `ThreadGroup.SignalStruct.SendSignal` | kernel/signal.c:450-541 | in place: the addressed set gains the bit and one entry at its end unless a repeat below SIGRTMIN or without memory, other queues only a SIGKILL bit; -EAGAIN exactly for a real-time signal of a user without memory, and then nothing changes; the group invariant is kept |
| `ThreadGroup.SignalStruct.RecalcSigpending` | kernel/signal.c:295-300 | in place: flagged exactly when something pending is not blocked; no other flag changes |
| `ThreadGroup.RetargetFlags` | kernel/signal.c:619-646 | the loop with its early exit computes the flags of the full walk |
| `ThreadGroup.SignalStruct.RetargetSharedPending` | kernel/signal.c:619-646 | in place: exactly the threads that are first on the ring to be able to take one of the signals get flagged |
| `ThreadGroup.SignalStruct.SetTaskBlocked` | kernel/signal.c:648-658 | in place: the mask is set, the thread flagged exactly when something pending is then not blocked, and of the others, when the thread was flagged, those first on the ring to be able to take a newly blocked shared signal; the group invariant is kept |
| `ThreadGroup.SignalStruct.ExitSignals` | kernel/signal.c:1547-1586 | in place: the thread is exiting, and if it was flagged those threads are flagged that are first on the ring to be able to take a shared signal it did not block; the group invariant is kept |
| `ThreadGroup.CollectSignal` | kernel/signal.c:1094-1129 | one pass over the queue finds the first entry of the signal, hands out its info, and sees whether a second follows |
| `ThreadGroup.SignalStruct.DequeueSignal` | kernel/signal.c:1147-1214 | in place: returns 0 exactly when all pending signals are masked and else takes exactly one entry, the oldest of the signal returned, out of the private set if it has an unmasked signal and else out of the shared one, synchronous before the lowest number, hands out its info, and leaves all other entries; the flag is recalculated and the group invariant kept |
| `RbTree.InsertFixOk` | lib/rbtree.c:82-207 | from a tree valid but for one red node under a red parent, the rebalancing loop ends in a red-black tree with the same in-order sequence |
| `RbTree.EraseFixOk` | lib/rbtree.c:213-379 | from a tree one black node short below parent, it ends in a red-black tree with the same in-order sequence |
| `RbTree.InsertStepSound` | lib/rbtree.c:82-207 | cases 1 to 3 of insertion: each turn leaves a sound subtree, finished or red two levels up |
| `RbTree.TurnSound` | lib/rbtree.c:213-379 | erase case 1 leaves a black sibling and the same shortage |
| `RbTree.FinishSound` | lib/rbtree.c:213-379 | erase cases 2 to 4 finish, or pass the shortage one level up |
| `RbHeap.RotateOk` | lib/rbtree.c:72-80 | the pointer stores of a single rotation give exactly the rotated tree, with every parent link right |
| `RbHeap.TwistOk` | lib/rbtree.c:82-207 | the stores of the combined cases 2 and 3 (insert) and 3 and 4 (erase) give exactly the doubly rotated tree |
| `RbHeap.Root.RotateSetParents` | lib/rbtree.c:72-80 | parent, colour and the link from above move from old to new; nothing else changes |
| `RbHeap.Root.InsertColor` | lib/rbtree.c:82-207 | the loop on the arena of nodes terminates with all red-black rules, the same in-order sequence and correct parent links |
| `RbHeap.Root.EraseColor` | lib/rbtree.c:213-379 | the same for ____rb_erase_color |
| `RbErase.LinkNode` | include/lego/rbtree.h:58-65 | the node hangs as a red leaf at the given link |
| `RbErase.Insert` | lib/rbtree.c:403-406 | rb_link_node then rb_insert_color: a red-black tree whose in-order sequence has the node exactly at the link |
| `RbErase.EraseAugmented` | include/lego/rbtree.h:202-304 | all three cases of unlinking: the in-order sequence loses exactly the node, and the tree is valid or one black node short below the returned parent |
| `RbErase.FindSuccessor` | include/lego/rbtree.h:202-304 | the loop ends at the leftmost node of the right subtree, with its parent |
| `RbErase.MovedShape` | include/lego/rbtree.h:202-304 | the stores that move the successor into the place of the erased node leave a well-linked tree, also when the successor is the right child or its parent is |
| `RbErase.TwoChildren` | include/lego/rbtree.h:202-304 | which red-black rules hold after that move and what the order is |
| `RbErase.Erase` | lib/rbtree.c:408-414 | rb_erase of any node of any red-black tree gives a red-black tree with the same order without that node |
| `RbWalk.First` | lib/rbtree.c:432-454 | rb_first and rb_last: the first node of the walk in that direction, NULL for an empty tree |
| `RbWalk.Next` | lib/rbtree.c:456-513 | rb_next and rb_prev: the neighbour in the in-order sequence, NULL at its end or for an unlinked node |
| `RbWalk.ForEach` | lib/rbtree.c:432-513 | rb_first then rb_next, or rb_last then rb_prev, visits the in-order sequence, forwards or reversed |
| `Buddy.Canonicity` | mm/page_alloc.c:613-649 | two fully coalesced sets of free blocks over the same free pages are equal |
| `Buddy.InsideOne` | mm/page_alloc.c:613-649 | in a coalesced state an aligned block of free pages lies inside one free block |
| `Buddy.RoomIffLargeBlock` | mm/page_alloc.c:847-868 | an aligned block of free pages exists exactly when some free block is at least as large |
| `Buddy.MergeStep` | mm/page_alloc.c:613-649 | one round of merging keeps free blocks aligned, disjoint and without free buddies |
| `Buddy.SplitStep` | mm/page_alloc.c:820-834 | one round of expand keeps that too |
| `PageAlloc.BuddyIndex` | mm/page_alloc.c:561-565 | the xor on window indices names the other half of the enclosing block, and the combined index its start |
| `PageAlloc.MergeAllOk` | mm/page_alloc.c:613-649 | the merging loop ends with the block in hand and the free blocks covering the same pages, and no free buddy left |
| `PageAlloc.Zone.FreeOnePage` | mm/page_alloc.c:613-649 | the freed pages join the free pages; blocks stay disjoint, aligned and fully coalesced, nr_free equals list length and NR_FREE_PAGES the number of free pages |
| `PageAlloc.Zone.Expand` | mm/page_alloc.c:820-834 | the loop computes the split whose effect is proved in ExpandedOk |
| `PageAlloc.ExpandedOk` | mm/page_alloc.c:820-834 | splitting down to the wanted order leaves exactly the other pages free, coalesced |
| `PageAlloc.Zone.RmqueueSmallest` | mm/page_alloc.c:847-868 | takes the head of the smallest order with a block and splits it; fails only when all orders from the wanted one are empty |
| `PageAlloc.Zone.BufferedRmqueue` | mm/page_alloc.c:884-910 | returns an aligned block of free pages and removes exactly those; fails exactly when no aligned block of that order is free |
| `PageAlloc.AllocThenFree` | mm/page_alloc.c:613-649 | allocating a block of any order and freeing it restores the very same set of free blocks |
| `BootFree.NextOrder` | mm/memblock.c:1195-1210 | an order the start is aligned to, below MAX_ORDER, whose block ends inside the range, and the largest such one unless the start is page frame 0 and __ffs(0) is small |
| `BootFree.FreePagesMemory` | mm/memblock.c:1195-1210 | the blocks tile the range, whatever __ffs(0) is: exactly its pages join the free pages of the buddy allocator |
| `BootFree.FreeMemoryCore` | mm/memblock.c:1212-1224 | exactly the pages that lie whole between the two addresses become free, and their number is returned |
| `BootFree.FreeLowMemory` | mm/memblock.c:1235-1260 | for every memory map, after the handover the free pages of the buddy allocator are exactly the whole pages inside the free ranges of memblock, coalesced, and the count is their number |
| `BootFree.PagesAreFree` | mm/memblock.c:1235-1260 | every byte of a page handed over is memory, of whatever node, and not reserved |
| `Memblock.Canonical` | mm/memblock.c:108-130 | sorted region arrays without mergeable neighbours that agree on every address are equal |
| `Memblock.MergeOk` | mm/memblock.c:108-130 | merging changes no address, keeps the total and leaves no mergeable neighbours |
| `Memblock.InsertOk` | mm/memblock.c:177-259 | the second pass covers the union; addresses covered before keep node and flags |
| `Memblock.CutOk` | mm/memblock.c:379-392 | what is left below and above covers exactly the difference |
| `Memblock.IsolateSize` | mm/memblock.c:302-358 | isolating keeps the total and adds at most two regions |
| `MemblockType.AddOk` | mm/memblock.c:177-259 | adding a range: union, old attributes kept, sorted, disjoint, minimal, total_size the sum of sizes |
| `MemblockType.RemoveOk` | mm/memblock.c:379-392 | dropping the isolated regions leaves the array cut at both ends of the range |
| `MemblockType.AddThenRemove` | mm/memblock.c:177-392 | removing a range just added over free addresses restores the array |
| `MemblockType.RegionArray.InsertRegion` | mm/memblock.c:144-159 | the shifting loop on the array moves the regions from the index on up by one without losing any, and total_size grows by the region |
| `MemblockType.RegionArray.Drop` | mm/memblock.c:360-377 | the shifting loop on the array closes the gap of one region |
| `MemblockType.RegionArray.MergeRegions` | mm/memblock.c:108-130 | in place, with a shifting loop for each merge, the merged array |
| `MemblockType.RegionArray.CountPass` | mm/memblock.c:177-259 | the first pass counts exactly the regions the second inserts |
| `MemblockType.RegionArray.InsertPass` | mm/memblock.c:177-259 | in place, the array with the uncovered parts inserted |
| `MemblockType.RegionArray.AddRange` | mm/memblock.c:177-259 | both passes and the merge, the empty array and the empty range; false exactly when capacity runs out |
| `MemblockType.RegionArray.IsolateRange` | mm/memblock.c:302-358 | regions are split where they cross the range, and the returned indices delimit exactly the regions inside it |
| `MemblockType.RegionArray.RemoveRegion` | mm/memblock.c:360-377 | the region goes; an array that becomes empty keeps its dummy entry |
| `MemblockType.RegionArray.RemoveRange` | mm/memblock.c:379-392 | covers exactly the difference afterwards, and stays valid |
| `MemblockIter.AllOrdered` | mm/memblock.c:597-675 | the yielded ranges ascend and are disjoint |
| `MemblockIter.AllCovers` | mm/memblock.c:597-675 | their union is exactly the wanted memory without the reserved addresses |
| `MemblockIter.YieldedOfNode` | mm/memblock.c:597-675 | an address is yielded exactly when it is in memory of the node asked for, any node for MAX_NUMNODES, and not reserved |
| `MemblockIter.WholeOfNode` | mm/memblock.c:597-675 | without a second array an address is yielded exactly when it is in memory of the node asked for |
| `MemblockIter.NextMemRange` | mm/memblock.c:597-675 | one call yields the first of the remaining ranges and an index that stands for the rest, ULLONG_MAX exactly when none is left; with or without a second array, MAX_NUMNODES standing for any node |
| `MemblockIter.ForEach` | include/lego/memblock.h:90-133 | the macro loop terminates and yields the sequence of all free ranges, or of all wanted regions without a second array |
| `MemblockIter.NextMemRangeRev` | mm/memblock.c:694-774 | the same from the end, with the packed index that may hold -1 |
| `MemblockIter.ForEachReverse` | include/lego/memblock.h:110-150 | yields exactly the forward sequence reversed |
| `MemblockIter.PackOk` | mm/memblock.c:597-774 | packing region and gap index into 64 bits loses nothing, also for region index -1 |
| `MemblockAlloc.FindBottomUp` | mm/memblock.c:790-808 | the lowest aligned place in the first free range with room; 0 exactly when none has room, also when rounding up wraps past 2^64 |
| `MemblockAlloc.FindTopDown` | mm/memblock.c:824-846 | the highest aligned place in the last free range with room; 0 exactly when none has room |
| `MemblockAlloc.FitsIsFree` | mm/memblock.c:870-916 | a block that fits in a yielded range is memory and not reserved |
| `MemblockAlloc.Allocator.FindInRangeNode` | mm/memblock.c:870-916 | 0 exactly when no aligned place of that size in free memory of the node lies between start (at least one page) and end or the current limit; otherwise, in bottom-up mode, the lowest such place above the kernel image if there is one, and else the highest of all |
| `MemblockAlloc.Allocator.AllocRangeNid` | mm/memblock.c:1000-1014 | 0 exactly when there is no such place or the array of reserved regions cannot take one more, and then nothing changes; a non-zero result is the place FindInRangeNode chooses and is reserved afterwards, so live allocations never overlap over any run |
| `MemblockAlloc.Allocator.Free` | mm/memblock.c:399-407 | freeing takes exactly the addresses out of reserved; it is refused exactly when the array could not take two more regions |
| `Radix.Canonical` | lib/radix-tree.c:175-323 | two valid trees that hold the same map are the same tree, height included |
| `Radix.NeedsHeight` | lib/radix-tree.c:783-793 | a tree of height h holds a key that height h - 1 could not |
| `Radix.InsertOk` | lib/radix-tree.c:297-323 | inserting adds one entry to the map and keeps the shape minimal |
| `Radix.DeleteOk` | lib/radix-tree.c:728-767 | deleting removes one entry and keeps the shape minimal |
| `Radix.InsertThenDelete` | lib/radix-tree.c:297-767 | inserting an absent key and deleting it restores the same shape |
| `Radix.ExtendOk` | lib/radix-tree.c:175-221 | extending keeps every lookup and reaches the least height for the key |
| `Radix.ShrinkOk` | lib/radix-tree.c:607-665 | shrinking keeps every lookup and ends at the least height |
| `RadixHeap.StoreAbs` | lib/radix-tree.c:239-287 | storing in one slot of one node of the arena changes exactly that subtree |
| `RadixHeap.RadixTreeRoot.LookupNode` | lib/radix-tree.c:339-384 | the walk over shifts and masks returns the mapped item, 0 when absent or beyond the height, and the node that holds it |
| `RadixHeap.RadixTreeRoot.Extend` | lib/radix-tree.c:175-221 | new roots above the old one until the key fits |
| `RadixHeap.RadixTreeRoot.Descend` | lib/radix-tree.c:239-287 | the loop creates the missing nodes on the path and reaches the slot of the key |
| `RadixHeap.RadixTreeRoot.Insert` | lib/radix-tree.c:297-323 | in place, the map gains the entry; -EEXIST exactly when the key is present; counts, parents and shape stay right |
| `RadixHeap.RadixTreeRoot.Shrink` | lib/radix-tree.c:607-665 | in place, the tree no higher than it need be |
| `RadixHeap.RadixTreeRoot.DeleteNode` | lib/radix-tree.c:678-715 | frees every node that became empty, up the parent links, then shrinks |
| `RadixHeap.RadixTreeRoot.DeleteItem` | lib/radix-tree.c:728-767 | in place, the map loses the entry and its item is returned; nothing happens when the key is absent or holds another item |
| `Percpu.AllocMapOk` | mm/percpu.c:1307-1407 | carving a block out of a free area keeps offsets strictly increasing with no two free neighbours |
| `Percpu.HeadLeast` | mm/percpu.c:1307-1407 | the head cut off for alignment is the least one |
| `Percpu.ReleaseOk` | mm/percpu.c:1422-1473 | freeing an area and joining its free neighbours keeps that |
| `Percpu.AllocBytes` | mm/percpu.c:1307-1407 | the bytes that stop being free are those of the block and of a head or tail too small to keep |
| `Percpu.ReleaseBytes` | mm/percpu.c:1422-1473 | exactly the bytes of the area become free |
| `Percpu.AllocAtMost` | mm/percpu.c:1307-1407 | afterwards every free area is an old one, the head or the tail, so contig_hint stays an upper bound |
| `PercpuChunk.Chunk.constructor` | mm/percpu.c:993-1019 | a chunk starts as one free area |
| `PercpuChunk.Chunk.NeedToExtend` | mm/percpu.c:1158-1184 | 0 exactly when the map has room for what one allocation can add; otherwise a length that has |
| `PercpuChunk.Chunk.ExtendAreaMap` | mm/percpu.c:1199-1235 | a longer map with the same entries |
| `PercpuChunk.Chunk.AllocArea` | mm/percpu.c:1307-1407 | -1 exactly when no aligned run of that many free bytes in the chunk exists; otherwise the offset of the lowest such run, which becomes an area in use; every area in use before is still one, and no other is added; free_size, first_free and contig_hint stay right and the map stays in bounds |
| `PercpuChunk.Chunk.FindFit` | mm/percpu.c:1307-1407 | the scan from first_free finds the first free area with room, and knows the largest area it passed |
| `PercpuChunk.Chunk.FindUsed` | mm/percpu.c:1422-1473 | the binary search over offsets with the in-use bit finds the area |
| `PercpuChunk.Chunk.FreeArea` | mm/percpu.c:1422-1473 | the bytes of the area and no others become free, every other area in use stays one, with the invariants kept |
| `PercpuChunk.FreeInTurn` | mm/percpu.c:1307-1473 | an allocation succeeds exactly when there is a place for it; two of them can be freed one after the other in the order they were made, and the areas in use are those before |
| `Slob.Canonical` | mm/slob.c:272-352 | address-sorted free lists without adjacent blocks over the same free units are equal |
| `Slob.AllocList` | mm/slob.c:149-195 | taking units out of a block leaves a sorted, disjoint, non-adjacent list with exactly that many units fewer |
| `Slob.AllocFree` | mm/slob.c:149-195 | the free units are those before, without the ones taken, which were free |
| `Slob.InsertOk` | mm/slob.c:272-352 | a freed block put back and joined with what it touches: sorted, disjoint, never adjacent, exactly its units more |
| `SlobPage.Page.SetSlob` | mm/slob.c:77-87 | size and next packed into the block itself, one unit with the negated next, more units with both; no unit outside the block is written |
| `SlobPage.Page.SlobUnits` | mm/slob.c:92-97 | reads back the size that was packed |
| `SlobPage.Page.SlobNext` | mm/slob.c:102-112 | reads back the next that was packed |
| `SlobPage.Page.FindFit` | mm/slob.c:149-195 | the walk over the packed list finds the first block with room after alignment |
| `SlobPage.FirstFitIsFirst` | mm/slob.c:149-195 | no block before it has room |
| `SlobPage.FirstFitLowest` | mm/slob.c:149-195 | the first block with room holds the lowest aligned run of free units, and when none has room there is no such run |
| `SlobPage.Page.PageAlloc` | mm/slob.c:149-195 | NULL exactly when no aligned run of that many free units exists, else the lowest such run; the packed list becomes the list without those units, split at head and tail; sp->units stays the sum, and a page with none left goes off its list |
| `SlobPage.Page.FindPlace` | mm/slob.c:272-352 | the walk ends at the last block before the freed one |
| `SlobPage.Page.Release` | mm/slob.c:272-352 | the packed list gains exactly the freed units, merged on both sides; the page goes back exactly when nothing else on it is in use |
| `SlobPage.AllocThenFree` | mm/slob.c:149-352 | freeing what was just allocated restores the list, unless the page becomes wholly free |
| `Kallsyms.ReplaceKeeps` | scripts/kallsyms.c:514-553 | replacing a pair by its new token keeps the full expansion of a symbol |
| `Kallsyms.NewTable` | scripts/kallsyms.c:573-599 | a new token keeps the table well founded: parts are characters or tokens placed before |
| `KallsymsTool.FindToken` | scripts/kallsyms.c:501-510 | the first occurrence of the pair, none when there is none |
| `KallsymsTool.CompressText` | scripts/kallsyms.c:514-553 | the in-place loop, whose size counts bytes past the shortened symbol, gives exactly the left-to-right replacement, since those bytes are zero |
| `KallsymsTool.CountSymbol` | scripts/kallsyms.c:467-482 | learning adds and forgetting takes away exactly the pair counts of the symbol |
| `KallsymsTool.Tool.BuildInitialTokTable` | scripts/kallsyms.c:485-499 | token_profit counts every pair of every symbol |
| `KallsymsTool.Tool.InsertRealSymbols` | scripts/kallsyms.c:602-616 | the table expands every symbol to itself, and its codes are exactly the characters that occur |
| `KallsymsTool.Tool.CompressSymbols` | scripts/kallsyms.c:514-553 | every symbol has the pair replaced and token_profit still counts the pairs exactly |
| `KallsymsTool.Tool.FindBestToken` | scripts/kallsyms.c:556-570 | the first of the most frequent pairs |
| `KallsymsTool.Tool.OptimizeResult` | scripts/kallsyms.c:573-599 | every symbol still expands to its original text, no code stands for more than the longest symbol, every code taken shortened the symbols by a character at least, and either all 256 codes are in use or every symbol is a single code |
| `KallsymsBounds.PairLength` | scripts/kallsyms.c:573-599 | a token made of two neighbours of a symbol stands for no more than that symbol |
| `KallsymsImage.ExpandSymbol` | scripts/kallsyms.c:304-327 | the recursion terminates and writes the expansion and a zero, staying in the buffer exactly when both fit |
| `KallsymsImage.WriteNames` | scripts/kallsyms.c:425-444 | the stream of length and codes, with a marker for every 256th entry |
| `KallsymsImage.WriteTokens` | scripts/kallsyms.c:446-461 | the quoted .asciz lines of the expansions and the offset of each code; the 128-byte scratch buffer is overrun exactly when a code stands for 128 characters or more |
| `KallsymsAsm.ReadBack` | scripts/kallsyms.c:446-461 | between quotes, unescaped, a text is read back verbatim by the assembler exactly when it holds no quote and no backslash |
| `KallsymsImage.TokensRead` | scripts/kallsyms.c:446-461 | the assembler takes the lines of a finished table exactly when no symbol holds a quote or a backslash, and then the table is the expansions, each followed by a zero |
| `KallsymsImage.QuoteFails` | scripts/kallsyms.c:113-130 | read_symbol accepts a name with a quote, and the table of that map alone is refused by the assembler |
| `KallsymsImage.ImageFits` | scripts/kallsyms.c:425-461 | for what read_symbol accepts, every entry of the name stream fits a byte and every index 16 bits |
| `KallsymsImage.Compress` | scripts/kallsyms.c:336-464 | the scratch buffer is never overrun when every symbol with its type is shorter than 128; in a table small enough not to use up the 256 codes, exactly then |
| `KallsymsImage.LongNameFails` | scripts/kallsyms.c:113-130 | read_symbol accepts a name of 127 letters a, and a map of it alone overruns the scratch buffer |
| `KallsymsImage.GetSymbolOffset` | kernel/kallsyms.c:181-202 | from the closest marker, skipping by length, the scan lands on entry pos |
| `KallsymsImage.KernelExpandSymbol` | kernel/kallsyms.c:209-254 | the name without its type character, cut to maxlen - 1 characters and terminated, nothing at all for maxlen 0; the offset of the next entry |
| `KallsymsImage.CompressThenLookup` | kernel/kallsyms.c:181-254 | for every table read_symbol accepts that gets through scratch buffer and assembler, so for all symbols shorter than 128 with their type and without quote or backslash, the kernel reads back from what the tool wrote the original name of every entry; with a quote or a backslash never |
| `KallsymsAddr.AddressRoundTrip` | kernel/kallsyms.c:77-92 | an address the tool could store as a 32-bit offset is read back unchanged, in all three layouts and with 64-bit wrap-around |
| `KallsymsAddr.StoredWhen` | scripts/kallsyms.c:370-403 | which addresses can be stored: absolute per-cpu symbols below 2^31, all others less than 2^32 above the base, 2^31 when the sign marks absolute ones, modulo 2^64 |
| `KallsymsAddr.WriteAddresses` | scripts/kallsyms.c:370-403 | the table the kernel reads every address back from, or failure exactly when an offset is out of range |
| `KallsymsAddr.GetSymbolPos` | kernel/kallsyms.c:123-175 | reading each address through the table: the first symbol at the highest address not above addr, the distance to the next higher address or the section end, and the offset |
| `KallsymsLookup.WriteImage` | scripts/kallsyms.c:336-464 | all tables of the tool together describe the symbols; they get built when every offset is in range and every symbol short and without quote or backslash, and in a small table exactly then |
| `KallsymsLookup.Lookup` | kernel/kallsyms.c:256-273 | kallsyms_lookup returns the name and offset of the first symbol at the highest address not above addr, its size up to the least higher address or to the bound of the section addr is in, and NULL with an empty name exactly outside the text and init text, or with variables outside the image |
| `KallsymsLookup.BuildThenLookup` | kernel/kallsyms.c:77-273 | from the sorted symbol map through tool, assembler and kernel: name, size and offset are those of the symbol that covers the address; when the build fails is as for WriteImage |
| `Decimal.Reciprocal` | lib/vsprintf.c:102-118 | multiplying by 0x28f5c29 and shifting by 32 divides by 100 up to 1073741898 and fails at the next number |
| `Decimal.ReciprocalUnique` | lib/vsprintf.c:102-118 | no other constant does so for all eight-digit numbers |
| `Decimal.ReciprocalSmall` | lib/vsprintf.c:119-127 | multiplying by 0x147b and shifting by 19 divides by 100 up to 43698 and fails at the next number |
| `Decimal.PutDecTrunc8` | lib/vsprintf.c:148-187 | writes the digits of any number below 10^8, last first, without leading zeros |
| `Decimal.PutDecFull8` | lib/vsprintf.c:189-213 | writes exactly eight digits |
| `Decimal.PutDec` | lib/vsprintf.c:215-225 | writes the digits of any 64-bit number |
| `Decimal.NumToStr` | lib/vsprintf.c:234-253 | the buffer holds the decimal numeral, or nothing is written and 0 returned exactly when it does not fit |
| `Decimal.ReversedIsNumeral` | lib/vsprintf.c:215-225 | the digits in reverse are the canonical numeral: no leading zero, worth the number |
| `Numerals.NumeralUnique` | lib/vsprintf.c:234-253 | every number has exactly one numeral |
| `Kstrtox.ExactCheck` | lib/kstrtox.c:37-70 | testing for overflow only from 2^60 on is exact for every base up to 16 |
| `Kstrtox.RunOk` | lib/kstrtox.c:37-70 | on a digit string of fewer than 2^31 digits the overflow bit is set exactly when the value exceeds 2^64 - 1, and otherwise the result is the value |
| `Kstrtox.RunInRange` | lib/kstrtox.c:37-70 | a digit string of any length worth less than 2^64 gives its value, with the overflow bit exactly when its length modulo 2^32 is 2^31 or more |
| `Kstrtox.FlagInverted` | lib/kstrtox.c:37-70 | for exactly 2^31 digits the overflow bit is always wrong: set exactly when the value is below 2^64 |
| `Kstrtox.AcceptedWhen` | lib/kstrtox.c:72-90 | a string is accepted exactly when it is a numeral below 2^64 of fewer than 2^31 digits; what longer numerals give instead |
| `KstrtoxForms.FormParses` | lib/kstrtox.c:13-90 | a string made of an optional 0x or 0X (bases 0 and 16 only), digits and at most one newline parses to the sum of its digits times powers of the base, 16 after the prefix, for base 0 else 8 after a leading zero and 10 otherwise; -ERANGE when that exceeds 2^64 - 1, whatever follows the digits |
| `KstrtoxForms.ParsedForm` | lib/kstrtox.c:13-90 | nothing else parses: any string not refused as invalid is of that form |
| `KstrtoxForms.ValueIsWorth` | lib/kstrtox.c:37-70 | the running value of the loop is the sum of digits times powers of the base |
| `Kstrtox.TooLong` | lib/kstrtox.c:37-70 | 2^31 zeros count into the overflow bit although their value is 0 |
| `Kstrtox.ParseInteger` | lib/kstrtox.c:37-70 | the loop runs over exactly the digits the string starts with |
| `Kstrtox.KstrtoullTail` | lib/kstrtox.c:72-90 | what AcceptedWhen describes, for strings of any length: below 2^31 digits the value, -ERANGE exactly when it exceeds 2^64 - 1, -EINVAL without digits or with anything but one newline after them |
| `Kstrtox.Kstrtoull` | lib/kstrtox.c:108-113 | the same after an optional plus sign |
| `Kstrtox.Kstrtoll` | lib/kstrtox.c:131-152 | the signed value, -ERANGE exactly outside the signed 64-bit range, for strings of any length as above |
| `Kstrtox.RoundTrip` | lib/kstrtox.c:72-113 | the numeral of n parses to n in base 10 and with the base detected, or to -ERANGE when n exceeds 2^64 - 1 |
| `Kstrtox.RoundTripSigned` | lib/kstrtox.c:131-152 | the same for signed numbers |
| `Kstrtox.PrintThenParse` | lib/vsprintf.c:234-253 | kstrtoull reads back every 64-bit number num_to_str wrote |

## Left out

- Weak memory ordering, interrupts and preemption: the protocols run under sequential consistency.
- __mutex_trylock_slowpath: the x86 fast path is a compare-and-exchange that never calls it.
- Mutex owner tracking and debugging fields: they take no part in the protocol.
- Futex.NoLostWakeup: speaks of waiters no requeue has moved, since a moved waiter compared its value with another word; what later wakers of the new word do for it is in `FutexMoved.WakeAllTakes`.
- Futex chains: the protocol model lets an entry be linked at any position; priority order is in `Plist` and `FutexWake`. futex_requeue takes both bucket locks in one step.
- FutexSleep: a wake-up by other kernel code is one step, and the scheduler itself is reduced to task states and being inside schedule().
- FutexCalls.RequeueDoes: from the comparison under both locks to the unlock; the retry after a fault is a new call, and the return value is left out.
- futex_wake_op, priority-inheritance and robust futexes, timeouts and restarts: other entry points over the same queues.
- Signal stop and continue, ptrace, job control, and group exit once it has begun: they add cases around the stranding invariant without touching it.
- ThreadGroup.SignalStruct.DequeueSignal: an info is a signal number and one payload; signalfd, timers re-armed on dequeue and the handlers themselves are left out.
- Signal.NoStrandedSignal: says nothing while a group exit is under way, when every thread is killed anyway.
- RbHeap.Root.InsertColor: augment callbacks are not modelled; rb_replace_node and the postorder walk are not either.
- PageAlloc.Zone.BufferedRmqueue: one zone; watermarks, zone fallback, page preparation and per-cpu page lists are left out.
- MemblockType.RegionArray.AddRange: memblock_double_array only panics in this kernel, so running out of capacity returns false here. Slots past the count are not tracked.
- MemblockIter.NextMemRange: selecting regions by flags, which the code does not look at, and NULL out-parameters.
- memblock_trim_memory: edits region sizes without updating total_size.
- PercpuChunk.Chunk.AllocArea: requests that must already be populated (pop_only), occupied-page counts, chunk slots and the asynchronous extension of the map are left out. Sizes are even and alignments powers of two, as the caller ensures.
- SlobPage.Page.PageAlloc: one page, alignment at most a page; the choice among pages, the three size lists and kmalloc headers are left out.
- Radix trees: tags, which nothing sets, and failing node allocations. RCU readers are left out.
- KallsymsTool.Tool.BuildInitialTokTable: symbol_valid filtering, reading the map and sorting happen before; the table given is the one compressed.
- KallsymsImage.Compress: where a table uses up all 256 codes, a symbol of 128 characters or more may or may not become one token; then the exact condition is on the finished table (every code stands for fewer than 128 characters).
- KallsymsAsm.ReadBack: the assembler is the one described in the manual of GNU as; the C preprocessor run before it is left out.
- KallsymsImage.WriteNames: the 32-bit offsets of the markers are not bounded.
- KallsymsAddr.WriteAddresses: entries of an absolute table are resolved by the linker to the address itself.
- Kstrtox.KstrtoullTail: bases up to 16, as documented.
- number() and the rest of vsprintf: formatting around the same digit routines.
- BootFree.FreeLowMemory: marking reserved pages and page reference counts are left out.
- Workqueues, vmalloc page tables, sparse memory, dmapool, resources, smp calls, stop_machine, sort, bitmaps, and everything under net, managers, usr and init: easier, device-bound, or thin callers.
