# Verified model of the zsim memory system and its locks

zsim simulates a multicore machine; this repository adds the Doppelganger last-level cache, which lets tags whose
data look alike share one data line. The project models seven parts of it whose correctness rests on state that
many operations change together, and proves what those parts are for, for all inputs, all runs and any number of
caches, threads, banks, ways or requests.

* `Mesi.dfy` is the coherence protocol for one line in a tree of inclusive caches of any depth. A cache has at most
  one request under way and drops its own lock while the request waits, so invalidations reach it in between.
  `MesiAnswers.dfy` says what each request is answered with, which copies it costs, and that the protocol cannot
  deadlock. `MesiControllers.dfy` holds the controllers' own code (the recursive invalidation loops, the race check,
  the access and eviction paths), proved to do what the protocol's steps say.
* `ZArray.dfy` is the zcache: the breadth-first walk over relocation candidates and the chain of moves.
* `Futex.dfy` and `RwMutex.dfy` are the two locks, one step per atomic operation or system call.
* `Barrier.dfy` is the join-leave barrier with parallelism control.
* `IntrusiveList.dfy`, `FrFcfs.dfy`, `DdrQueues.dfy`, `DdrClock.dfy`, `ActWindow.dfy`, `DdrTiming.dfy`,
  `DdrLeast.dfy`, `DdrActivates.dfy` and `DdrMemory.dfy` are the DDR3 memory controller (timing rules as in section 4 of
  JESD79-3): the intrusive list on the heap, the FR-FCFS bank queues, the clock conversion, the activation window, the
  device's timing rules over whole command logs, that the controller holds nothing back that they allow, and the
  controller with its wake-up events.
* `Doppelganger.dfy` is the tag and data array of the Doppelganger cache.
* `FilterCache.dfy` is the L0 filter in front of the L1, `DataBus.dfy` the earliest-fit data-bus allocator.
* `Arithmetic.dfy` has the few facts about products and quotients that the others use.

Code that changes state is modelled by classes and methods with loops. A class keeps a ghost value of what its
fields encode (lists behind links, logs behind timestamps); every method is proved against a function of that value,
and the lemmas are about the function. The two locks, the coherence protocol and the filter are concurrent, so they
are step relations over all interleavings; the theorems are about every state of every run.

Three properties that one would expect turn out not to hold of the code. Each is kept as it is, shown to fail on a
concrete input, and given its exact condition: a waiting thread may leave the barrier and rejoin exactly if its
`lastIdx` is right (`Barrier.LeaveExactly`, `Barrier.StaleLastIdx`); a filter hit can be trusted exactly for lines
other than line 0 (`FilterCache.TrustedExactly`); transfers on the data bus stay apart exactly if powering down costs
nothing, never happens, or there is one rank (`DataBus.ApartExactly`). A fourth is only half lost: the activation
window stays ordered exactly if the new ACT is no older than the second-oldest entry (`ActWindow.SortedExactly`), but
the tFAW rule it is there for holds in every run all the same (`ActWindow.SpanKept`,
`DdrMemory.Controller.RankActivates`).

Replacement policies, random numbers and hash functions are arbitrary: a choice is any element of the candidates, a
hash any function. `get_map` is a parameter. Numbers are unbounded.

Verify with `dafny verify dfyconfig.toml`.

## Model

| member | source | states |
|---|---|---|
| `Mesi.StepCoherent` | zsim/src/coherence_ctrls.cpp:213-332 | every step of the protocol, from any coherent state and wherever requests are waiting, leads to a coherent state: exact directory, one owner, inclusion, well-formed pending requests |
| `Mesi.StepDirty` | zsim/src/coherence_ctrls.cpp:56-186 | every step keeps a written line in M somewhere until memory has it, through evictions, INV, INVX, induced write-backs and the PUTX-to-PUTS rewrite |
| `Mesi.RunInv` | zsim/src/cache.cpp:209-272 | both hold in every state of every run |
| `Mesi.ReachableInv` | zsim/src/cache.cpp:209-272 | the same for every reachable state |
| `Mesi.DirectoryExact` | zsim/src/coherence_ctrls.cpp:261-332 | in every reachable state the sharers are exactly the children not in I, numSharers is their number, a valid child has a valid parent, and a child in E or M is alone, recorded exclusive, under a parent in E or M |
| `Mesi.SingleWriter` | zsim/src/coherence_ctrls.cpp:261-332 | a cache in E or M and any other valid copy lie on one path to memory; two terminal caches never hold a line together if one may write it |
| `Mesi.RaceCheckNeverFails` | zsim/src/coherence_ctrls.h:247-338 | with invalidations interleaved anywhere, no assertion or panic of the race check can fire, exactly the PUTs of lines already gone are skipped, and every other PUT finds its line in the parent with the child as sharer |
| `Mesi.DirtyUntilWrittenBack` | zsim/src/coherence_ctrls.cpp:96-103 | only a PUTX that reaches memory ends the dirty period of a line |
| `Mesi.DirtyNeverLost` | zsim/src/coherence_ctrls.cpp:56-186 | from a write until that PUTX, at every point of every run, some cache holds the line in M |
| `Mesi.InvKeeps` | zsim/src/coherence_ctrls.cpp:213-247 | an INV pass over a whole subtree keeps coherence |
| `Mesi.InvxKeeps` | zsim/src/coherence_ctrls.cpp:213-247 | so does an INVX pass down the chain of exclusive holders |
| `Mesi.GrantSKeeps` | zsim/src/coherence_ctrls.cpp:281-304 | granting a GETS, in E or in S after a downgrade, keeps coherence |
| `Mesi.GrantXKeeps` | zsim/src/coherence_ctrls.cpp:305-326 | granting a GETX, after taking an upgrading sharer out and invalidating the rest, keeps coherence |
| `Mesi.PutKeeps` | zsim/src/coherence_ctrls.cpp:266-280 | a PUT that is not skipped keeps coherence |
| `Mesi.SkipKeeps` | zsim/src/coherence_ctrls.h:253-258 | a PUT skipped by the race check keeps coherence |
| `Mesi.DeliverKeeps` | zsim/src/coherence_ctrls.h:347-380 | serving the child once the parent's own request has been answered keeps coherence |
| `Mesi.EvictKeeps` | zsim/src/coherence_ctrls.h:340-345 | invalidating the children of a victim and sending its PUT keeps coherence |
| `Mesi.MemoryKeeps` | zsim/src/ddr_mem.cpp:243-257 | memory's answers keep coherence |
| `MesiAnswers.StartAnswer` | zsim/src/coherence_ctrls.cpp:281-326 | a GET its parent can answer is answered, and every cache's state afterwards is given: a GETS gets E exactly if no other child holds the line, the parent owns it and NOEXCL is not set, and else S, every owner below the parent going to S; a GETX gets M, every other copy below the parent going to I; written data below moves the parent to M |
| `MesiAnswers.StartAsks` | zsim/src/coherence_ctrls.cpp:104-131 | a GET its parent cannot answer is passed up and changes no state yet |
| `MesiAnswers.DeliverAnswer` | zsim/src/coherence_ctrls.h:347-380 | the same answer once the parent's own request is back |
| `MesiAnswers.MemoryAnswer` | zsim/src/ddr_mem.cpp:243-257 | memory answers a GETS with E, or S if NOEXCL is set, a GETX with M, and takes a PUT |
| `MesiAnswers.EvictAnswer` | zsim/src/coherence_ctrls.cpp:250-259 | an eviction invalidates exactly the copies below the victim, and makes it M if one was written |
| `MesiAnswers.CopiesLost` | zsim/src/coherence_ctrls.cpp:56-332 | a copy is lost only to its own PUT, to a GETX from elsewhere below a common parent, or to an eviction above it |
| `MesiAnswers.NoDeadlock` | zsim/src/coherence_ctrls.h:306-403 | in every reachable state with a request pending, some step can move one on |
| `MesiControllers.CheckForMESIRace` | zsim/src/coherence_ctrls.h:247-274 | the code's branches give the protocol's race decision, and none of its assertions fails when the protocol says so |
| `MesiControllers.InvUpToStep` | zsim/src/coherence_ctrls.cpp:224-235 | invalidating one more sharer's subtree extends the pointwise description of the loop by exactly that subtree |
| `MesiControllers.InvUpToEnds` | zsim/src/coherence_ctrls.cpp:224-238 | after the last child the loop has done the whole INV pass |
| `MesiControllers.InvxOneStep` | zsim/src/coherence_ctrls.cpp:239-244 | downgrading the one exclusive sharer's chain is the whole INVX pass |
| `MesiControllers.CoherentInvReady` | zsim/src/coherence_ctrls.cpp:213-247 | in a coherent state the pass meets no child that lacks the line and counts exactly numSharers messages |
| `MesiControllers.CoherentInvxReady` | zsim/src/coherence_ctrls.cpp:213-247 | in a coherent state the downgrade meets only children in E or M |
| `MesiControllers.Hierarchy.SendInv` | zsim/src/coherence_ctrls.cpp:213-247 | the loop, calling itself through the children, leaves the line as the pointwise pass does and reports a write-back exactly if some cache it reached was in M |
| `MesiControllers.Hierarchy.ReceiveInv` | zsim/src/coherence_ctrls.h:397-403 | the child's side of an INV: its subtree and itself |
| `MesiControllers.Hierarchy.SendInvx` | zsim/src/coherence_ctrls.cpp:213-247 | the same for INVX, stopping where sharers are not exclusive |
| `MesiControllers.Hierarchy.ReceiveInvx` | zsim/src/coherence_ctrls.cpp:162-186 | the child's side of an INVX |
| `MesiControllers.Hierarchy.TopAccess` | zsim/src/coherence_ctrls.cpp:261-332 | the directory code grants what the protocol's grant step grants |
| `MesiControllers.Hierarchy.HandleGet` | zsim/src/coherence_ctrls.h:347-380 | bottom and top controller together, with the induced write-back, do the protocol's step for a GET |
| `MesiControllers.Hierarchy.HandleRequest` | zsim/src/coherence_ctrls.h:306-380 | locking, race check and access together do the protocol's step for any request |
| `MesiControllers.Hierarchy.ResumeGet` | zsim/src/coherence_ctrls.h:365-377 | the rest of the access, once the parent's own request has been answered, does the protocol's step that serves the child |
| `MesiControllers.Hierarchy.ProcessEviction` | zsim/src/coherence_ctrls.cpp:56-85 | the eviction code does the protocol's eviction step |
| `ZArray.LookupExact` | zsim/src/cache_arrays.cpp:105-123 | if every resident line sits at one of its positions, lookup finds exactly the resident addresses, each at its line |
| `ZArray.ParentFirst` | zsim/src/cache_arrays.cpp:143-190 | if a candidate is the first occurrence of its line in the walk, so is its parent |
| `ZArray.PathRelocation` | zsim/src/cache_arrays.cpp:181-201 | the path from the minimum-index candidate back to a seed has no repeated position, although the walk may revisit lines, and each line on it can sit one step down |
| `ZArray.RotatedPermutation` | zsim/src/cache_arrays.cpp:209-217 | the chain of moves leaves lookupArray a permutation |
| `ZArray.RotatedFindable` | zsim/src/cache_arrays.cpp:209-221 | after it every resident line sits at one of its positions, the new one included |
| `ZArray.ZCache.LookupLine` | zsim/src/cache_arrays.cpp:105-123 | returns -1 exactly if the address is not resident, and else its line |
| `ZArray.ZCache.Expand` | zsim/src/cache_arrays.cpp:144-168 | an expansion adds exactly ways-1 candidates, within the array |
| `ZArray.ZCache.Explore` | zsim/src/cache_arrays.cpp:128-172 | the walk ends with enough candidates or an empty line, and never past cands+ways entries |
| `ZArray.ZCache.Preinsert` | zsim/src/cache_arrays.cpp:125-207 | the replacement policy's choice among the first cands candidates of the complete walk is taken, and the swap array holds a relocation path to it of at most cands/ways+1 positions, so it never overflows |
| `ZArray.ZCache.PickCandidate` | zsim/src/cache_arrays.cpp:170-189 | takes the policy's choice and finds the first candidate with its line |
| `ZArray.ZCache.FillSwapArray` | zsim/src/cache_arrays.cpp:194-201 | following parents fills the swap array with that path |
| `ZArray.ZCache.Postinsert` | zsim/src/cache_arrays.cpp:209-224 | the new address is found at the chosen line, the victim is gone, and every other address is found where it was |
| `ZArray.ZCache.MoveChain` | zsim/src/cache_arrays.cpp:212-216 | the loop rotates the positions on the path in place |
| `Futex.StepInv` | zsim/src/locks.h:153-213 | every step of any thread keeps at most one owner and a word that agrees with it |
| `Futex.StepWakeup` | zsim/src/locks.h:153-213 | every step keeps that a sleeper has the word at 2, a releaser about to wake, or an awake thread about to exchange |
| `Futex.RunInv` | zsim/src/locks.h:153-213 | both hold in every state of every run of any number of threads |
| `Futex.MutualExclusionAndWakeup` | zsim/src/locks.h:153-213 | two threads never hold the lock, and no wakeup is lost |
| `Futex.RefinesSemaphore` | zsim/src/locks.h:153-213 | every step is a P, a V or nothing of a binary semaphore that any thread may release |
| `Futex.TakesExactlyIfFree` | zsim/src/locks.h:157-169 | an attempt by compare-and-swap or exchange takes the lock exactly if it is free |
| `Futex.CallReturnsHolding` | zsim/src/locks.h:153-202 | a lock call returns only with the lock; only the one with a timeout may give up, and then the lock was taken |
| `RwMutex.StepInv` | zsim/src/mutex.h:100-182 | every step of rdLock, rdUnlock, wrLock, wrUnlock, upgrade and downgrade keeps the reader count, the two locks and the program counters in agreement |
| `RwMutex.RunInv` | zsim/src/mutex.h:100-182 | so it holds in every run |
| `RwMutex.WriterExcludes` | zsim/src/mutex.h:111-127 | a writer never overlaps a reader or another writer |
| `RwMutex.WriterSees` | zsim/src/mutex.h:160-170 | the value a downgrade reads is 0 or 1, and 1 exactly if a reader waits for the writer lock |
| `RwMutex.DowngradeAtomic` | zsim/src/mutex.h:139-176 | from the start of a downgrade to the end of that read lock no writer gets in |
| `RwMutex.CallKeepsPromise` | zsim/src/mutex.h:111-176 | in every interleaving a call comes to rest only with what it promises: rdLock and downgrade reading, wrLock and upgrade writing, the unlocks outside |
| `RwMutex.ReadersShare` | zsim/src/mutex.h:111-114 | a reader that comes while another reads is let in at once |
| `RwMutex.NoDeadlock` | zsim/src/mutex.h:111-176 | while a call is under way, some call can go on, or some thread reads or writes and so can unlock |
| `Barrier.EndOfList` | zsim/src/barrier.h:201-206 | when the list is exhausted and nobody runs, either all have left or every waiting thread has run in this phase |
| `Barrier.WaiterStopsPhase` | zsim/src/barrier.h:149-151 | while a waiting thread is ahead of the cursor, a wake-up round cannot end the phase |
| `Barrier.Progress` | zsim/src/barrier.h:275-279 | after the last wake-up round somebody runs or nobody waits |
| `Barrier.CleanAtEnd` | zsim/src/barrier.h:217-235 | the cleanup pass has removed exactly the LEFT threads |
| `Barrier.LeaveExactly` | zsim/src/barrier.h:129-178 | after a waiting thread's leave, the rejoin code finds its own entry under lastIdx, as it asserts, or the thread still ahead of the cursor, wherever the cursor then stands, exactly if lastIdx was its place on the run list |
| `Barrier.StaleLastIdx` | zsim/src/barrier.h:127-137 | with one running thread allowed, two joins and a leave of the second thread, never woken, break that: the entry under its lastIdx is the first thread's |
| `Barrier.JoinLeaveBarrier.constructor` | zsim/src/barrier.h:105-119 | starts empty and sound |
| `Barrier.JoinLeaveBarrier.CheckRunList` | zsim/src/barrier.h:256-273 | wakes waiting threads from the cursor on, at most parallelThreads; the wakeup-race panic is unreachable |
| `Barrier.JoinLeaveBarrier.CheckEndPhase` | zsim/src/barrier.h:201-254 | ends the phase exactly if the list is exhausted, nobody runs and not all have left; then every waiting thread has run |
| `Barrier.JoinLeaveBarrier.Cleanup` | zsim/src/barrier.h:216-235 | exactly the LEFT threads go OFFLINE, the list stays duplicate-free and the count in the assertion is right |
| `Barrier.JoinLeaveBarrier.Shuffle` | zsim/src/barrier.h:239-252 | any shuffle keeps every thread listed once, with the right lastIdx |
| `Barrier.JoinLeaveBarrier.TryWakeNext` | zsim/src/barrier.h:275-279 | afterwards as many threads run as may, unless the cursor has passed the whole list, and somebody runs if anybody waits; at most one phase has ended, never past a waiting thread ahead of the cursor; threads only went from WAITING to RUNNING or, at a cleanup, from LEFT to OFFLINE |
| `Barrier.JoinLeaveBarrier.Join` | zsim/src/barrier.h:124-152 | a join or rejoin keeps all counts and lists right, leaves no place free while a thread ahead of the cursor waits, and never ends a phase |
| `Barrier.JoinLeaveBarrier.Rejoin` | zsim/src/barrier.h:129-146 | the thread still gets its turn in this phase; if the cursor had passed it, the swap makes it the next |
| `Barrier.JoinLeaveBarrier.Leave` | zsim/src/barrier.h:166-178 | any running or waiting thread may leave; counts and lists stay right if it runs or its lastIdx is right, a phase it ends is complete, and a waiting thread's leave changes nobody else |
| `Barrier.JoinLeaveBarrier.Sync` | zsim/src/barrier.h:181-187 | an arrival keeps counts and lists right and fills the places it can; a phase that ends is complete |
| `IntrusiveList.Node.Unlink` | zsim/src/intrusive_list.h:50-57 | the neighbours are joined and the node is detached |
| `IntrusiveList.Node.LinkPrev` | zsim/src/intrusive_list.h:59-72 | the node is chained in behind another; the assertions hold |
| `IntrusiveList.InList.PushFront` | zsim/src/intrusive_list.h:88-101 | puts the element first; links, owner, head, tail and size agree |
| `IntrusiveList.InList.PushBack` | zsim/src/intrusive_list.h:103-115 | puts it last |
| `IntrusiveList.InList.PopFront` | zsim/src/intrusive_list.h:117-124 | removes the first, which ends up detached; nothing on the empty list |
| `IntrusiveList.InList.PopBack` | zsim/src/intrusive_list.h:126-133 | removes the last |
| `IntrusiveList.InList.Remove` | zsim/src/intrusive_list.h:135-143 | removes an element from anywhere |
| `IntrusiveList.InList.InsertAfter` | zsim/src/intrusive_list.h:145-151 | inserts behind a given element |
| `FrFcfs.QueueRequest` | zsim/src/ddr_mem.cpp:384-419 | the walk over the linked list, from the tail, puts a request where the FR-FCFS rule says, with its number in its run |
| `FrFcfs.FindLastOf` | zsim/src/ddr_mem.cpp:384-399 | the walk stops at the last request for the row |
| `FrFcfs.QueuedRuns` | zsim/src/ddr_mem.cpp:384-419 | a bank queue stays a sequence of same-row runs, numbered consecutively up to rowHitLimit |
| `FrFcfs.ServedRuns` | zsim/src/ddr_mem.cpp:627-629 | serving the front keeps that |
| `FrFcfs.QueuedFull` | zsim/src/ddr_mem.cpp:384-399 | a request starts a new run of its row only if the run before it has reached rowHitLimit: row hits are taken ahead of other rows as long as the limit allows |
| `FrFcfs.ServedFull` | zsim/src/ddr_mem.cpp:627-629 | serving the front keeps that |
| `FrFcfs.OpenRowHit` | zsim/src/ddr_mem.cpp:402-419 | a request that finds no queue and its row open goes on counting from the last one served, up to the limit |
| `FrFcfs.HistoryOk` | zsim/src/ddr_mem.cpp:345-423 | over every history of a bank with one list, what has been served and what is queued form runs numbered on without a gap |
| `FrFcfs.HitsLimited` | zsim/src/ddr_mem.cpp:384-419 | so a bank with one list never serves more than rowHitLimit row hits on end, even if requests come one at a time |
| `FrFcfs.SameRowInOrder` | zsim/src/ddr_mem.cpp:384-419 | requests for one row are served in arrival order; no other row's order changes |
| `FrFcfs.QueuedAhead` | zsim/src/ddr_mem.cpp:384-419 | a newcomer never changes the number of requests that can still be served before a queued one |
| `FrFcfs.ServedAhead` | zsim/src/ddr_mem.cpp:627-629 | every service lowers it by one at least |
| `FrFcfs.BoundedOvertaking` | zsim/src/ddr_mem.cpp:345-423 | whatever arrives later, a queued request is served after at most that many services of its list, the bank's read list or its write list |
| `DdrQueues.SomeFirst` | zsim/src/ddr_mem.cpp:513-534 | a nonempty queue has a request that is first in its bank |
| `DdrQueues.QueuedFiled` | zsim/src/ddr_mem.cpp:367-369 | accepting a request keeps every queued request in its bank's list exactly once |
| `DdrQueues.ServedFiled` | zsim/src/ddr_mem.cpp:627-629 | so does serving one that is first in its bank |
| `DdrClock.MatchingRoundTrip` | zsim/src/ddr_mem.h:248-258 | a memory cycle translated to a system cycle and back is the same cycle, for every cycle from 1 on and all frequencies the controller accepts |
| `DdrClock.WakesInCycle` | zsim/src/ddr_mem.cpp:336-339 | the cycle a wake-up is queued for is not in the past and is in exactly the memory cycle wanted |
| `DdrClock.AnswerNotInThePast` | zsim/src/ddr_mem.cpp:606-607 | an answer is never due before the current system cycle |
| `DdrClock.EndOfCycle` | zsim/src/ddr_mem.h:251-251 | the end of a memory cycle is translated to a system cycle in one of the two memory cycles after it |
| `ActWindow.PushedContents` | zsim/src/ddr_mem.h:59-74 | recording an ACT loses only the oldest entry |
| `ActWindow.SortedExactly` | zsim/src/ddr_mem.h:59-74 | the window stays in order exactly if the new ACT is no older than the second-oldest entry |
| `ActWindow.OutOfOrder` | zsim/src/ddr_mem.h:65-71 | otherwise the newest entry ends up as the oldest and the new one as the newest |
| `ActWindow.OutOfOrderExample` | zsim/src/ddr_mem.h:65-71 | four ACTs, all let in with a tFAW of 20, that bring a window of four out of order |
| `ActWindow.Chains` | zsim/src/ddr_mem.h:55-74 | in or out of order, the ACTs let in fall into as many chains as the window has entries, and within a chain they are tFAW apart |
| `ActWindow.SpanKept` | zsim/src/ddr_mem.h:40-79 | so of any n + 1 ACTs, n being the window's size, two are tFAW apart |
| `ActWindow.Window.AddActivation` | zsim/src/ddr_mem.h:59-74 | the circular insertion loop, with the slot it overwrites early |
| `DdrTiming.BurstsDisjoint` | zsim/src/ddr_mem.cpp:581-583 | in a legal command log no two bursts are on the data bus in the same cycle |
| `DdrTiming.PrechargeKeeps` | zsim/src/ddr_mem.cpp:559-566 | closing a row keeps the log legal: tRAS after its ACT, recovery after its last column command |
| `DdrTiming.ActivateKeeps` | zsim/src/ddr_mem.cpp:568-600 | so does opening a row and using it: ACTs of a bank tRAS+tRP apart, none before a refresh is done, the column command tRCD later |
| `DdrTiming.ColumnKeeps` | zsim/src/ddr_mem.cpp:549-600 | so does a row hit: bursts follow each other, and a read waits tWTR after a write |
| `DdrTiming.RefreshKeeps` | zsim/src/ddr_mem.cpp:634-653 | so does a refresh of all banks |
| `DdrLeast.PrechargeLeast` | zsim/src/ddr_mem.cpp:586-594 | an open row may be closed, by the rules and the commands sent, exactly from minPreCycle on |
| `DdrLeast.BusFreeLeast` | zsim/src/ddr_mem.cpp:551-583 | a column command goes out in the first cycle in which it breaks no rule of the bus |
| `DdrLeast.ColumnTight` | zsim/src/ddr_mem.cpp:581-600 | a column command leaves what is remembered of bank and bus exact |
| `DdrLeast.ActivateTight` | zsim/src/ddr_mem.cpp:571-576 | so does an ACT |
| `DdrLeast.RefreshTight` | zsim/src/ddr_mem.cpp:644-653 | so does a refresh |
| `DdrActivates.FourActivates` | zsim/src/ddr_mem.cpp:569-576 | in a command log whose ACTs the rank's window let in, of any five ACTs to the rank two are tFAW apart |
| `DdrMemory.IssueKeeps` | zsim/src/ddr_mem.cpp:549-600 | a request found ready goes out as soon as the bus is free, its ACT never holding it up, and the log stays legal |
| `DdrMemory.IssueAdvances` | zsim/src/ddr_mem.cpp:590-599 | the assertion on command order holds and minPreCycle does not go back |
| `DdrMemory.ColumnAfter` | zsim/src/ddr_mem.cpp:574-594 | the early update of minPreCycle makes no difference to its final value |
| `DdrMemory.PagePolicy` | zsim/src/ddr_mem.cpp:586-599 | after a service the bank has the request's row and hit count; with a closed-page policy the row is left open exactly if the next request of the list goes on with it |
| `DdrMemory.MinCmdLeast` | zsim/src/ddr_mem.cpp:470-489 | a cycle is at or after the one computed exactly if some precharge and ACT that keep all constraints allow the column command in it |
| `DdrMemory.Controller.FindMinCmdCycle` | zsim/src/ddr_mem.cpp:470-489 | computes the first cycle in which the bank can take the request |
| `DdrMemory.Controller.Issue` | zsim/src/ddr_mem.cpp:547-599 | sends exactly the commands of the request, changes only its bank and the bus, and keeps every timing rule |
| `DdrMemory.Controller.FindReady` | zsim/src/ddr_mem.cpp:516-534 | finds the oldest ready request among those first in their banks, or else the earliest cycle in which there is one |
| `DdrMemory.Controller.Serve` | zsim/src/ddr_mem.cpp:545-629 | one column command, and one request gone from its queue and the front of its bank |
| `DdrMemory.Controller.Decide` | zsim/src/ddr_mem.cpp:506-543 | a request is picked exactly if one can be served; if none, the wake-up asked for is the cycle in which the bus comes near enough, or else the first in which a request is ready in the queue whose turn it is |
| `DdrMemory.Controller.ServeNext` | zsim/src/ddr_mem.cpp:545-631 | after a service with requests left, the wake-up asked for is the first cycle in which another column command may follow |
| `DdrMemory.Controller.NoneBefore` | zsim/src/ddr_mem.cpp:506-543 | a wake-up before the one asked for would have served nothing |
| `DdrMemory.Controller.WriteDrain` | zsim/src/ddr_mem.cpp:509-511 | writes are drained from three quarters of their queue down to one quarter |
| `DdrMemory.Controller.TrySchedule` | zsim/src/ddr_mem.cpp:491-632 | serves a request exactly if one can be served, the oldest ready one of the queue whose turn it is; asks not to be woken exactly if nothing is left, and else for exactly the cycle that Decide or ServeNext name |
| `DdrMemory.Controller.File` | zsim/src/ddr_mem.cpp:345-423 | puts a request into the right queue and its bank's list |
| `DdrMemory.Controller.Enqueue` | zsim/src/ddr_mem.cpp:296-343 | the request joins the overflow if either queue is full, and else the write or the read queue; a wake-up is queued if and only if a request is pending |
| `DdrMemory.Controller.WakeFor` | zsim/src/ddr_mem.cpp:321-341 | the wake-up moves to the first cycle in which the request could go out, if that is earlier, and else stays |
| `DdrMemory.Controller.Wake` | zsim/src/ddr_mem.cpp:325-340 | the old event is annulled, and the one new un-annulled event is queued for exactly that memory cycle |
| `DdrMemory.Controller.Tick` | zsim/src/ddr_mem.cpp:426-461 | the assertion on the cycle holds; the next wake-up is the scheduler's, or that of an overflowed request taken in if sooner, and falls in exactly that memory cycle; none is asked for exactly if all three queues are empty |
| `DdrMemory.Controller.TakeOverflow` | zsim/src/ddr_mem.cpp:432-450 | the oldest overflowed request moves into its queue; if it comes first in its bank the wake-up moves to the end of the burst under way, if that is earlier (what findMinCmdCycle returns makes no difference here) |
| `DdrMemory.Controller.Simulate` | zsim/src/ddr_mem.cpp:114-132 | running a queued or annulled event keeps everything: nobody stranded, one live event, the log legal and only growing, served plus pending requests unchanged |
| `DdrMemory.Controller.Recycle` | zsim/src/ddr_mem.cpp:463-468 | a finished event, never the next one and never one already free, joins the free list |
| `DdrMemory.Controller.RankActivates` | zsim/src/ddr_mem.cpp:491-656 | in every run, of any five ACTs sent to a rank two are tFAW apart |
| `DdrMemory.Controller.Refresh` | zsim/src/ddr_mem.cpp:634-656 | all banks close for a refresh that starts in the first cycle in which all have finished; minPreCycle does not go back |
| `Doppelganger.UnlinkedKeeps` | zsim/src/doppelganger_cache.cpp:53-81 | taking a tag out of its list leaves all lists well formed |
| `Doppelganger.LinkedKeeps` | zsim/src/doppelganger_cache.cpp:85-96 | so does adding a free tag as head |
| `Doppelganger.UnlinkedMaps` | zsim/src/doppelganger_cache.cpp:53-81 | taking a tag out adds no map value and keeps each in one line of its own set |
| `Doppelganger.LinkedMaps` | zsim/src/doppelganger_cache.cpp:204-215 | adding a tag keeps the data array a partial function from map values to lines |
| `Doppelganger.MapInItsSet` | zsim/src/doppelganger_cache.cpp:99-110 | a map value held anywhere is held in the set it hashes to |
| `Doppelganger.TraversalExact` | zsim/src/doppelganger_cache.cpp:53-96 | following prev from a head meets exactly the tags of that data line, each once, and then -1; next undoes prev |
| `Doppelganger.DrainStep` | zsim/src/doppelganger_cache.cpp:173-176 | one turn of the eviction loop takes exactly the head of the list |
| `Doppelganger.ReportsEachOnce` | zsim/src/doppelganger_cache.cpp:169-189 | the evictions reported are the sharers from head to tail, each once |
| `Doppelganger.DpgArray.RemoveTag` | zsim/src/doppelganger_cache.cpp:53-81 | the link surgery does the unlinking |
| `Doppelganger.DpgArray.AddTag` | zsim/src/doppelganger_cache.cpp:85-96 | the link surgery makes the tag the new head |
| `Doppelganger.DpgArray.LookupData` | zsim/src/doppelganger_cache.cpp:99-110 | misses exactly if no occupied line anywhere has that map value |
| `Doppelganger.DpgArray.EvictData` | zsim/src/doppelganger_cache.cpp:169-177 | terminates with the list empty, each sharer reported to the coherence controller exactly once, and no other tag changed |
| `Doppelganger.DpgArray.GetFreeData` | zsim/src/doppelganger_cache.cpp:113-149 | the first free line in the map value's set, or, only if none is free, a line chosen and drained |
| `Doppelganger.DpgArray.GetFreeTag` | zsim/src/doppelganger_cache.cpp:152-166 | a free tag in the address's set, or, only if none is free, one chosen, evicted and reported |
| `Doppelganger.DpgArray.Place` | zsim/src/doppelganger_cache.cpp:204-215 | the tag heads the one line with its map value; a line is taken over only if its set has no free one, and then exactly its tags are gone; all others keep address and line |
| `Doppelganger.DpgArray.Lookup` | zsim/src/doppelganger_cache.cpp:192-228 | a hit is a tag of that address, afterwards in the line of its present map value; an unchanged map changes nothing, a changed one re-homes the tag and clears its address |
| `Doppelganger.DpgArray.Preinsert` | zsim/src/doppelganger_cache.cpp:231-247 | a tag in the address's set, linked to the line of its map value, with the other tags as Place says |
| `Doppelganger.DpgArray.Postinsert` | zsim/src/doppelganger_cache.cpp:249-261 | installs the address and nothing else |
| `FilterCache.StepInv` | zsim/src/filter_cache.h:128-168 | every step of the core, of any number of invalidators and of a context switch keeps the filter in agreement with the L1, but for the one entry a replacement is about to overwrite |
| `FilterCache.EntryStays` | zsim/src/filter_cache.h:137-168 | an entry changes only when the core replaces it, a context switch clears it, or its own line is invalidated, and that does clear it |
| `FilterCache.RunInv` | zsim/src/filter_cache.h:128-168 | so it holds in every run |
| `FilterCache.HitsTruthful` | zsim/src/filter_cache.h:102-126 | a read hit means the L1 holds the line, a write hit that it is in M |
| `FilterCache.ReplaceSecures` | zsim/src/filter_cache.h:128-149 | once replace has written its entry, the line is held, in M for a store, as long as the filter lock is |
| `FilterCache.TrustedExactly` | zsim/src/filter_cache.h:46-52 | hits tell the truth in all runs exactly for lines other than 0, the value of a cleared entry |
| `DataBus.ScanEarliest` | zsim/src/detailed_mem.cpp:254-271 | on an ordered log the one pass of the scan, early exit included, finds the first slot that keeps tRTRS from every logged transfer |
| `DataBus.SortSorts` | zsim/src/detailed_mem.cpp:197-200 | the log is sorted and loses nothing |
| `DataBus.InsertOk` | zsim/src/detailed_mem.cpp:197-200 | logging a transfer that fits keeps the log sorted and its entries apart |
| `DataBus.TrimCovers` | zsim/src/detailed_mem.cpp:201-204 | every transfer covered by the log stays covered when the oldest entry is dropped, since the next one then starts at 0 |
| `DataBus.MovedFits` | zsim/src/detailed_mem.cpp:413-451 | the slot still fits after the penalty: with one rank, everything logged has ended when a penalised access arrives |
| `DataBus.ServedOk` | zsim/src/detailed_mem.cpp:413-451 | an access whose penalty is 0 or harmless keeps all transfers there ever were pairwise tRTRS apart |
| `DataBus.RunOk` | zsim/src/detailed_mem.cpp:349-451 | so it holds in every run of a channel in which powering down is harmless |
| `DataBus.PaysExactly` | zsim/src/detailed_mem.cpp:442-452 | in every run an access pays tXP exactly if its rank powers down and has transferred nothing for more than powerDownCycle cycles before it arrived |
| `DataBus.RunRemembers` | zsim/src/detailed_mem.cpp:197-205 | in every run of a harmless channel the log is as long as it may be, and a transfer dropped from it ended no later than its oldest entry |
| `DataBus.AfterWoken` | zsim/src/detailed_mem.cpp:418-451 | else two accesses collide: the second's rank has powered down, and its transfer fits before one of another rank until the penalty moves it |
| `DataBus.ApartExactly` | zsim/src/detailed_mem.cpp:349-451 | transfers stay apart, in all runs and also in those in arrival order, exactly if tXP is 0, powerDownCycle is 0 or there is one rank |
| `DataBus.Channel.CalcInterIssueCycle` | zsim/src/detailed_mem.cpp:254-271 | returns the earliest cycle whose slot keeps tRTRS from every logged transfer |
| `DataBus.Channel.FindSlot` | zsim/src/detailed_mem.cpp:256-270 | the loop does the scan |
| `DataBus.Channel.UpdateDataBusCycle` | zsim/src/detailed_mem.cpp:197-205 | push, sort and trim |
| `DataBus.Channel.GetPowerDownPenalty` | zsim/src/detailed_mem.cpp:442-452 | charges only a rank that has been idle for more than powerDownCycle |
| `DataBus.Channel.Access` | zsim/src/detailed_mem.cpp:413-439 | one access takes the slot found, shifted by the penalty its rank owes, and keeps the bus free of collisions if the penalty is 0 or harmless |

## Left out

- Coherence: an invalidation pass, during which the locks on its way are held, is one step; a cache has one request
  under way per line; `nonInclusiveHack`, FWD, prefetches and PUTX_KEEPEXCL, which nothing sets, are not modelled.
- Coherence: the sharer bit set has no size limit, and several parents (banks) of a cache are seen as the one that
  serves the line.
- ZArray.ZCache.LookupLine: line address 0 is excluded, as the code panics on it.
- Barrier.JoinLeaveBarrier.Leave: promises a sound barrier after a waiting thread's leave only if its lastIdx is right,
  see `Barrier.LeaveExactly`; the code lets any waiting thread leave.
- IntrusiveList.InList.InsertAfter: takes the position of the element behind which to insert as a proof argument,
  in place of the run-time check of its owner; Remove likewise.
- DdrMemory.Controller.Enqueue: a queue depth of 0, with which no request is ever scheduled, is excluded; address
  mapping is done by the caller, and the answers to reads and writes are not sent.
- DdrMemory.Controller.Issue: no spacing of ACTs to different banks of a rank (tRRD) is claimed, because the code
  checks it only within one bank.
- FrFcfs.HitsLimited: with deferred writes a bank's two lists share the count of row hits; their joint history is not
  followed.
- The request queues' free lists, which only recycle nodes, and the queue nodes' memory: queues in the controller are
  sequences, and the linked list is tied to them by `FrFcfs.QueueRequest`.
- Doppelganger.DpgArray.Lookup: says nothing about finding a re-homed tag by its address again, since the code
  clears the address and does not restore it.
- get_map: how a map value is computed from memory; the map value is a parameter.
- FilterCache.HitsTruthful: one process mask for the whole run; with several, an invalidation from another process
  misses its entry, as a comment in the code says.
- DataBus.Channel.Access: rank, bank and refresh constraints only enter as the first cycle the banks allow, which may
  be any cycle from the arrival on.
- Integer widths: counters and cycles do not wrap.
- Timing and statistics of the caches, event recording, contention simulation, the cores and the decoder.
- The lookahead partitioner and the utility monitor, power and energy estimation, configuration, I/O and scripts.
