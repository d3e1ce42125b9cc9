# Verification of the memory manager, scheduler, monitor and ring buffer

A Dafny model of four components of this collection of operating systems exercises, with proofs
of what they guarantee. `dafny verify dfyconfig.toml` checks all of it.

**Allocator and swapper** (`pamiec/usr/src/mm/alloc.c`, with the reader program `pamiec/t.c`).
`Holes.dfy` is the hole list as a value: carving, releasing with the two-step merge, first fit,
worst fit, and what they mean for the set of free clicks. `HoleTable.dfy` is the fixed table of
slots threaded by indices into hole list and list of unused slots, changed in place by `del_slot`,
`merge`, `alloc_mem`, `free_mem`, `mem_init`, `do_hole_map` and the sweep of `swap_off`; every
method is proved to do to the list what `Holes.dfy` says. `SwapModel.dfy` is the whole memory
manager as a function of its state, and class `MemoryManager` (`MemoryManager.dfy`) the same in
place, proved equal to it. `Tiling.dfy`, `SwapWorld.dfy` and `SwapSafety.dfy` add who holds which
block and which bytes its owner wrote there, and `SwapConservation.dfy` counts the clicks;
`SwapRuns.dfy`, `SwapTheorems.dfy`, `SwapQueue.dfy` and `SwapFairness.dfy` draw the conclusions over
all runs. `SwapPolicy.dfy` says what the policy flag means for the address granted,
`SwapVictims.dfy` who may be swapped out, `SwapOrder.dfy` in which order `swap_in` serves,
`SwapFile.dfy` what is written to the swap file, `SwapOffSuccess.dfy` when `swap_off` succeeds.
`SwapExamples.dfy` and `SwapTraces.dfy` show the faults on states reached from start-up, and
`StartUp.dfy` that the in-place start-up leads to where the runs begin. `HoleMap.dfy` is the word
format of the HOLE_MAP call.

**Monitor and priority buffer** (`monitory/monitor.h`, `monitory/chat.cpp`). `PriorityBuffer.dfy` is
the message list, `MonitorProtocol.dfy` the transition system of any number of senders and readers
with one step per semaphore operation, `MonitorTheorems.dfy` what holds over all its runs,
`MonitorProvenance.dfy` where messages come from and `MonitorReplay.dfy` the order in which they
come out, `MonitorObjects.dfy` the semaphores, conditions and buffer in place.

**Scheduler** (`szeregowanie/zmiany_proc.c`, the scheduling fields of `do_fork` in
`szeregowanie/zmiany_system.c`). `Scheduler.dfy` is one call of `sched` and the operations around
it, `SchedulerTheorems.dfy` waiting times and shares over whole runs, `SchedulerShares.dfy` what
changes of proportion and group and forks do to the shares, `SchedulerStarvation.dfy` when somebody
keeps the processor for ever, `ReadyQueue.dfy` the linked queue in place.

**Ring buffer** (`semafory/czacik.c`). `RingDeque.dfy` is the ring, `RingProtocol.dfy` the users
around it with one step per semaphore operation, `RingTheorems.dfy` what holds over all runs and the
shared objects in place, `RingProvenance.dfy` where messages come from and `RingReplay.dfy` the
order in which they come out.

`Options.dfy`, `Lists.dfy`, `Iteration.dfy`, `Sums.dfy`, `Replays.dfy` and `Semaphores.dfy` are
shared helpers.

## How the code is read

- Pointers into the hole table, the process table and the ready queue are indices; the null
  pointer is -1. NO_MEM is `None` (`NoMem` in the state model). A panic ends the operation.
- NR_HOLES, NR_PROCS, LOW_USER, the click size, CAPACITY and BUFFER_SIZE are parameters. Clicks are
  unbounded integers with a 32-bit range: `NothingWraps` and `SwapAreaFits` show that nothing
  leaves the range while memory and swap area end inside it.
- `rw_seg` is a copy of bytes between memory and the swap file, both maps from addresses to bytes.
  The replies of the SYS_MEM call, the descriptor that opening the swap file returns and the buffer
  size of HOLE_MAP are parameters.
- In `SwapRuns.dfy` the callers of the memory manager are operations too: `Attach` gives an
  allocated block to a process as its image (fork and exec), `Exit` frees an image, `Write` stores a
  byte in a block that is in memory, `SetFlags` changes the flags that make a process a candidate.
- Semaphore operations, and the statements between two of them, are atomic steps. For the statements
  this is no loss: they run with the monitor or the mutex held, and mutual exclusion is proved.

## What the code gets wrong

- Worst fit seeds its search with the list head without looking at its address
  (`pamiec/usr/src/mm/alloc.c:95`). When the list starts with a swap hole that is long enough it
  hands out swap space as memory: `WorstFitCanGrantSwap` is a run that gets there.
  `SwapSpaceHandedOutIff` and `GrantedBelowSwapIff` show that this is the only case,
  `AllocStepKeepsIff` and `ServeKeepsIff` that it always breaks the invariant; first fit has no such
  case (`FirstFitIsSafe`).
- The sweep of `swap_off` steps past the head after every restart
  (`pamiec/usr/src/mm/alloc.c:319-323`). When the list starts with a swap hole it lets the next hole
  get away unexamined, or follows a null pointer when there is no other hole: `SwapOffCanCrash` is a
  run that gets there. `TurnOffKeepsIff` says when, in terms of the state at the call: when
  everybody gets in, it goes wrong exactly if there is a swap area and live blocks hold as many
  clicks as real memory has. With nobody on swap that is the whole condition (`TurnOffAloneIff`).
- The theorems over runs exclude these two cases and nothing else (`Safe` in `SwapRuns.dfy`). As long
  as live blocks hold fewer clicks than real memory has, neither can occur (`SpareMemoryIsSafe`).
- `free_mem` does not check that the block freed overlaps no hole (`ReleaseCanonicalIff`), and
  freeing right after allocating panics when the table is full (`AllocThenFree`): `FreeingCanPanic` is
  a run that gets there.
- `swap_inqueue` trusts the SWAPIN flag. An entry that is still linked but no longer flagged, and
  not the last, cuts off everybody behind it when it is queued again (`QueueingKeepsEntriesIff`).
  `StaleEntryIsReached` is a run that gets there, by the exit of a queued process and the reuse of its
  slot. Whoever is cut off stays out of memory for good (`MissingStaysMissing`), and `swap_off` fails
  (`SwapOffFails`).
- `swap_in` does not protect whom it has served: such a process can be swapped out again within the
  same pass (`ServedMayLeaveAgain`, from a state that a run reaches by `ThrashingIsReached`). Who goes
  is settled by `EvictedIff`, `AllocEvictsIff` and `ServeEvictsIff`.
- `do_hole_map` compares a negative buffer size as a huge unsigned one (`EncodingFitsIff`).
- `set_scheduler` takes any proportion. One that leaves no time to a group of which somebody is queued
  makes some process end at the head for ever, and no other does (`ProportionStarvesIff`, an instance in
  `ProportionCanStarve`).
- The comment on `alloc_mem` mentions first fit only; the policy switch is modelled as the code has it.
- `swap_on` falls off its end on success, so that its value is then undefined.

## Model

| member | source | states |
|---|---|---|
| `SwapTheorems.ImagesSurvive` | pamiec/usr/src/mm/alloc.c:365-448 | Over every run, a block its owner leaves alone reads the same at the end as at the start, byte by byte, from memory or from the swap file, wherever swapping has moved it. |
| `SwapPolicy.GrantObeysPolicy` | pamiec/usr/src/mm/alloc.c:57-120 | Outside the swap-seed case the address granted is, in the list from which the block was taken, that of the lowest hole below the swap base that is long enough when the flag is off, and that of the longest hole below the swap base, the lowest among equals, when it is on; also when processes had to go first. |
| `SwapVictims.OnlyBlockedProcessesLeave` | pamiec/usr/src/mm/alloc.c:414-418 | Whatever the operation, a process goes to the swap device only while PAUSED, WAITING or SIGSUSPENDED, and neither TRACED nor REPLY. |
| `SwapVictims.NobodyIff` | pamiec/usr/src/mm/alloc.c:410-450 | `swap_out` finds nobody if and only if every user process is on swap, has none of the three flags, is traced, owes a reply, or is longer than every hole at or above the swap base. |
| `SwapOffSuccess.SwapOffSucceeds` | pamiec/usr/src/mm/alloc.c:305-328 | With the queue in order, room in the hole table, fewer live clicks than real memory and one hole below the swap base that takes all processes on swap together, `swap_off` succeeds, under either policy. |
| `SwapFile.OnlyTheAreaIsWritten` | pamiec/usr/src/mm/alloc.c:289-294 | After `swap_on` with an offset and a size, and as long as swapping stays on, no byte of the swap file outside that many bytes from the offset on is written. |
| `SwapFile.SwapOnGain` | pamiec/usr/src/mm/alloc.c:291-293 | `swap_on` makes exactly the largest number of clicks free that neither exceeds the bytes given nor the click range. |
| `RingProvenance.SendersKeepTheirPlan` | semafory/czacik.c:126-158 | Over every run the messages a sender has put, in order, followed by those it still has to put, are exactly the messages it set out to send. |
| `RingProvenance.FinishedSentAll` | semafory/czacik.c:126-158 | When all users have finished, the messages sent are those the senders set out to send, each as often as planned. |
| `SwapTheorems.RunKeeps` | pamiec/usr/src/mm/alloc.c:57-451 | The invariant holds in every world that any sequence of operations reaches. |
| `SwapRuns.StepKeeps` | pamiec/usr/src/mm/alloc.c:57-451 | Every operation keeps: well-formed hole list, partition of the known clicks, bookkeeping, and every owner's bytes. |
| `SwapTheorems.SumConstant` | pamiec/usr/src/mm/alloc.c:57-451 | The sum of free and live clicks is unchanged by every operation but `swap_on` and `swap_off`. |
| `SwapTheorems.SameHeldSameHoles` | pamiec/usr/src/mm/alloc.c:148-165 | Two runs that end with the same clicks held end with the same hole list, whatever happened in between. |
| `SwapTheorems.AllocThenFree` | pamiec/usr/src/mm/alloc.c:57-166 | Freeing what was just allocated without swapping restores the whole state, under either policy, if and only if the table has a slot to spare; with a full table it panics. |
| `SwapTheorems.NoPanic` | pamiec/usr/src/mm/alloc.c:138 | With table slots for the live blocks, the memory chunks, the swap area and one block more, no operation reaches "Hole table full", and `swap_off` follows no NIL pointer outside its known fault. |
| `SwapSafety.AllocKeeps` | pamiec/usr/src/mm/alloc.c:57-120 | Called outside the swap-seed case: the block granted is real memory nobody held, and however many processes are swapped out on the way, the partition and every owner's bytes survive. |
| `SwapSafety.GrantedBelowSwapIff` | pamiec/usr/src/mm/alloc.c:57-120 | What is granted lies in real memory if and only if the call was made outside the swap-seed case. |
| `SwapSafety.NoMemMeansExhausted` | pamiec/usr/src/mm/alloc.c:57-120 | NO_MEM: in the state left behind no regular hole is long enough and no process can be swapped out. |
| `SwapRuns.AllocStepKeepsIff` | pamiec/usr/src/mm/alloc.c:57-120 | An allocation that does not panic keeps the invariant if and only if it is called outside the swap-seed case. |
| `SwapQueue.ServeKeepsIff` | pamiec/usr/src/mm/alloc.c:365-393 | One turn of the queue loop keeps partition and bytes if and only if its allocation is outside the swap-seed case. |
| `SwapRuns.TurnOffKeepsIff` | pamiec/usr/src/mm/alloc.c:307-327 | When everybody gets in, `swap_off` ends in a state that keeps the invariant if and only if there is no swap area or live blocks hold fewer clicks than real memory has; with more live clicks than that, not everybody gets in, and then the state is good too. |
| `SwapRuns.TurnOffAloneIff` | pamiec/usr/src/mm/alloc.c:307-327 | With nobody on swap at the call the same condition decides, whatever the policy. |
| `SwapRuns.SpareMemoryIsSafe` | pamiec/usr/src/mm/alloc.c:57-328 | While live blocks hold fewer clicks than real memory has, no operation meets either fault: no swap-seed case in an allocation or anywhere in a pass, and no bad sweep. |
| `SwapTheorems.SwapOffDone` | pamiec/usr/src/mm/alloc.c:299-328 | When `swap_off` succeeds nobody is on swap and no click of the swap area is free or held any more. |
| `SwapExamples.SwapOffCanCrash` | pamiec/usr/src/mm/alloc.c:319-323 | A run from start-up, all calls in order, after which `swap_off` follows a null pointer. |
| `SwapExamples.WorstFitCanGrantSwap` | pamiec/usr/src/mm/alloc.c:95-116 | A run from start-up, all calls in order, after which worst fit hands out swap space and breaks the invariant. |
| `SwapQueue.SwapInLeavesFlagged` | pamiec/usr/src/mm/alloc.c:364-393 | A whole pass leaves exactly the queued processes still flagged SWAPIN, in order, without duplicates. |
| `SwapFairness.RunForgetsNobody` | pamiec/usr/src/mm/alloc.c:333-394 | After every run from start-up in which nobody is queued who is still linked but unflagged, each process flagged SWAPIN is on the queue. |
| `SwapFairness.MissingStaysMissing` | pamiec/usr/src/mm/alloc.c:333-394 | A process on swap that is flagged SWAPIN but off the queue stays so over every run in which it does not exit. |
| `SwapTraces.StaleEntryIsReached` | pamiec/usr/src/mm/alloc.c:333-349 | A run from start-up, all calls in order, in which a slot is left while queued, used again and queued again, and another process is cut off the queue for good. |
| `SwapOrder.LastEntryIsServed` | pamiec/usr/src/mm/alloc.c:374-377 | A pass goes on behind entries it finds no memory for: if the last entry is still flagged at the end, no hole takes it and nobody can be swapped out in the state the pass ends with. |
| `SwapQueue.QueueingKeepsEntriesIff` | pamiec/usr/src/mm/alloc.c:342-348 | Queueing keeps every entry if and only if the process was flagged, not on the queue, or its last entry; otherwise what stands behind it is cut off. |
| `SwapSafety.EvictedIff` | pamiec/usr/src/mm/alloc.c:410-447 | A resident process is swapped out by `swap_out` if and only if it is evictable and the scan comes to it before every other evictable one. |
| `Holes.CanonicalUnique` | pamiec/usr/src/mm/alloc.c:148-165 | The sorted, coalesced list with a given set of free clicks is unique. |
| `Holes.ReleaseCanonicalIff` | pamiec/usr/src/mm/alloc.c:125-166 | Freeing keeps the list sorted and coalesced if and only if the block overlaps no hole; the code does not check this. |
| `Holes.SwapSpaceHandedOutIff` | pamiec/usr/src/mm/alloc.c:95-108 | An attempt hands out a swap hole if and only if worst fit is on and the list starts with a swap hole long enough; first fit never does. |
| `Holes.PoliciesAgreeIff` | pamiec/usr/src/mm/alloc.c:70-118 | The two policies succeed on the same request without swapping if and only if it is not the swap-seed case. |
| `HoleMaps.HoleMapRoundTrip` | pamiec/usr/src/mm/alloc.c:465-481 | For every buffer of at least a word: decoding yields the first regular holes in address order, cut short only when the buffer is full, and the words written fit the buffer. |
| `MemoryManagers.MemoryManager.SwapOff` | pamiec/usr/src/mm/alloc.c:299-328 | In place: success, ENOMEM, panic and following a NIL pointer happen exactly where specified, with the specified state. |
| `MemoryManagers.MemoryManager.SwapIn` | pamiec/usr/src/mm/alloc.c:354-394 | In place: the pass ends with the specified state, or panics where the specification does. |
| `MemoryManagers.MemoryManager.AllocMem` | pamiec/usr/src/mm/alloc.c:57-120 | In place: the retry loop ends with the specified outcome and whole new state. |
| `HoleTables.HoleTable.FreeMem` | pamiec/usr/src/mm/alloc.c:125-166 | In place: panics exactly for a non-empty block and a full table, before anything is changed; otherwise the new list is the released one. |
| `StartUp.Boot` | pamiec/usr/src/mm/alloc.c:231-275 | The start-up code leaves, unless a chunk finds the table full, exactly the state in which the runs of the theorems begin. |
| `MonitorTheorems.MutualExclusion` | monitory/monitor.h:111-132 | In every reachable state at most one thread is inside, although a woken thread never takes `s` and a post may come before its addressee waits. |
| `MonitorTheorems.TokenConserved` | monitory/monitor.h:88-132 | In every reachable state `s`, the posts not yet consumed and the owners add up to one. |
| `MonitorTheorems.ResumedFindsItsTurn` | monitory/chat.cpp:29-58 | A sender that resumes finds exactly CAPACITY - 1 messages, a reader that resumes exactly one. |
| `MonitorTheorems.NoLostWakeUp` | monitory/monitor.h:88-98 | With the monitor free, waiters on `full` exist only if the buffer is full and waiters on `empty` only if it is empty. |
| `MonitorTheorems.StuckShape` | monitory/chat.cpp:27-66 | A stuck state with unfinished threads is all senders blocked at a full buffer or all readers blocked at an empty one. |
| `MonitorTheorems.ClassesAreQueues` | monitory/chat.cpp:25-69 | Over every run the messages of each class are read in sending order, none lost or invented, and priority messages stand in front. |
| `MonitorTheorems.OutcomeIndependentOfSchedule` | monitory/chat.cpp:25-69 | Whatever the schedule, a run that cannot go on has finished all threads if and only if reads <= sends <= reads + CAPACITY. |
| `MonitorReplay.ReadsAreTheCounters` | monitory/chat.cpp:25-69 | Whatever the interleaving, the messages read are exactly those, in that order, that two queues, the urgent one served first, hand out for the same accesses. |
| `MonitorObjects.Buffer.Drive` | monitory/chat.cpp:25-69 | Any scheduler's choices on the objects amount to a run of the transition system. |
| `SchedulerTheorems.ExactWaiting` | szeregowanie/zmiany_proc.c:13-36 | Through any run of these operations, a queued process is the head after exactly the sum, over the processes ahead of it, of 1 on a first turn and `p_ticks` otherwise, and not earlier. |
| `SchedulerTheorems.ExactShare` | szeregowanie/zmiany_proc.c:25-33 | With full budgets, nA*PROC_TIME[0] + nB*PROC_TIME[1] calls restore queue and budgets exactly, each process being head for exactly its group's PROC_TIME. |
| `SchedulerTheorems.ExactShareForever` | szeregowanie/zmiany_proc.c:25-33 | The same over any number of rounds. |
| `SchedulerShares.SharesAreAsSet` | szeregowanie/zmiany_proc.c:46-59 | Two rounds after a group A process has set x, each round has nA*x + nB*(100-x) calls, of which every process of group A gets x and every one of group B 100-x, in all later rounds. |
| `SchedulerTheorems.TwoRoundsFreshen` | szeregowanie/zmiany_proc.c:15-33 | From any valid state with positive budgets, after exactly as many calls as the budgets at the starts of two rounds add up to, the queue is in the same order and everybody has its group's full budget. |
| `Scheduler.HeadGivesWayIff` | szeregowanie/zmiany_proc.c:15-35 | The head ever gives way if and only if it is on its first turn or has a positive budget. |
| `SchedulerStarvation.StarvationIff` | szeregowanie/zmiany_proc.c:13-36 | In a queue of several, some process ends at the head for ever if and only if a queued one has no budget left or belongs to a group whose time is not positive. |
| `SchedulerStarvation.ProportionStarvesIff` | szeregowanie/zmiany_proc.c:46-59 | Set while every queued budget is positive, a proportion makes some process end at the head for ever if and only if it leaves no time to a group of which somebody is queued. |
| `ReadyQueues.Processes.Tick` | szeregowanie/zmiany_proc.c:7-36 | In place: one call of `sched`, whole new state. |
| `RingTheorems.RingIsSound` | semafory/czacik.c:71-214 | In every reachable state `empty` + `full` + rounds under way equal the ring's size, the tail stands at head + size round the ring, and nobody overruns. |
| `RingTheorems.MessagesConserved` | semafory/czacik.c:71-214 | Over every run contents plus read messages equal the sent ones as multisets, and normal messages are read in sending order. |
| `RingReplay.ReadsAreTheDesks` | semafory/czacik.c:71-214 | Whatever the interleaving, the messages read are exactly those, in that order, that a stack of priority messages on a queue of normal ones hands out for the same accesses. |
| `RingTheorems.StuckShape` | semafory/czacik.c:138-221 | A stuck state has no round under way, and unfinished users in it are senders at a full ring only, or readers at an empty one only. |
| `RingTheorems.OutcomeIndependentOfSchedule` | semafory/czacik.c:138-221 | Whatever the schedule, a run that cannot go on has finished all users if and only if reads <= sends <= reads + ring size. |
| `RingTheorems.Shared.Drive` | semafory/czacik.c:138-221 | Any scheduler's choices on the objects amount to a run of the transition system. |
| `Holes.EndNotFree` | pamiec/usr/src/mm/alloc.c:207-222 | Coalescing: the click right behind every hole of a sorted, coalesced list is never free. |
| `Holes.CarveCorrect` | pamiec/usr/src/mm/alloc.c:76-81 | Biting clicks off a hole hands out clicks that were all free, leaves exactly the others free, and keeps the list sorted and coalesced, also when the hole is used up. |
| `Holes.ReleaseForm` | pamiec/usr/src/mm/alloc.c:193-223 | The two merge attempts always end with the freed block grown over exactly the neighbours it touches (none, one or both), between the untouched rest of the list. |
| `Holes.ReleaseCorrect` | pamiec/usr/src/mm/alloc.c:125-166 | Freeing a block that overlaps no hole makes exactly its clicks free in addition. |
| `Holes.CarveThenRelease` | pamiec/usr/src/mm/alloc.c:125-166 | Freeing a piece just bitten off any hole restores the identical list. |
| `Holes.ReleaseCommutes` | pamiec/usr/src/mm/alloc.c:125-166 | Two disjoint blocks may be freed in either order with the same resulting list. |
| `Holes.ReleaseAllCorrect` | pamiec/usr/src/mm/alloc.c:256-268 | Freeing pairwise disjoint chunks into the empty list, in any order, gives the sorted, coalesced list of their clicks. |
| `Holes.FirstFitLowest` | pamiec/usr/src/mm/alloc.c:72-89 | First fit picks the lowest-addressed hole below the swap base that is long enough, and fails only if there is none. |
| `Holes.WorstFitLongest` | pamiec/usr/src/mm/alloc.c:95-116 | Outside the swap-seed case worst fit picks the longest hole below the swap base, the lowest-addressed among equals, and fails only if no such hole is long enough. |
| `Holes.RegularIsPrefix` | pamiec/usr/src/mm/alloc.c:73 | In a sorted list the holes below the swap base are the leading ones, so stopping at the first swap hole misses none. |
| `Holes.CarveConserves` | pamiec/usr/src/mm/alloc.c:76-81 | Allocation takes exactly the requested number of clicks out of the free total. |
| `Holes.ReleaseConserves` | pamiec/usr/src/mm/alloc.c:207-222 | Freeing adds exactly the block's clicks to the free total; merging loses and invents none. |
| `Holes.TotalLenCounts` | pamiec/usr/src/mm/alloc.c:256-267 | In a sorted, coalesced list the sum of the lengths is the number of free clicks. |
| `Holes.Position` | pamiec/usr/src/mm/alloc.c:148-160 | The block is linked in behind all holes that start below it and before all others. |
| `Holes.SwapFit` | pamiec/usr/src/mm/alloc.c:426-429 | The swap hole taken is the first long enough one at or above the swap base; none is found only if there is none. |
| `HoleMaps.AsUnsigned` | pamiec/usr/src/mm/alloc.c:466-469 | The byte count as the unsigned value it is compared as: congruent to it modulo 2^32, the same if not negative, at least 2^31 if negative. |
| `HoleMaps.PairLimit` | pamiec/usr/src/mm/alloc.c:466-467 | For a buffer of a word or more, the largest number of pairs that leaves room for the end mark. |
| `HoleMaps.RoundTripIff` | pamiec/t.c:21-26 | Whatever follows in the buffer, the reader recovers exactly the encoded holes if and only if no hole is empty, because 0 is the end mark. |
| `HoleMaps.EncodingFitsIff` | pamiec/usr/src/mm/alloc.c:466-480 | The words written stay within the caller's buffer if and only if its size is not negative. |
| `HoleMaps.ReadMap` | pamiec/t.c:20-26 | The reading loop computes the decoding function, and runs off the buffer exactly when that has no result. |
| `HoleTables.EverySlotOnce` | pamiec/usr/src/mm/alloc.c:231-239 | Hole list and list of unused entries together contain every table slot exactly once. |
| `HoleTables.UnlinkShape` | pamiec/usr/src/mm/alloc.c:181-187 | The pointer writes of `del_slot` leave two acyclic disjoint lists sharing out all slots, with one hole less and the others untouched. |
| `HoleTables.LinkShape` | pamiec/usr/src/mm/alloc.c:138-164 | The pointer writes that link a filled slot in leave two acyclic disjoint lists sharing out all slots, with the block inserted at its place. |
| `HoleTables.ResizeShape` | pamiec/usr/src/mm/alloc.c:77-78 | Rewriting base and length of one listed slot changes one hole and neither list. |
| `HoleTables.SweepCorrectIff` | pamiec/usr/src/mm/alloc.c:319-324 | The sweep of `swap_off` leaves exactly the free clicks below the swap base, sorted and coalesced, if and only if the list is empty or starts with a regular hole. |
| `HoleTables.SweepBehindHead` | pamiec/usr/src/mm/alloc.c:319-324 | Started behind the head, the restarting sweep ends having removed exactly the swap holes behind the head. |
| `HoleTables.SweepResult` | pamiec/usr/src/mm/alloc.c:319-324 | The restarting sweep as a whole ends with the closed-form result, including the NIL pointer it follows when the only hole is a swap hole. |
| `HoleTables.HoleTable.constructor` | pamiec/usr/src/mm/alloc.c:246-250 | Set-up threads all slots into the unused list; there are no holes. |
| `HoleTables.HoleTable.AddChunks` | pamiec/usr/src/mm/alloc.c:256-274 | Start-up frees every reported chunk up to the first empty reply, adds up their sizes, passes the last total on, puts the swap base one click above the highest end, and panics exactly when a chunk finds the table full. |
| `HoleTables.HoleTable.DelSlot` | pamiec/usr/src/mm/alloc.c:171-188 | Exactly one hole leaves the list, its slot becomes the first unused one, and no hole is changed; also at the head. |
| `HoleTables.HoleTable.TryAbsorb` | pamiec/usr/src/mm/alloc.c:207-213 | One merge attempt swallows the successor if and only if the two touch. |
| `HoleTables.HoleTable.Merge` | pamiec/usr/src/mm/alloc.c:193-223 | The in-place merge computes the pure merge, with the second attempt one hole later after a failed first. |
| `HoleTables.HoleTable.Link` | pamiec/usr/src/mm/alloc.c:138-164 | The first unused slot, filled with the block, is linked in at the given place; all other holes keep place and value. |
| `HoleTables.HoleTable.Bite` | pamiec/usr/src/mm/alloc.c:76-84 | In place: the old base is returned and the list is the carved one, the slot being freed when nothing is left. |
| `HoleTables.HoleTable.FirstFitAttempt` | pamiec/usr/src/mm/alloc.c:72-89 | In place: grants and carves the hole that first fit chooses, else changes nothing. |
| `HoleTables.HoleTable.FindLargest` | pamiec/usr/src/mm/alloc.c:95-106 | The search ends at worst fit's champion and its true predecessor, seeded with the list head whatever its address. |
| `HoleTables.HoleTable.WorstFitAttempt` | pamiec/usr/src/mm/alloc.c:93-116 | In place: grants and carves the hole that worst fit chooses, else changes nothing. |
| `HoleTables.HoleTable.FindSwapHole` | pamiec/usr/src/mm/alloc.c:425-429 | The search ends at the first long enough swap hole and its predecessor, or finds none. |
| `HoleTables.HoleTable.SweepSwap` | pamiec/usr/src/mm/alloc.c:319-324 | In place: leaves what the sweep specification says, and fails exactly where a NIL pointer would be followed. |
| `HoleTables.HoleTable.FillBuffer` | pamiec/usr/src/mm/alloc.c:471-478 | The collecting loop writes length and base of the leading regular holes up to the limit, and never past its buffer for the whole table. |
| `HoleTables.HoleTable.HoleMap` | pamiec/usr/src/mm/alloc.c:456-482 | Result and words copied out: -1 and nothing below a word, else the number of reported holes and their encoding with the end mark. |
| `SwapModel.SwapOutShrinks` | pamiec/usr/src/mm/alloc.c:410-447 | Every successful `swap_out` leaves exactly one process fewer in memory, so the retry loop of `alloc_mem` ends. |
| `Tiling.TakeTiled` | pamiec/usr/src/mm/alloc.c:76-84 | A block handed out overlaps no live block and was wholly free; holes and live blocks go on partitioning the known clicks. |
| `Tiling.GiveTiled` | pamiec/usr/src/mm/alloc.c:137-165 | Giving a live block back keeps holes and live blocks a partition of the known clicks. |
| `Tiling.MoveTiled` | pamiec/usr/src/mm/alloc.c:430-443 | Carving a new block, giving the old one back and passing the new one to its owner keeps the partition. |
| `Tiling.Conservation` | pamiec/usr/src/mm/alloc.c:264-267 | Free clicks plus live clicks equal the known clicks. |
| `Tiling.HoleBound` | pamiec/usr/src/mm/alloc.c:207-222 | There are never more holes than live blocks, memory chunks and the swap area together. |
| `SwapWorld.NoStraddling` | pamiec/usr/src/mm/alloc.c:270-273 | No hole straddles, or reaches up to, the swap base. |
| `SwapWorld.RamWriteApart` | pamiec/usr/src/mm/alloc.c:387 | Reading a process into its new block changes no byte of any other block in memory. |
| `SwapWorld.FileWriteApart` | pamiec/usr/src/mm/alloc.c:435-437 | Writing a process to its swap space changes no byte of any other process's swap space. |
| `SwapWorld.EvictKeeps` | pamiec/usr/src/mm/alloc.c:421-446 | Swapping a process out keeps the partition, the table bookkeeping, and every block's bytes as its owner left them, the victim's now in the swap file. |
| `SwapWorld.ChainedOk` | pamiec/usr/src/mm/alloc.c:345-348 | Queueing never puts a process on the queue twice. |
| `SwapSafety.ScanIsRoundRobin` | pamiec/usr/src/mm/alloc.c:410-448 | The wrapping scan looks at every user slot once, starting behind the last victim; it takes the first evictable one in that order and finds nobody only if nobody is evictable. |
| `SwapSafety.AllocSetting` | pamiec/usr/src/mm/alloc.c:57-120 | Allocation changes nothing of the other processes but their place and ONSWAP, and only for processes that were candidates for swapping out. |
| `SwapSafety.EvictAvoidsSwapSeed` | pamiec/usr/src/mm/alloc.c:93-117 | Outside the swap-seed case at the call, swapping out during the retries never brings that case about. |
| `SwapSafety.LoadKeeps` | pamiec/usr/src/mm/alloc.c:379-390 | Swapping a process in keeps the partition and every block's bytes, its own now in memory again. |
| `SwapSafety.FirstFitIsSafe` | pamiec/usr/src/mm/alloc.c:365-375 | Under first fit a whole pass never meets the swap-seed case. |
| `SwapSafety.AllocEvictsIff` | pamiec/usr/src/mm/alloc.c:57-120 | A resident process leaves memory during an allocation if and only if at one of the attempts that fail it is the first evictable one in scan order; an allocation whose first attempt succeeds moves nobody. |
| `SwapSafety.ServeKeeps` | pamiec/usr/src/mm/alloc.c:365-393 | One turn of the queue loop, whichever branch it takes, keeps the partition and every owner's bytes. |
| `SwapSafety.SwapInKeeps` | pamiec/usr/src/mm/alloc.c:354-394 | A whole swap-in pass keeps the partition and every owner's bytes. |
| `SwapConservation.ClicksConserved` | pamiec/usr/src/mm/alloc.c:264-267 | In every reachable state free plus live clicks are the clicks of the chunks and the swap area. |
| `SwapConservation.SwapInTotal` | pamiec/usr/src/mm/alloc.c:364-393 | A whole pass leaves as many clicks free as it found. |
| `SwapConservation.SwapInKeepsLive` | pamiec/usr/src/mm/alloc.c:364-393 | A pass changes where live clicks are, not how many there are. |
| `SwapConservation.HeadRegularIff` | pamiec/usr/src/mm/alloc.c:319-320 | With nobody on swap, a swap hole stands at the head of the list if and only if there is a swap area and live blocks fill real memory. |
| `SwapConservation.SpareMemoryAtHead` | pamiec/usr/src/mm/alloc.c:95 | With fewer live clicks than real memory has, the list starts with a regular hole. |
| `SwapConservation.SparePassIsSafe` | pamiec/usr/src/mm/alloc.c:365-375 | With fewer live clicks than real memory has, a whole pass stays outside the swap-seed case under either policy. |
| `SwapRuns.StoreApart` | pamiec/usr/src/mm/alloc.c:148-165 | A store by one owner changes no byte of any other block, in memory or on swap. |
| `SwapRuns.SweptTiled` | pamiec/usr/src/mm/alloc.c:318-324 | With everybody in and a regular head hole, the sweep takes exactly the swap area out of the known clicks. |
| `SwapTheorems.InitialInv` | pamiec/usr/src/mm/alloc.c:246-274 | After start-up the hole list is exactly the reported memory. |
| `SwapTheorems.HistoryIndependent` | pamiec/usr/src/mm/alloc.c:148-165 | Two reachable states with the same free clicks have the same hole list. |
| `SwapTheorems.EvictNoPanic` | pamiec/usr/src/mm/alloc.c:430-443 | With the slots that `NoPanic` asks for, the extra block `swap_out` carves before it frees one does not fill the table. |
| `SwapTheorems.AllocNoPanic` | pamiec/usr/src/mm/alloc.c:138 | With the slots that `NoPanic` asks for, allocation never panics, however many processes it swaps out. |
| `SwapTheorems.ClosingCorrectIff` | pamiec/usr/src/mm/alloc.c:318-327 | Once everybody is in, closing removes exactly the swap clicks from the hole list if and only if the list does not start with a swap hole. |
| `SwapTheorems.NothingWraps` | pamiec/usr/src/mm/alloc.c:34-37 | While memory and swap area end inside the click range, no free or held click lies beyond it, and every hole that another one follows ends strictly inside; only the last hole or a block can end at the range itself, which a 32-bit click shows as 0. |
| `SwapTheorems.TouchTestIsExact` | pamiec/usr/src/mm/alloc.c:208-219 | The comparison in `merge`, made on 32-bit clicks, is right for such an end, too. |
| `SwapTheorems.SwapAreaFits` | pamiec/usr/src/mm/alloc.c:291-293 | The capped swap area ends inside the click range and is not larger than the file area given. |
| `SwapQueue.SwapInLeaves` | pamiec/usr/src/mm/alloc.c:364-393 | From any entry on, a pass keeps exactly the entries still flagged at its end, in order; it sets no flag and changes none off the queue. |
| `SwapQueue.ServedIsResident` | pamiec/usr/src/mm/alloc.c:378-391 | A process served is, when the pass goes on, in real memory with both segments mapped alongside and both flags cleared. |
| `SwapQueue.PassSpares` | pamiec/usr/src/mm/alloc.c:364-393 | The rest of a pass does not touch a process that is no candidate for swapping out. |
| `SwapQueue.ServeEvictsIff` | pamiec/usr/src/mm/alloc.c:364-393 | During a turn of the pass a resident process, served before or not, is swapped out if and only if the entry is flagged and the process's turn comes at one of the attempts that fail. |
| `SwapQueue.ServedMayLeaveAgain` | pamiec/usr/src/mm/alloc.c:364-393 | A concrete pass in which the first process served is swapped out again to make room for the second. |
| `SwapQueue.QueueingForgetsNobody` | pamiec/usr/src/mm/alloc.c:342-348 | If every flagged process is on the queue, queueing one that is flagged or not on it keeps that so, and appends. |
| `SwapQueue.StaleEntryLosesOthers` | pamiec/usr/src/mm/alloc.c:342-348 | With process 3 still linked but unflagged and process 5 flagged behind it, queueing 3 takes 5 off the queue. |
| `SwapQueue.PassForgetsNobody` | pamiec/usr/src/mm/alloc.c:364-393 | After a pass every flagged process is still on the queue. |
| `SwapExamples.FreeingCanPanic` | pamiec/usr/src/mm/alloc.c:125-136 | A run from start-up, all calls in order, after which giving back what was just allocated panics on the full table, although the merged list would fit it. |
| `SwapFairness.SwapOffFails` | pamiec/usr/src/mm/alloc.c:299-316 | While there is such a process, `swap_off` never gets everybody in. |
| `SwapTraces.ThrashingIsReached` | pamiec/usr/src/mm/alloc.c:364-393 | A run from start-up, all calls in order, leads to the state in which one pass swaps its first process out again. |
| `StartUp.MemInit` | pamiec/usr/src/mm/alloc.c:231-275 | In place: the table set up and told of the chunks, with the released list, the swap base and the totals, or the panic. |
| `StartUp.SwapBaseIsTight` | pamiec/usr/src/mm/alloc.c:268-273 | After start-up the swap base lies exactly one click above the highest end of any chunk. |
| `SwapPolicy.NobodyLeavesNeedlessly` | pamiec/usr/src/mm/alloc.c:70-118 | While a hole below the swap base is long enough, memory is granted and nothing but the hole list changes. |
| `SwapPolicy.RunObeysPolicy` | pamiec/usr/src/mm/alloc.c:487-494 | After any run memory is granted by the policy that the last accepted `do_worst_fit` of the run has set. |
| `SwapVictims.VictimGoes` | pamiec/usr/src/mm/alloc.c:420-446 | The victim of a successful `swap_out` may leave, is mapped as a whole into the lowest swap hole that takes it, and is where the next scan starts; no other entry changes. |
| `SwapOrder.HeadComesInIff` | pamiec/usr/src/mm/alloc.c:364-392 | The head of the queue is served first: if it must not be swapped out again, it is in memory after the pass if and only if memory could be found for it at the call. |
| `SwapOffSuccess.AllComeIn` | pamiec/usr/src/mm/alloc.c:364-393 | With a free stretch of memory for all flagged entries together, a pass brings every one of them in and sends nobody out. |
| `SwapFile.ImageInFile` | pamiec/usr/src/mm/alloc.c:435-437 | In such a run byte k of a process on swap stands at the offset given, plus the bytes of the clicks between the swap base and its address, plus k. |
| `MemoryManagers.UnlinkQueued` | pamiec/usr/src/mm/alloc.c:372 | Storing the successor through the pointer-to-pointer takes exactly that entry out of the linked queue, also at its head. |
| `MemoryManagers.ChainQueued` | pamiec/usr/src/mm/alloc.c:345-347 | Hooking a process behind the last entry gives the specified queue, also when it was still linked further ahead. |
| `MemoryManagers.MemoryManager.constructor` | pamiec/usr/src/mm/alloc.c:39-48 | The initial globals: swapping off, empty queue, scan at the first user slot, first fit. |
| `MemoryManagers.MemoryManager.FreeMem` | pamiec/usr/src/mm/alloc.c:125-166 | In place: the state's `free_mem`, or its panic. |
| `MemoryManagers.MemoryManager.FindVictim` | pamiec/usr/src/mm/alloc.c:410-429 | The scan loop ends at the specified victim with the swap hole for it, or finds nobody. |
| `MemoryManagers.MemoryManager.SwapOut` | pamiec/usr/src/mm/alloc.c:399-451 | In place: the specified outcome and whole new state, nothing changed when nobody is found. |
| `MemoryManagers.MemoryManager.Attempt` | pamiec/usr/src/mm/alloc.c:70-118 | In place: one attempt of the policy in force. |
| `MemoryManagers.MemoryManager.DoWorstFit` | pamiec/usr/src/mm/alloc.c:487-494 | In place: only 0 and 1 change the policy, and nothing else changes. |
| `MemoryManagers.MemoryManager.SwapInQueue` | pamiec/usr/src/mm/alloc.c:333-349 | In place: the specified queue and flag, by walking the links. |
| `MemoryManagers.MemoryManager.Serve` | pamiec/usr/src/mm/alloc.c:365-393 | In place: one turn of the loop, with the pointer-to-pointer at the right entry afterwards. |
| `MemoryManagers.MemoryManager.SwapOn` | pamiec/usr/src/mm/alloc.c:280-294 | In place: the specified state and return value for an open, a failed and a repeated call; a successful call returns no value. |
| `PriorityBuffers.GroupedIff` | monitory/chat.cpp:32-42 | The list is a block of priority messages followed by a block of normal ones if and only if no priority message stands behind a normal one. |
| `PriorityBuffers.InsertRefinesQueues` | monitory/chat.cpp:32-42 | On such a list, sending appends to the queue of the message's class, leaves the other queue alone and keeps the two blocks. |
| `PriorityBuffers.TakeRefinesQueues` | monitory/chat.cpp:60-61 | Reading takes the oldest priority message, or the oldest normal one if there is none, and keeps the two blocks. |
| `PriorityBuffers.CountingNeedsGrouping` | monitory/chat.cpp:71-92 | On a list without the two blocks, finding the place by counting inserts a priority message behind a normal one. |
| `PriorityBuffers.MessageList.GetSize` | monitory/chat.cpp:117-123 | The counting walk returns the length. |
| `PriorityBuffers.MessageList.FindNextPri` | monitory/chat.cpp:71-92 | The iterator returned stands on element number (priority messages - 1), in front of the list if there is none. |
| `PriorityBuffers.MessageList.Send` | monitory/chat.cpp:32-42 | In place: the list with the message inserted at its class's place. |
| `PriorityBuffers.MessageList.Read` | monitory/chat.cpp:60-61 | In place: the first message is returned and removed. |
| `MonitorProtocol.OwnerAlone` | monitory/monitor.h:111-132 | While one thread owns the monitor, all three semaphores are down and nobody else owns it. |
| `MonitorProtocol.StepKeeps` | monitory/chat.cpp:25-69 | Every step of every thread keeps token, waiting counts, what the owner relies on, and the books over messages. |
| `MonitorTheorems.BufferBounds` | monitory/chat.cpp:25-69 | In every reachable state the size is at most CAPACITY and no read is about to pop an empty list. |
| `MonitorTheorems.RunsEnd` | monitory/chat.cpp:25-69 | Every run has at most eight steps for every message to be sent or read. |
| `MonitorObjects.Condition.Signal` | monitory/monitor.h:88-98 | A counted waiter is uncounted and posted to; without one nothing changes and false is returned. |
| `MonitorObjects.Buffer.constructor` | monitory/chat.cpp:23 | A new buffer is an initial state of the transition system. |
| `MonitorObjects.Buffer.Advance` | monitory/chat.cpp:25-69 | The next atomic piece of one thread's call is exactly one step of the transition system, and it does not move exactly when that thread is stuck. |
| `MonitorProvenance.SendersKeepTheirPlan` | monitory/chat.cpp:25-49 | Over every run the messages a sender has put, in order, followed by those it still has to put, are exactly the messages it set out to send. |
| `MonitorProvenance.FinishedSentAll` | monitory/chat.cpp:25-49 | When all threads have finished, the messages sent are those the senders set out to send, each as often as planned. |
| `MonitorTheorems.PriorityOneIsReadFirst` | monitory/chat.cpp:32-61 | In every reachable state no message of priority 1 stands behind one of another priority. |
| `RingDeques.PriorityOneIsReadNext` | semafory/czacik.c:71-96 | A message of priority 1 just sent is read next; one of another priority stands last and does not change what is read next. |
| `RingDeques.SendDeque` | semafory/czacik.c:71-85 | Into a ring with a free place, a priority message goes in front and a normal one at the back; head, tail and size stay consistent. |
| `RingDeques.ReadDeque` | semafory/czacik.c:87-96 | From a ring that is not empty, the first message is taken and the rest stays in order. |
| `RingDeques.SendRefinesDesk` | semafory/czacik.c:71-85 | Sending refines pushing on a stack of priority messages, or appending to the queue of normal ones below it. |
| `RingDeques.ReadRefinesDesk` | semafory/czacik.c:87-96 | Reading refines popping that stack, or taking from the queue when the stack is empty. |
| `RingDeques.Queue.constructor` | semafory/czacik.c:52-57 | An initialised ring is valid and empty. |
| `RingDeques.Queue.Send` | semafory/czacik.c:71-85 | In place: the specified table, head, tail and size for any ring, full ones included; with a free place, the message joins in front or at the back. |
| `RingDeques.Queue.Read` | semafory/czacik.c:87-96 | In place: the specified message, head and size for any ring; from one that is not empty, the first message. |
| `RingProtocol.NoOverrun` | semafory/czacik.c:142-214 | No user the semaphores have admitted sends into a full ring or reads from an empty one. |
| `RingProtocol.StepKeeps` | semafory/czacik.c:138-221 | Every step of every user keeps semaphore accounting, ring consistency and the books over messages. |
| `RingTheorems.MutualExclusion` | semafory/czacik.c:142-214 | In every reachable state at most one user is between its down and its up of `mutex`. |
| `RingTheorems.RunsEnd` | semafory/czacik.c:138-221 | Every run has at most five steps for every message to be sent or read. |
| `RingTheorems.Shared.constructor` | semafory/czacik.c:230-235 | The shared ring and its semaphores start as an initial state of the transition system. |
| `RingTheorems.Shared.Advance` | semafory/czacik.c:138-221 | The next operation of one user's loop is exactly one step of the transition system, and it does not move exactly when that user is stuck. |
| `Scheduler.TurnTakesCost` | szeregowanie/zmiany_proc.c:15-35 | The head keeps its place for exactly 1 call on its first turn and exactly `p_ticks` calls otherwise, then goes to the tail, refilled unless it was its first turn. |
| `Scheduler.SchedValid` | szeregowanie/zmiany_proc.c:15-35 | The ready queue stays a permutation of the same processes, none twice. |
| `SchedulerTheorems.TickBringsCloser` | szeregowanie/zmiany_proc.c:13-36 | One call of `sched` brings every waiting process closer to the head by exactly one call. |
| `SchedulerTheorems.OthersDoNotDelay` | szeregowanie/zmiany_proc.c:46-74 | Forks, arrivals, group changes and new proportions do not change how long a queued process still has to wait. |
| `SchedulerTheorems.OpKeeps` | szeregowanie/zmiany_proc.c:7-74 | Every operation keeps the queue sound and all budgets positive. |
| `SchedulerTheorems.WholeRound` | szeregowanie/zmiany_proc.c:15-35 | A whole round takes the sum of all budgets and charges every process exactly its own. |
| `SchedulerTheorems.SpawnedMayJoin` | szeregowanie/zmiany_system.c:56-66 | A child just forked meets what joining the queue asks, and then waits for exactly what all processes queued before it have left. |
| `SchedulerShares.ChangeGroupChangesShare` | szeregowanie/zmiany_proc.c:61-74 | Two rounds after `change_group` the process is refilled with the time of the other group. |
| `SchedulerShares.ChildShareByPid` | szeregowanie/zmiany_system.c:56-66 | A child with an even pid starts with, and goes on being refilled with, the time of group A, any other that of group B. |
| `SchedulerShares.FirstTurnLeavesBudget` | szeregowanie/zmiany_proc.c:15-33 | A first turn is one call long and leaves the budget for the second round; any other process gets what it has left and then the time of its group. |
| `SchedulerStarvation.ProportionCanStarve` | szeregowanie/zmiany_proc.c:46-59 | Two processes, one of each group: after a proportion of 0 the first is head at every call from the second on. |
| `ReadyQueues.RotateLinked` | szeregowanie/zmiany_proc.c:19-22 | The four assignments turn the linked queue into the rotated one, acyclic and with the right head and tail, also when it has one element. |
| `ReadyQueues.Processes.SetShare` | szeregowanie/zmiany_proc.c:46-59 | In place: only a group A process changes the two times, the other gets -1. |
| `ReadyQueues.Processes.SwitchGroup` | szeregowanie/zmiany_proc.c:61-74 | In place: the group is flipped and the budget kept. |
| `ReadyQueues.Processes.InitChild` | szeregowanie/zmiany_system.c:56-66 | In place: group by pid parity, that group's budget, first turn ahead, over the copy of the parent's entry. |

## Left out

- Kernel and file system calls made by `alloc.c` (`sendrec`, `sys_newmap`, `lseek`, `open`, `close`, `tell_fs`, `sys_copy`, `check_pending`), beyond the parameters named above.
- The unspecified contents of pointers that are not looked at: the predecessor of the list head is -1 in the model where the code leaves it unset.
- The code's division into functions: parts of `free_mem`, `merge`, `alloc_mem`, `swap_out`, `swap_in` and `swap_off` are methods of their own (`Link`, `FindPlace`, `TryAbsorb`, `Bite`, `WriteOut`, `Serve` and others), and independent assignments may stand in another order.
- HeadGivesWayIff: budgets are unbounded integers; a C `int` counted down for long enough would wrap around.
- The value of `errno` that a failed `swap_on` returns, and what a caller of a successful one finds in place of a value.
- Under worst fit with real memory wholly taken by live blocks, whether a pass meets the swap-seed case stays a premise on that pass (`SwapInSafe`), stated call by call.
- SwapOffSucceeds: the condition is sufficient only; when no hole takes all processes on swap together, whether everybody gets in depends on the order of the queue and on how free memory is split up.
- A semaphore operation that has to wait: the objects offer the operation at the moment it succeeds, and waiting is the transition systems' stuck state.
- `pick_proc`, `ready`, `unready` and the declaration of PROC_TIME are not part of this model: the queue head is the running process, processes join the queue at its tail and do not leave it.
- The getters and forwarding functions of `zmiany_proc.c` and `zmiany_system.c`, and the other fields `do_fork` sets.
- Printing, message texts, argument parsing, creation of threads and processes, and the size read for display after `up(emptyId)`.
- The Windows branches of `monitor.h`, and failures of `sem_init`, `sem_wait`, `sem_post` and `semop`.
- `system_plikow`, `semafory/chat.c`, `semafory/chatting.c` and `monitory/listy.cpp`: unfinished code, variants of what is modelled, or file input and output around a layout.
- System call numbers, tables, headers and the programs that only make one call: constant tables and forwarding.
