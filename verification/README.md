# Verification of the OpenKernel core

This project models the parts of the kernel that everything else rests on, and proves
what they promise.

* **Scheduler, wait tables and process table** (`kernel-core/src/threads.rs`, and the sleep,
  futex and timer functions of `kernel-core/src/arch.rs`). `ThreadTable` gives every system
  call as a function on one state value; each call is one atomic stretch of kernel code,
  because system calls run with interrupts off and control changes hands only in
  `schedule_from_current`. `Scheduler.Kernel` is the same state in arrays, a ring buffer and a
  few words, changed in place; each of its methods is proved to do what the function says.
  The number of threads is a parameter. A join that blocks leaves a note in `pending` of what
  its caller still has to do, because `join` goes on after `block_current` returns.
* **Frames, page tables and address spaces** (`memory.rs`, `paging.rs`). Memory is one array of
  frames; tables and data are both just frames. A `Place` names a table or a page by the way
  to it from a root, or from the window: the level-3 table that all roots share through PML4
  entry 510. Separation says that no frame is found at two places; everything about mapping,
  unmapping, tearing down and frame accounting follows from it.
* **Answers and slots** (`CallAnswers`, `ThreadSlots`, `WakeOrder`): what each system call of the
  scheduler answers, said in terms of processes and threads rather than of the code; how long an
  ended thread's status waits, and when its slot is free again; who runs first of those woken
  together.
* **ELF loader** (`elf.rs`) and **initial stack** (`user.rs`, `openkernel-rt`), on top of the
  above, stated in terms of the bytes user code finds at user addresses. Every store of the
  kernel to a user address goes through the active page tables. `ProgramStart` is the memory
  side of `spawn`: load, switch, write stack and control block, switch back.
* **Scheduler and paging together** (`KernelRuns`): a system call makes the paging calls that
  follow from it, a spawn creates the address space it uses, and both sides stay in agreement.
* **Service order** of init (`init/src/main.rs`), for any service table.

`SchedulerInvariant.Allowed` lists what callers of the scheduler must respect. Each rule that the
code does not enforce is shown to be needed, by an equivalence (the call keeps the invariant if
and only if the rule holds) and a run from boot that breaks it:

| rule | equivalence | run |
|---|---|---|
| a spawn finds a clean slot, one that no queue, wait table or live join list still mentions | `ProcessRuns.SpawnKeepsExactlyWhenClean` | `SchedulerWitnesses.TerminatedSlotIsQueuedTwice` |
| `terminate_process` is used on childless processes | `ProcessRuns.TerminateKeepsExactlyWhenChildless` | `ReachableWitnesses.TerminatedParentIsReached` |
| a child has at most one collector | `ProcessRuns.CollectKeepsExactlyWhenUnwaited` | `ReachableWitnesses.CollectedTwiceIsReached` |
| main threads are collected through the process calls, not joined | `ProcessRuns.JoinKeepsExactlyWhenNobodysMain` | `ReachableWitnesses.JoinedMainThreadIsReached` |

The first rule holds by itself in runs without `terminate_process`
(`ProcessRuns.RunWithoutTerminate`). The last thing `Allowed` asks, that a new process gets a
fresh address space, follows from what creating one does (`KernelRuns.NewSpaceIsFresh`).
`PagingRuns.Permitted` says what the paging calls ask of their callers, and
`KernelRuns.StepIsPermitted` that the scheduler respects it.

Where the code and its comments differ, the model follows the code:

* The comment in `initialize_process_stack` says that the stack pointer is 8 modulo 16 on entry.
  It is 8 times the argument count modulo 16, so the comment holds exactly for odd counts
  (`InitialStack.FinalAlignment`).
* `sleep` rounds up to ticks with a saturating addition, which is exact exactly up to
  2^64 - 6 milliseconds (`TimerRuns.SleepTicksAreExact`).
* `spawn_user` puts the new thread into PID 1 whoever calls it (`Scheduler.Kernel.CreateThread`).
* Services whose dependencies are missing or cyclic are started in table order. Shutting down in
  the reverse order stops such a service before another that depends on it, if the table names
  it later (`StartOrder.Shutdown`, `StartOrder.StoppedUnderItsUser`).
* A joiner that is terminated while it waits stays counted, so the slot of the thread it joined is
  never given away again (`ReachableWitnesses.TerminatedJoinerKeepsSlot`); nothing else keeps a
  slot (`ThreadSlots.ReturnFreesExactlyWhenCounted`, `ThreadSlots.LastJoinerFreesSlot`).
* When an image cannot be loaded, `spawn` leaves the new process record behind
  (`Scheduler.Kernel.SpawnProcess`), and a page that cannot be mapped stays handed out
  (`UserPages.NewUserPage`).

Page-table words and addresses are numbers below 2^64; shifts and masks are written as quotients
and remainders. `Bits` defines shift, conjunction and union bit by bit and proves the two forms
equal; the lemmas at the end of `PageWords`, and `ElfLoader.BlockSizeIsMasked`, apply that to
entries, addresses and TLS sizes.

## Model

| member | source | states |
|---|---|---|
| RunQueue.Ring.Enqueue | kernel-core/src/threads.rs:796-803 | the thread joins the end of the queue, or a full queue stays as it is |
| RunQueue.Ring.Dequeue | kernel-core/src/threads.rs:806-814 | takes the thread queued first; `None` exactly for the empty queue |
| Scheduler.Kernel.constructor | kernel-core/src/threads.rs:134-145 | the empty tables at boot represent the initial state |
| Scheduler.Kernel.NextReady | kernel-core/src/threads.rs:747-754 | dequeues up to the first thread that has not exited and ends |
| Scheduler.Kernel.ScheduleFromCurrent | kernel-core/src/threads.rs:774-794 | dispatches the next ready thread, idle if there is none, and enters its process's address space |
| Scheduler.Kernel.Start | kernel-core/src/threads.rs:392-398 | idle is queued and the first ready thread dispatched in its own address space |
| Scheduler.Kernel.YieldNow | kernel-core/src/threads.rs:400-412 | requeues the caller, unless it is idle, and dispatches |
| Scheduler.Kernel.BlockCurrent | kernel-core/src/threads.rs:414-423 | blocks the caller and dispatches; idle never blocks |
| Scheduler.Kernel.Wake | kernel-core/src/threads.rs:425-438 | readies and queues a blocked thread, and reports whether it was one |
| Scheduler.Kernel.ExitCurrentWithStatus | kernel-core/src/threads.rs:444-466 | records the status, wakes the joiners in list order, reparents the children and dispatches |
| Scheduler.Kernel.ReparentChildren | kernel-core/src/threads.rs:472-487 | children of the process whose main thread exited become PID 1's, and no other record changes |
| Scheduler.Kernel.JoinAs | kernel-core/src/threads.rs:512-530 | answers for an exited thread, or registers the caller and blocks it; refuses itself, unknown threads and a full list |
| Scheduler.Kernel.JoinTail | kernel-core/src/threads.rs:531-543 | after the wake-up the joiner reads the status and leaves; the last one makes the slot reusable |
| Scheduler.Kernel.TryJoin | kernel-core/src/threads.rs:548-563 | the status of an exited thread, never blocking |
| Scheduler.Kernel.ChildOfCurrent | kernel-core/src/threads.rs:270-276 | main thread of the first record with this id whose parent is the calling process |
| Scheduler.Kernel.Collect | kernel-core/src/threads.rs:279-284 | clears the record and names the address space that was its own |
| Scheduler.Kernel.WaitProcess | kernel-core/src/threads.rs:269-287 | changes the state and answers as `ThreadTable.WaitProcess`: joins the child's main thread and, if it had ended already, collects the child (see `CallAnswers.WaitAnswers`) |
| Scheduler.Kernel.TryWaitProcess | kernel-core/src/threads.rs:291-307 | collects an exited child, destroying its address space exactly when it answers with a status |
| Scheduler.Kernel.ReapAnyChild | kernel-core/src/threads.rs:493-510 | changes the state and answers as `ThreadTable.ReapAnyChild`: collects the first exited child in table order (see `CallAnswers.ReapAnyAnswers`) |
| Scheduler.Kernel.Resume | kernel-core/src/threads.rs:531-545 | the rest of a suspended join, and of the `wait_process` around it |
| Scheduler.Kernel.TerminateProcess | kernel-core/src/threads.rs:572-601 | ends the child's main thread with the terminated status and wakes its joiners |
| Scheduler.Kernel.CreateProcess | kernel-core/src/threads.rs:245-259 | fills the first free record after PID 1's, the caller's process as parent |
| Scheduler.Kernel.SetProcessMainThread | kernel-core/src/threads.rs:261-267 | names the main thread in the first record with this id |
| Scheduler.Kernel.SpawnUserForProcess | kernel-core/src/threads.rs:332-390 | reuses the first exited, reapable slot after idle's and queues the new thread |
| Scheduler.Kernel.CreateThread | kernel-core/src/threads.rs:318-329 | once the checks of the addresses have passed, creating a thread adds it to PID 1 |
| Scheduler.Kernel.SpawnProcess | kernel-core/src/user.rs:243-283 | changes the state and answers as `ThreadTable.SpawnProcess`: record, thread and main-thread link of a new process, for each outcome of creating and loading (see `CallAnswers.SpawnAnswers`) |
| Scheduler.Kernel.Sleep | kernel-core/src/arch.rs:556-575 | registers the caller in the first free sleeper entry and blocks it |
| Scheduler.Kernel.FutexWait | kernel-core/src/arch.rs:619-654 | compares, registers and blocks in one step; answers 1 when the word differs |
| Scheduler.Kernel.FutexWake | kernel-core/src/arch.rs:656-675 | scans the table in order, removing matching entries while fewer than `count` threads were woken |
| Scheduler.Kernel.WakeExpiredSleepers | kernel-core/src/arch.rs:931-943 | removes every due sleeper and wakes its thread |
| Scheduler.Kernel.WakeExpiredFutexes | kernel-core/src/arch.rs:945-957 | removes every futex waiter whose timeout is due and wakes its thread |
| Scheduler.Kernel.TimerInterrupt | kernel-core/src/arch.rs:965-973 | advances the counter with wrap-around, then expires sleepers and futex waiters |
| SchedulerShape.NextShape | kernel-core/src/threads.rs:132-145 | whatever callers do, every stored index stays inside the table it indexes |
| LifecycleSteps.StepKeeps | kernel-core/src/threads.rs:400-601 | every allowed call keeps the scheduler invariant: queue, registrations, joins, process tree, active address space |
| SchedulerRuns.BootInv | kernel-core/src/threads.rs:392-398 | the invariant holds once the first thread runs |
| SchedulerRuns.QueueHasRoom | kernel-core/src/threads.rs:796-803 | the silent drop of a full run queue is never taken |
| SchedulerRuns.RunningIsCurrent | kernel-core/src/threads.rs:400-438 | in every reachable state a non-idle running thread is the current one, running and blocked threads are not queued, and ready ones are queued exactly once |
| SchedulerRuns.DispatchedWasAlive | kernel-core/src/threads.rs:747-794 | no exited thread is dispatched |
| SchedulerRuns.Advance | kernel-core/src/threads.rs:747-814 | every step leaves a waiting thread's place or moves it forward, by at least one for each dispatch |
| SchedulerRuns.BoundedWaiting | kernel-core/src/threads.rs:747-814 | a ready thread at position k runs within k + 1 dispatches unless it is terminated first, whatever else happens |
| SchedulerRuns.WaitedForStep | kernel-core/src/threads.rs:343-347 | while anyone is suspended in a join on a thread, its slot is not reused and its status does not change |
| SchedulerRuns.JoinReturnsExitStatus | kernel-core/src/threads.rs:512-545 | every joiner resumes with exactly the status its target ended with, for any number of joiners and any interleaving |
| SchedulerRuns.BlockedIsRegisteredOnce | kernel-core/src/threads.rs:414-423 | in every reachable state a blocked thread is registered in exactly one place among sleepers, futex waiters and live join lists |
| SchedulerRuns.RegistrationsAreUnique | kernel-core/src/arch.rs:566-572 | in every reachable state no thread is registered in two places, and every registered thread is blocked or has exited |
| SchedulerRuns.WaitTablesNeverFill | kernel-core/src/arch.rs:565-575 | with tables as large as the thread table, the "table full" answers of sleep and futex wait are unreachable |
| ProcessRuns.RunWithoutTerminate | kernel-core/src/threads.rs:343-347 | in runs without `terminate_process`, in which spawns may choose any slot, every spawn is clean, so the run keeps the invariant, and every queue entry is ready |
| ProcessRuns.BootHasNoLeftovers | kernel-core/src/threads.rs:134-145 | the state at boot starts such a run |
| ProcessRuns.SpawnKeepsExactlyWhenClean | kernel-core/src/threads.rs:343-386 | creating a thread keeps the invariant if and only if the chosen slot is mentioned nowhere |
| ProcessRuns.TerminateKeepsExactlyWhenChildless | kernel-core/src/threads.rs:572-601 | ending a child keeps the invariant if and only if the child has no children |
| ProcessRuns.CollectKeepsExactlyWhenUnwaited | kernel-core/src/threads.rs:291-307 | collecting a child keeps the invariant if and only if no other thread is suspended in collecting it |
| ProcessRuns.JoinKeepsExactlyWhenNobodysMain | kernel-core/src/threads.rs:512-545 | joining another thread keeps the invariant if and only if it is no process's main thread, or has exited with another joiner still to resume |
| SchedulerWitnesses.TerminatedSlotIsQueuedTwice | kernel-core/src/threads.rs:588-599 | a run of spawn, terminate and collect after which creating a thread queues one slot twice |
| ReachableWitnesses.TerminatedParentIsReached | kernel-core/src/threads.rs:572-601 | a run from boot in which PID 1 terminates a process with a child, and the invariant fails |
| ReachableWitnesses.CollectedTwiceIsReached | kernel-core/src/threads.rs:269-307 | a run from boot in which one thread polls a child that another has waited for, and the invariant fails |
| ReachableWitnesses.JoinedMainThreadIsReached | kernel-core/src/threads.rs:512-545 | a run from boot in which PID 1 joins an exited process's main thread, creates a thread in the slot, and can no longer collect the process |
| ProcessRuns.EveryProcessDescendsFromInit | kernel-core/src/threads.rs:472-487 | the parent links of every record lead to PID 1 |
| ProcessRuns.ParentChainsAreAcyclic | kernel-core/src/threads.rs:472-487 | no chain of parent links meets a process twice |
| ProcessRuns.RecordsAreDistinct | kernel-core/src/threads.rs:245-267 | live processes share neither main thread nor address space, and no parent is an exited process |
| ProcessRuns.ZombieHasLiveParent | kernel-core/src/threads.rs:468-471 | an exited, uncollected process has a parent with a record: PID 1, or a process whose main thread has not exited; nobody else has its main thread |
| ProcessRuns.ZombieIsCollected | kernel-core/src/threads.rs:291-307 | a parent that polls an exited child gets the child's own status, and the record is gone |
| ProcessRuns.ZombieStays | kernel-core/src/threads.rs:489-510 | an exited process keeps its record and status until it is collected |
| ProcessRuns.CollectedWasZombie | kernel-core/src/threads.rs:269-307 | only exited processes are collected, with their own status, and the address space destroyed is neither active nor that of any thread that has not exited |
| ProcessRuns.ActiveSpaceIsOwn | kernel-core/src/threads.rs:774-793 | whenever a user thread runs, the active address space is that of its process |
| CallAnswers.WaitAnswers | kernel-core/src/threads.rs:269-287 | `wait_process` answers at once `None` exactly when the caller has no such child with a main thread, and a zombie's own status exactly for a zombie, whose record alone is cleared; otherwise it blocks the caller |
| CallAnswers.WaitCollectsChild | kernel-core/src/threads.rs:269-287 | whatever runs while a caller waits for a living child, its call answers the status the child ended with and clears the child's record, and no other |
| CallAnswers.TryWaitAnswers | kernel-core/src/threads.rs:291-307 | `try_wait_process` answers exactly for a zombie child of the caller, with its status, and clears its record alone; otherwise nothing changes |
| CallAnswers.ReapAnyAnswers | kernel-core/src/threads.rs:489-510 | `reap_any_child` answers `None` exactly when no child of the caller has ended, and otherwise the number and the status of the lowest-numbered one, whose record alone is cleared |
| CallAnswers.TerminateAnswers | kernel-core/src/threads.rs:572-601 | `terminate_process` answers true exactly for a child of the caller with a main thread, which is a zombie afterwards, with the terminated status unless it had ended before |
| CallAnswers.JoinAnswers | kernel-core/src/threads.rs:512-530 | `join` answers `None` at once exactly for the caller itself and for unknown threads, and the status of an exited thread; it blocks the caller for any other |
| CallAnswers.ThreadCreateAnswers | kernel-core/src/threads.rs:318-390 | creating a thread fails, changing nothing, exactly when a check or a stack fails or no slot is free; otherwise it answers the lowest free slot, which holds a ready thread of PID 1, and no other thread changes |
| CallAnswers.SpawnAnswers | kernel-core/src/user.rs:243-284 | `spawn` answers the number of a new process, the lowest free one from 2 on, with the given space, the caller's process as parent and a ready thread in the lowest free slot as main thread; it fails exactly when no record or slot is free, loading fails or a stack fails; no other record or thread changes |
| CallAnswers.FailedSpawnLeavesRecord | kernel-core/src/user.rs:253-283 | a spawn that fails after its record was made leaves that record, without a main thread, and nothing else |
| CallAnswers.SleepAnswers | kernel-core/src/arch.rs:556-575 | `sleep` answers the error exactly when the table is full and time is asked for, changing nothing; 0 otherwise, with the caller blocked unless no time was asked for |
| CallAnswers.FutexWaitAnswers | kernel-core/src/arch.rs:619-654 | `futex_wait` answers the error for a bad address and a full table, 1 for a changed word, changing nothing, and 0 after blocking the caller otherwise |
| CallAnswers.FutexWakeRefuses | kernel-core/src/arch.rs:656-660 | `futex_wake` of a bad address answers the error and does nothing |
| ThreadSlots.StepTouches | kernel-core/src/threads.rs:332-601 | every step touches at most one slot of the thread table, and an ended thread's only to tell its status or to reuse it |
| ThreadSlots.ExitLeaves | kernel-core/src/threads.rs:444-487 | an exiting thread leaves its status in a slot that is not reusable, and exactly the children of its process, if it was the main thread, become PID 1's |
| ThreadSlots.StatusWaits | kernel-core/src/threads.rs:343-347 | over any run an ended thread keeps slot and status until somebody is told |
| ThreadSlots.LateJoinIsTold | kernel-core/src/threads.rs:512-523 | however late, the first to join an exited thread is told the status it exited with |
| ThreadSlots.CountsStayExact | kernel-core/src/threads.rs:524-545 | over runs without `terminate_process` every thread's waiter count is the number of suspended joins on it |
| ThreadSlots.LastJoinerFreesSlot | kernel-core/src/threads.rs:531-543 | in every state reached from boot without `terminate_process`, a returning joiner frees the slot if and only if no other join on it is suspended |
| ThreadSlots.ReturnFreesExactlyWhenCounted | kernel-core/src/threads.rs:531-543 | in any state, a return from a join frees the slot when nobody else is suspended in one, and only then, if and only if the returning joiner is the only one counted or another is suspended |
| ReachableWitnesses.TerminatedJoinerKeepsSlot | kernel-core/src/threads.rs:524-543 | a run from boot in which a suspended joiner is terminated and the slot of the thread it joined stays taken after its status has been read |
| ThreadSlots.JoinFreesSlot | kernel-core/src/threads.rs:518-523 | a join on an exited thread frees the slot if and only if no join on it is suspended |
| ThreadSlots.CollectingFreesSlot | kernel-core/src/threads.rs:548-563 | collecting a child frees its main thread's slot if and only if no join on it is suspended |
| WakeOrder.ExitWakesInOrder | kernel-core/src/threads.rs:444-466 | joiners of an exiting thread are queued in the order they came, behind everybody, and the first of that queue that has not ended runs |
| WakeOrder.TerminateWakesInOrder | kernel-core/src/threads.rs:588-599 | joiners of a terminated child are queued in the order they came, behind everybody |
| WakeOrder.FutexWakeInOrder | kernel-core/src/arch.rs:656-675 | woken futex waiters are queued in table order, behind everybody |
| WakeOrder.TickWakesInOrder | kernel-core/src/arch.rs:931-973 | a tick queues the blocked threads of the due sleepers in table order, then those of the due futex waiters, behind everybody |
| TimerRuns.DueExactlyAtZero | kernel-core/src/arch.rs:937-940 | the wrapping comparison is true exactly at the deadline while less than 2^63 ticks are pending |
| TimerRuns.NewDeadlineIsArmed | kernel-core/src/arch.rs:563-564 | a deadline set across the counter's wrap is exactly that many ticks away |
| TimerRuns.SleepTicksAreExact | kernel-core/src/arch.rs:563-564 | the tick count is milliseconds / 10 rounded up, if and only if at most 2^64 - 6 are asked for |
| TimerRuns.ReachableIsArmed | kernel-core/src/arch.rs:931-957 | in every reachable state every pending deadline is more than 0 and less than 2^63 ticks away |
| TimerRuns.TickIs | kernel-core/src/arch.rs:931-973 | a tick removes exactly the entries whose deadline it reaches |
| TimerRuns.SleepWakesOnTime | kernel-core/src/arch.rs:556-575 | a sleeper stays asleep through every earlier tick and is readied by exactly the tick it asked for |
| TimerRuns.WaitsUntilTimeout | kernel-core/src/arch.rs:639-654 | in every run, until its timeout, without one for ever, a futex waiter stays registered and blocked, or a wake of its address has readied it or found it terminated |
| TimerRuns.WaiterTimesOut | kernel-core/src/arch.rs:945-957 | the tick that reaches a waiter's timeout readies it |
| TimerRuns.WaitTimesOutOnTime | kernel-core/src/arch.rs:639-654 | in every run in which no wake of its address came first, a futex wait ends by itself at exactly the tick its timeout asks for |
| TimerRuns.FutexWakeWakesTheFirst | kernel-core/src/arch.rs:656-675 | wakes exactly the first `count` threads still blocked on the address, in table order, leaves entries of other addresses alone, and returns how many it woke; terminated waiters use up no wake |
| TimerRuns.ScanReadiesWhatItRemoves | kernel-core/src/arch.rs:656-675 | a wake takes an entry off the table only for its own address, and then readies its thread unless that has been terminated |
| TimerRuns.WakeReachesExactly | kernel-core/src/arch.rs:656-675 | a wake readies a blocked waiter if and only if fewer than `count` blocked waiters of its address are ahead of it in the table |
| TimerRuns.NoWakeIsMissed | kernel-core/src/arch.rs:619-675 | after a successful wait, in every run until the timeout, either a wake of the address has readied the waiter or found it terminated, or it is still there and the next wake readies it if and only if fewer than `count` are ahead of it |
| FrameAllocator.BitmapFrameAllocator.SetBit | kernel-core/src/memory.rs:157-171 | writing one bit of a bitmap leaves every other bit alone |
| FrameAllocator.BitmapFrameAllocator.MarkUsable | kernel-core/src/memory.rs:132-138 | frees exactly the frames that lie wholly inside the region, also when its end overflows |
| FrameAllocator.BitmapFrameAllocator.MarkReserved | kernel-core/src/memory.rs:139-149 | reserves exactly the frames that meet the range rounded outward |
| FrameAllocator.BitmapFrameAllocator.Initialize | kernel-core/src/memory.rs:65-100 | a frame is free if and only if it is wholly inside one usable region and meets neither the first MiB nor any reserved range; the count of free frames is right |
| FrameAllocator.BitmapFrameAllocator.Allocate | kernel-core/src/memory.rs:101-113 | the lowest free frame moves to the handed-out ones; `None` exactly when none is free |
| FrameAllocator.BitmapFrameAllocator.Free | kernel-core/src/memory.rs:114-126 | a handed-out frame becomes free; unaligned, foreign and already free addresses change nothing |
| FrameSets.CirculationIsConstant | kernel-core/src/memory.rs:101-126 | over any sequence of calls no frame is both free and handed out, and free plus handed-out frames stay the same set |
| FrameSets.ReleaseAllIs | kernel-core/src/memory.rs:114-126 | freeing distinct handed-out frames moves exactly those |
| PageWords.TableEntryFields | kernel-core/src/paging.rs:340-342 | the entry of a linked table reads back as present, small, with the frame and the USER bit it was given |
| PageWords.LeafEntryFields | kernel-core/src/paging.rs:46-58 | a leaf entry reads back with its frame and exactly the permissions of its flags |
| PageWords.PathIsPage | kernel-core/src/paging.rs:328-333 | user addresses have the same four indices exactly when they are on the same page |
| PageWords.IndexBits | kernel-core/src/paging.rs:328-333 | the four indices are the shifted and masked address |
| PageWords.EntryBits | kernel-core/src/paging.rs:5-10 | each flag test of an entry is the test of one bit, and its frame is the masked address |
| PageWords.EntryUnion | kernel-core/src/paging.rs:340-349 | the entries the kernel writes are unions of an address and flags |
| PageWords.FlagUnion | kernel-core/src/paging.rs:46-58 | the flags of a page are the union of the bits for its permissions |
| Bits.FieldIs | kernel-core/src/paging.rs:328-333 | a shifted and masked field of a word is a quotient's remainder, whichever comes first |
| Bits.DisjointUnion | kernel-core/src/paging.rs:340-349 | the union of words without a common bit is their sum |
| Bits.ClearedLowBits | kernel-core/src/elf.rs:145-146 | clearing the lowest bits of a 64-bit word subtracts the remainder by that power of two |
| PageWords.RoundDown | kernel-core/src/elf.rs:145-146 | clearing the low 12 or 4 bits of an address rounds it down to its page, or to 16 bytes |
| PageWords.ByteOfWithByte | kernel-core/src/paging.rs:165-172 | writing one byte of a word changes that byte only |
| PageTree.EntryKeepsNode | kernel-core/src/paging.rs:334-350 | writing an entry of a separate tree moves nothing but what hangs from that entry |
| PageTree.FramesKeepNode | kernel-core/src/paging.rs:165-181 | frames that are no tables may change without moving any node |
| PageTree.ByteAfterOverlay | kernel-core/src/paging.rs:165-172 | writing bytes into a frame changes exactly those bytes |
| PageLinks.LinkNodes | kernel-core/src/paging.rs:338-341 | linking a fresh table adds exactly one node |
| PageLinks.LinkKeepsTrees | kernel-core/src/paging.rs:338-341 | a table linked from a free frame keeps the trees separate and the kernel half shared |
| PageLinks.LinkKeepsOwned | kernel-core/src/paging.rs:338-341 | the linked frame is accounted for in its tree |
| PageWalks.LinkKeepsWalk | kernel-core/src/paging.rs:338-345 | linking an empty table changes no translation at all |
| PageWalks.EntryKeepsWalk | kernel-core/src/paging.rs:346-350 | a walk that does not use a written entry ends where it did |
| PageWalks.WalkArrives | kernel-core/src/paging.rs:252-263 | a walk to a table that is there ends at that table's entry, with USER on every user-half link |
| Mapping.WalkDownKeeps | kernel-core/src/paging.rs:334-345 | the descent keeps trees, accounting and every translation, and stops for a huge page exactly when the walk ends at one |
| Mapping.DescentFailsExactlyShort | kernel-core/src/paging.rs:336-344 | a descent takes one frame for every missing table, and runs out of frames exactly when fewer are free |
| FiniteMap.MapRefines | kernel-core/src/paging.rs:322-352 | `map_page_in` adds exactly one page with the given frame and flags, or fails and changes no translation; `AlreadyMapped`, `HugePageConflict` and `FrameAllocationFailed` if and only if a small page, a huge page is there, or fewer frames are free than tables are missing on the way; the trees stay separate even when tables were linked before the failure |
| FiniteMap.MapKeepsOwned | kernel-core/src/paging.rs:322-352 | a held frame that is mapped is accounted for in the tree, one that is not stays held |
| SpaceLife.UnmapRefines | kernel-core/src/paging.rs:354-379 | removes exactly one page, answers with its frame, and answers `None` exactly when no small page is mapped |
| SpaceLife.CreateIsEmpty | kernel-core/src/paging.rs:114-125 | a new root has an empty user half and the shared kernel half, and no other translation changes |
| SpaceLife.KernelHalfAgrees | kernel-core/src/paging.rs:119-123 | all roots translate every upper-half address alike |
| SpaceLife.UserChecksAreExact | kernel-core/src/paging.rs:244-286 | `is_user_mapped` and `is_user_executable` accept exactly the addresses user code can reach, and execute, through small pages |
| Teardown.ReleaseIsFreed | kernel-core/src/paging.rs:393-409 | clearing entries on the way does not mislead the recursion when no frame occurs twice |
| Teardown.FreedOnce | kernel-core/src/paging.rs:139-151 | no frame of an address space is freed twice |
| Teardown.DestroyFrees | kernel-core/src/paging.rs:139-151 | frees exactly the root, the user tables and the user pages, each once, and no frame of the kernel half or of another space |
| Teardown.DestroyKeepsOwned | kernel-core/src/paging.rs:139-151 | after the teardown every handed-out frame is still accounted for |
| Teardown.DestroyKeepsTranslations | kernel-core/src/paging.rs:137-151 | all other address spaces and the kernel half translate as before |
| PagingRuns.CallKept | kernel-core/src/paging.rs:70-379 | every permitted call keeps separation, accounting, the frames in circulation and the boot root's entries |
| PagingRuns.FreeIsWhatIsUnused | kernel-core/src/memory.rs:101-126 | after any run a frame is free if and only if it is in circulation, held by no caller and in no tree |
| PagingRuns.NothingIsLost | kernel-core/src/paging.rs:137-151 | once all address spaces are destroyed, only the kernel window and frames callers hold are missing |
| PagingRuns.KernelHalfStaysShared | kernel-core/src/paging.rs:112-125 | in every later state all roots share the kernel half, through root entries that never change again |
| PagingRuns.InitializeEstablishes | kernel-core/src/paging.rs:70-82 | `initialize_virtual_memory` establishes the invariant, whether or not the boot loader left a table under entry 510 |
| KernelRuns.StepIsPermitted | kernel-core/src/threads.rs:269-307 | every system call of the scheduler makes only permitted paging calls: the space it destroys is a root and not active, the one it enters is a live process's root |
| KernelRuns.SpacesFollowRecords | kernel-core/src/threads.rs:277-284 | after a system call the address spaces are those before it, without exactly the spaces of processes whose records it cleared |
| KernelRuns.NewSpaceIsFresh | kernel-core/src/user.rs:250-255 | the address space created for a new process is in no process record |
| KernelRuns.KernelStepKeeps | kernel-core/src/user.rs:243-283 | system calls, spawns with whatever they load, and memory calls keep records and page tables in agreement |
| KernelRuns.BootIsJoined | kernel-core/src/user.rs:148-176 | they agree when the first thread runs in the address space made for PID 1 |
| KernelRuns.ProcessesAreIsolated | kernel-core/src/threads.rs:774-793 | in every state of every run, pages of different processes are in different frames, none of them free, and a running user thread has its own process's root in CR3 |
| Paging.Pager.MapPageIn | kernel-core/src/paging.rs:322-352 | the loop over the levels does what the descent and the leaf write do |
| Paging.Pager.MapUserPageIn | kernel-core/src/paging.rs:153-163 | refuses addresses outside the user range and maps the others |
| Paging.Pager.MapPage | kernel-core/src/paging.rs:288-320 | the same in the active address space |
| Paging.Pager.UnmapPage | kernel-core/src/paging.rs:354-379 | clears the leaf of a mapped page and answers with its frame |
| Paging.Pager.CreateUserAddressSpace | kernel-core/src/paging.rs:114-125 | zeroes the new root before copying the upper half of the active one |
| Paging.Pager.ReleaseUserTable | kernel-core/src/paging.rs:393-409 | frees, clears and recurses as the teardown function says, in the same order |
| Paging.Pager.DestroyUserAddressSpace | kernel-core/src/paging.rs:139-151 | releases the user half and then the root |
| Paging.Pager.SwitchAddressSpace | kernel-core/src/paging.rs:131-135 | changes the active root and nothing in memory |
| Paging.Pager.IsUserMapped | kernel-core/src/paging.rs:266-286 | answers the mapped check for the active root |
| Paging.Pager.IsUserExecutable | kernel-core/src/paging.rs:244-264 | answers the executable check for the active root |
| UserMemory.MapAddsPage | kernel-core/src/paging.rs:153-163 | mapping a held frame adds one page with the frame's content and changes no byte of other user memory; failing changes no user memory |
| UserMemory.NoHugePages | kernel-core/src/paging.rs:334-345 | no user address is translated by a huge page |
| UserMemory.WriteChangesPage | kernel-core/src/paging.rs:165-172 | writing a mapped frame changes that page's content and nothing else in any address space |
| UserMemory.StoreChangesOneByte | kernel-core/src/user.rs:586-594 | a stored byte changes one byte of one address space |
| UserMemory.PagePassesChecks | kernel-core/src/paging.rs:244-286 | a page mapped with user flags passes the mapped check, and the executable one if its flags allow execution |
| UserPages.WritePhysicalFrame | kernel-core/src/paging.rs:165-172 | the byte loop overlays the bytes at the offset inside one frame |
| UserPages.NewUserPage | kernel-core/src/paging.rs:226-231 | a fresh zero page appears where nothing was mapped, or no user memory changes, the frame stays held, and the error has its reason in the address or in fewer than four free frames |
| UserPages.AllocateUserStackIn | kernel-core/src/paging.rs:223-233 | four zero pages, writable and not executable, below the top of the slot; nothing outside them and nothing mapped before changes |
| UserPages.UserStacksAreGuarded | kernel-core/src/paging.rs:223-233 | user stacks of different slots do not meet and the page below a stack belongs to none |
| KernelStacks.AllocateKernelStack | kernel-core/src/paging.rs:194-206 | four kernel pages above the slot's guard page; no other window page and no user memory changes |
| KernelStacks.KernelPageIsPrivate | kernel-core/src/paging.rs:46-58 | a kernel stack page can be written, not executed, and not reached by user code |
| KernelStacks.ReleaseKernelStack | kernel-core/src/paging.rs:208-217 | every small page of the stack is unmapped, whatever its flags, and frames from the allocator go back; nothing else changes |
| KernelStacks.StacksAreGuarded | kernel-core/src/paging.rs:194-199 | stacks of different slots do not meet and the page below a stack belongs to none |
| KernelStacks.WindowPath | kernel-core/src/paging.rs:12-13 | window addresses go through entry 510, and share their indices exactly when they share a page |
| ElfLoader.LoadPage | kernel-core/src/elf.rs:149-162 | one page of a segment holds the file's bytes and zeros, with the copy inside the frame and the image |
| ElfLoader.LoadRange | kernel-core/src/elf.rs:145-168 | every byte of the range's pages is the file byte or zero, with the segment's permissions; all its pages were unmapped before, and no other page changes; errors have their reason in the range, in what was mapped, or in fewer free frames than four a page |
| ElfLoader.LoadInitialTls | kernel-core/src/elf.rs:189-226 | the TLS block and its control block are loaded at the slot's address and FS points behind the block |
| ElfLoader.LoadUserElfInto | kernel-core/src/elf.rs:56-187 | a successful load leaves every segment in memory byte by byte, with the permissions its flags ask for, no two on one page, the entry in an executable one, a zero stack and the TLS block; whatever was mapped before is untouched, loaded or not; only loadable images are loaded, all of them when there are frames enough, and each error is returned only for its reason |
| ElfLoader.LoadableHasNoFault | kernel-core/src/elf.rs:56-187 | the reasons for errors and the conditions for success exclude each other, but for a lack of frames |
| ElfLoader.LoadedImageInMemory | kernel-core/src/elf.rs:89-185 | after a load every PT_LOAD and PT_TLS header, read off the bytes of the image, finds its bytes at its addresses, then zeros, on user pages that are writable and executable exactly as its flags ask; the entry is the image's, in an executable segment |
| ElfLoader.LoadableIsWellFormed | kernel-core/src/elf.rs:61-132 | the images that can be loaded are exactly those whose bytes pass a list of checks on header, segments and TLS, at addresses that are unmapped and claimed once |
| ElfLoader.SegmentClaimsPages | kernel-core/src/elf.rs:145-150 | a segment claims exactly the pages its bytes lie on |
| ElfLoader.BlockSizeIsMasked | kernel-core/src/elf.rs:195-197 | rounding the TLS size by mask is rounding down to a multiple of the alignment, a power of two |
| ElfLoader.LoadedIsApart | kernel-core/src/elf.rs:149-152 | a segment loaded into unmapped pages shares none with one loaded before |
| ElfLoader.LoadedImagePassesCheck | kernel-core/src/threads.rs:318-329 | a loaded image passes the thread-creation check in its own address space |
| ElfLoader.TlsBlockHoldsImage | kernel-core/src/elf.rs:195-217 | between base and FS the TLS block is image bytes, then zeros, a multiple of the alignment long |
| PageWords.BytesSpellWord | kernel-core/src/elf.rs:228-243 | little-endian bytes spell the word they were taken from |
| InitialStack.InitializeProcessStack | kernel-core/src/user.rs:544-584 | through the new process's page tables, strings side by side below the top and the vector below them, which read back as name, at most four arguments and environment; no other byte of any address space changes |
| InitialStack.StoreByte | kernel-core/src/user.rs:586-594 | a store through the active page tables changes the byte user code reads there, and no other byte or page of any address space |
| InitialStack.WriteStrings | kernel-core/src/user.rs:552-560 | each string ends where the next begins, at the recorded address |
| InitialStack.WriteVector | kernel-core/src/user.rs:571-583 | count, argument pointers, null, environment pointers, null and padding, without gaps |
| InitialStack.StackRoundTrip | openkernel-rt/src/lib.rs:15-23 | reading the stack as `_start` and `main` do recovers the count, every argument without a zero byte, and the environment exactly |
| InitialStack.StackIsRead | kernel-core/src/user.rs:544-584 | reading the stack made of a name and caller's arguments gives 1 + min(number of arguments, 4), the name, each of those arguments, a null, `PATH=/bin`, `PWD=/` and a null |
| InitialStack.FinalAlignment | kernel-core/src/user.rs:567-583 | the stack pointer is 8 times the argument count modulo 16, hence 8 modulo 16 exactly for odd counts |
| InitialStack.FourPagesSuffice | kernel-core/src/arch.rs:713-742 | for the sizes the system call lets through, everything fits into the four stack pages |
| ProgramStart.PrepareProgram | kernel-core/src/user.rs:268-278 | a loadable image with frames enough is loaded, its stack and the control block's self pointer are written in its address space, where the program reads all that it should; no memory mapped before reads differently, and the caller's address space is active again |
| ProgramStart.ProgramReadsArguments | openkernel-rt/src/lib.rs:15-23 | the prepared program finds its segments and TLS block as the bytes of the image say, four writable stack pages, its name, its arguments and environment, and at its thread pointer the address it points to |
| StartOrder.ComputeStartOrder | init/src/main.rs:111-138 | ends with the resolvable services in dependency order, exactly those, followed by the others in table order |
| StartOrder.RoundsInClosed | init/src/main.rs:108-110 | the resolvable services are the least set closed under the dependency rule |
| StartOrder.StuckIsComplete | init/src/main.rs:127-136 | a pass without progress has found every resolvable service |
| StartOrder.OrderIsPermutation | init/src/main.rs:111-138 | every service is in the order exactly once |
| StartOrder.AcyclicNeedsNoFallback | init/src/main.rs:108-110 | when no dependency is missing or cyclic, the whole order is in dependency order |
| StartOrder.Shutdown | init/src/main.rs:220-229 | stops exactly the running services of the table, each once, and a service before one it depends on if and only if that one is resolvable or earlier in the table |
| StartOrder.StoppedUnderItsUser | init/src/main.rs:220-229 | two services for which every start order stops the one before the other that depends on it |

## Left out

- SpawnUserForProcess: whether the kernel and user stacks of the new thread can be mapped is a parameter, and so is the release of the slot's old stacks; `KernelStacks` and `UserPages` treat the mappings themselves.
- SpawnProcess: the address space and whether the image loads are parameters; `KernelRuns` treats creating the space, and `ProgramStart` loading.
- CreateThread: whether entry point and thread pointer pass their checks is one parameter; `SpaceLife.UserChecksAreExact` says what the checks accept.
- FutexWait: the word the kernel reads at the user address is a parameter.
- MapPage: TLB invalidation is not modelled.
- ReleaseUserTable: accessed and dirty bits, which the processor may set, are not modelled.
- LoadUserElfInto: the frames said to be enough are four a page, which may be more than the load takes.
- LoadUserElfInto: the sum of a file offset and an address is not wrapped at 64 bits; it cannot reach that far for an image in memory.
- StoreByte: the write permission of the page is not checked; the pages written are user stacks and TLS blocks, which are writable.
- `release_user_stack` on slot reuse, which unmaps in whichever root is active, and `brk`, whose mapped end may fall below what is mapped: the code keeps no clean guarantee there.
- Kernel threads made by `spawn`: nothing in the repository calls it; the idle thread, the one kernel thread, only yields.
- Context switches, saved registers and entry trampolines: a switch is the change of the current thread and of the active root.
- The preemption request flag: nothing reads it.
- Lower halves of the boot loader's root, and its kernel half outside entry 510: kept as found, never walked by these operations.
- `map_user_page`, `map_user_code_page`, `map_user_page_with_flags` and `map_device_page`: range or alignment checks in front of `map_page`.
- PID bookkeeping of init's supervisor (restart policies, one-shot services) and its messages.
- File descriptors, terminals, storage, devices, random numbers, the console, both boot adapters and the user programs.
