# LF OS in Dafny

Models of six parts of LF OS and proofs about them. Each part has a value-level
specification, with lemmas about single steps and whole runs, and where the
original changes things in place, a class or method that is proved to do what
the specification says.

- **Scheduler, mutexes, message queues** (`KernelState`, `KernelInvariants`,
  `KernelTheorems`, `KernelCalls`, `KernelWaits`, `KernelExamples`,
  `Scheduler`). One transition system whose steps are system calls, faults and
  interrupts. The class `Scheduler.Machine` works on the process array, the
  mutex table and the queues and refines it.
- **Paged message queues** (`Messages`, `MessageQueue`). Byte pages with
  positions and counters refine a sequence of messages.
- **Page tables** (`PageTables`, `FlatView`, `AddressSpaces`,
  `AddressSpaceRuns`, `Translation`, `FreeSearch`, `RegionExamples`,
  `ForkCopy`, `VirtualMemory`). A four-level tree in frames, as in section 5.3
  of volume 2 of the AMD64 Architecture Programmer's Manual, refines a flat map
  from pages to frames.
- **Sized allocator** (`Bitsets`, `SlotPages`, `PageGeometry`,
  `SizedAllocator`). A bitmap with a cached longest run, and the list of pages.
- **FAT32 image builder** (`FatLayout`, `FatChains`, `FatImage`). The layout
  iteration and the cluster chains, as in the "FAT Data Structure" section of
  the Microsoft FAT32 File System Specification 1.03.
- **Terminal** (`Pen`, `PenLaws`, `Utf8`, `Utf8Reference`, `Cells`). The SGR
  pen of section 8.3.117 of ECMA-48, the UTF-8 codec of section 3 of RFC 3629
  with the longer forms of section 2 of RFC 2279, and scrolling in place.

`dafny verify dfyconfig.toml` checks everything.

Some properties hold of the code only under a condition. For these there is a
lemma that says exactly when:

- The layout iteration never ends for some volume sizes
  (`FatLayout.EndsIffSettles`, with the example `FatLayout.NeverSettles`).
- An empty allocator page can refuse a block that fits it, which answers the
  question asked in the code (`PageGeometry.QuestionedBranch`,
  `PageGeometry.NoSpareBitIff`).
- FAT contents read back only within four gigabytes (`FatChains.OffsetsApartIff`).
- A bold pen in a dark colour does not survive its own description when bold is
  shown as bright (`Pens.RoundTrip`, with the example `Pens.LossyExample`).
- Scrolling by zero erases, and scrolling along both axes leaves stale cells
  (`Cells.ScrollIsShiftIff`, with the example `Cells.ScrollExample`).
- The decoder writes one code point past its limit when a pending sequence is
  cut short in the last place (`Utf8.OverrunsAtIff`, `Utf8.EnoughRoomIff`). The
  callers in `state.c` pass the whole buffer as the limit.
- Translation shifts the address in a huge entry by the page size, where the
  entry holds it without its lower 12 bits (`Translation.HugeTranslatesIff`,
  with the example `Translation.HugeExample`). For the direct mapping, which
  these entries make up, the fixed offset is used before they are looked at.
- The search for free pages does not look where a run of pages ends. Pages
  outside the region are found when no run fits into it as a whole
  (`FreeSearch.InRegionIff`, `FreeSearch.OutsideRegionIff`, with runs in
  `RegionExamples.MmioExample` and `RegionExamples.HeapExample`).
- In the kernel heap such a run wraps into the user half of the kernel context
  (`FreeSearch.HeapStaysInKernelHalfIff`). From then on
  (`AddressSpaceRuns.UserHalfEmptyIff`) a new context shares tables with the
  kernel (`PageTables.AddContextValidIff`, `PageTables.CopiedUserHalfIsShared`).
- A process that dies holding a lock more than once keeps it, and its waiters wait
  forever (`KernelWaits.DeathStrandsIff`, `KernelWaits.StrandedForever`, with
  the run `KernelExamples.DeadHolderExample`).
- A process that waits at the queue of another waits forever once that one ends
  (`KernelWaits.GoneForever`, with the run `KernelExamples.GoneQueueExample`).
- A long sleep ends early when the clock sum overflows
  (`KernelTheorems.SleepLastsUnlessClockOverflows`, with the example
  `KernelExamples.SleepExample`).

Choices made where the source leaves them open:

- While the processor idles, the source indexes the process table with its
  invalid process id. The model has no current process then, and reads of its
  state count as neither runnable nor running. Likewise a process without a
  parent notifies nobody.
- The clock is a parameter of each entry and does not advance within one
  scheduling decision. Ids of mutexes and queues come from 64-bit counters and
  their tables are finite maps.
- `mm_alloc_pages` returns any free frame. Where the source halts the machine,
  there is no next state.
- The documentation of `find_continuous_unset` promises a streak if there is
  one. The code does not look at the last position, and the model follows the
  code.

## Model

| member | source | states |
|---|---|---|
| `KernelInvariants.RunInv` | src/kernel/arch/amd64/scheduler.cpp:163-273 | in every state of every run from boot: whoever waits for a mutex waits for one that exists, is locked and is held by another process; whoever waits for a message waits for a queue that is empty or gone; at most one process runs and it is the current one; the processor idles only when nobody is runnable |
| `KernelInvariants.EnterKeepsInv` | src/kernel/arch/amd64/scheduler.cpp:163-273 | one system call, fault or interrupt of any kind, followed by the scheduling decision, keeps all of these |
| `KernelInvariants.HandleSound` | src/kernel/mutex.cpp:117-204 | every system call handler keeps the invariants, and leaves the caller running, waiting or dead but never merely runnable |
| `KernelInvariants.ScheduleNextSound` | src/kernel/arch/amd64/scheduler.cpp:180-218 | the scheduler turns any sound state into one where the chosen process runs or nobody could |
| `KernelInvariants.NextInTurnNearest` | src/kernel/arch/amd64/scheduler.cpp:188-207 | the process picked is the nearest ready one in cyclic order after the last one scheduled |
| `KernelInvariants.NextOwnerNearest` | src/kernel/arch/amd64/scheduler.cpp:362-376 | the waiter served is the nearest one in cyclic order from the releasing process |
| `KernelInvariants.UnlockOnceKeeps` | src/kernel/mutex.cpp:68-93 | one unlock strands no waiter, never puts anybody to sleep and changes no other mutex |
| `KernelInvariants.CleanupSound` | src/kernel/arch/amd64/scheduler.cpp:231-258 | a dying process's locks, signal and queue are cleaned up without breaking an invariant |
| `KernelInvariants.DestroySound` | src/kernel/mutex.cpp:128-142 | destroying a mutex never strands a waiter |
| `KernelInvariants.PollSound` | src/kernel/arch/amd64/scheduler.cpp:513-547 | blocking on an empty queue creates no lost wakeup |
| `KernelTheorems.EntryMutexStep` | src/kernel/mutex.cpp:68-93 | for a locked mutex and any kernel entry: it stays as it is, or its holder locks it once more, or its holder releases one level, and the last level goes to the first waiter or to nobody; no waiter is woken except the new owner |
| `KernelTheorems.UnlockVisitedMutex` | src/kernel/mutex.cpp:95-115 | releasing for a dead process unlocks each mutex it holds by one level at most and touches no other |
| `KernelTheorems.BlockedBecomesOwner` | src/kernel/mutex.cpp:83-89 | a process that blocked in lock stops waiting only in the step in which the holder released the last level and it was next in cyclic order, and then it owns the mutex at depth 1 |
| `KernelTheorems.WaiterStaysAlive` | src/kernel/arch/amd64/scheduler.cpp:362-393 | no entry kills or forgets a waiting process |
| `KernelTheorems.HolderReleases` | src/kernel/mutex.cpp:144-204 | over any stretch of any run, if a locked mutex ends up unlocked, destroyed or with another holder, then at some step in between the old holder, then running, gave back the last level |
| `KernelTheorems.DeadForever` | src/kernel/arch/amd64/scheduler.cpp:260-274 | exited and killed are final in every run |
| `KernelTheorems.SleeperWakesOnTime` | src/kernel/arch/amd64/scheduler.cpp:185-201 | in one entry, a sleeper leaves its sleep only by being scheduled at a clock value not before its deadline |
| `KernelTheorems.SleepLastsUnlessClockOverflows` | src/kernel/arch/amd64/scheduler.cpp:421-433 | the deadline set is at least the time asked for if and only if the sum with the clock fits 64 bits |
| `KernelTheorems.SleeperRunsLater` | src/kernel/arch/amd64/scheduler.cpp:185-201 | over any stretch of any run, a sleeper that runs again was chosen by a decision at or past its deadline and slept in every state before |
| `KernelTheorems.SleepLasts` | src/kernel/arch/amd64/scheduler.cpp:421-433 | over any run, a process that asked to sleep and whose sum does not overflow runs again only after a decision at or past that time, and waits until then |
| `KernelWaits.DeadHolderIff` | src/kernel/mutex.cpp:95-115 | a dying process keeps a lock if and only if it held more than one level of it or the traversal did not visit it, and only then is the lock left to a dead process |
| `KernelWaits.DeathStrandsIff` | src/kernel/arch/amd64/scheduler.cpp:231-274 | the same over the whole entry, for exit and for faults |
| `KernelWaits.StrandedForever` | src/kernel/arch/amd64/scheduler.cpp:231-266 | a lock whose holder is dead is unchanged in every later state of every run, and whoever waits for it waits in all of them |
| `KernelExamples.DeadHolderExample` | src/kernel/mutex.cpp:95-115 | a run from boot of two processes that ends with a lock of a dead process and a waiter |
| `KernelWaits.HandoffCloser` | src/kernel/arch/amd64/scheduler.cpp:362-393 | an unlock that passes a waiter over brings the mutex's holder strictly closer to it in cyclic order |
| `KernelWaits.BoundedMutexWaiting` | src/kernel/arch/amd64/scheduler.cpp:362-393 | over any run, while a process waits for a mutex it changes hands at most as often as its holder is places away in cyclic order, so fewer than 4096 times |
| `KernelWaits.RunWaitsSpent` | src/kernel/arch/amd64/scheduler.cpp:513-547 | in every state of every run, whoever waits for a message waits under a queue id that was given out |
| `KernelWaits.GoneForever` | src/kernel/mq.cpp:94-120 | whoever waits at a queue that is gone waits in every later state of every run, because ids are not given out again |
| `KernelExamples.GoneQueueExample` | src/kernel/arch/amd64/scheduler.cpp:513-547 | a run from boot in which one process waits at the queue of another, which exits |
| `KernelExamples.SleepExample` | src/kernel/arch/amd64/scheduler.cpp:421-433 | a sleep of 2^64 - 1 at clock 1 is over at once |
| `KernelTheorems.EntryBringsCloser` | src/kernel/arch/amd64/scheduler.cpp:180-218 | every scheduling decision that passes over a process that is runnable or a sleeper that is due brings the turn strictly closer to it |
| `KernelTheorems.BoundedWaiting` | src/kernel/arch/amd64/scheduler.cpp:180-218 | a process that is runnable or due at every decision is passed over by fewer decisions than its cyclic distance, so fewer than 4096, whatever others do |
| `KernelTheorems.EntryDelivers` | src/kernel/arch/amd64/scheduler.cpp:513-566 | for any queue and any entry, contents before plus arrivals equal departures plus contents after |
| `KernelTheorems.FifoDelivery` | src/kernel/arch/amd64/scheduler.cpp:513-566 | over any stretch of any run in which a queue lives, what was in it plus what was sent equals what was received plus what is left, in order |
| `KernelTheorems.PollTakesExactlyOnSuccess` | src/kernel/arch/amd64/scheduler.cpp:513-547 | a poll removes a message exactly when it reports success and hands over the head message; every other outcome leaves the queue unchanged |
| `KernelCalls.UnlockLaw` | src/kernel/mutex.cpp:184-204 | the reply is EINVAL if and only if the mutex is missing and EPERM if and only if another process holds it, both with the state unchanged; a mutex of the caller's loses one level; at the last one the nearest waiter gets it at depth 1 and may run, or it is free if nobody waits; nothing else changes |
| `KernelCalls.LockLaw` | src/kernel/mutex.cpp:144-182 | the reply is EINVAL if and only if the mutex is missing and EBUSY if and only if another process holds it and the caller only tries, both with the state unchanged; the caller waits if and only if another process holds it and it does not only try; it replies 0 without a wait if and only if the caller holds one level more, the first of a free one; nothing else changes |
| `KernelCalls.CreateLaw` | src/kernel/mutex.cpp:117-126 | the id in the reply named no mutex and now names an unlocked one, or the reply is ENOMEM and nothing changed; nothing else changes |
| `KernelCalls.DestroyLaw` | src/kernel/mutex.cpp:128-142 | the mutex is gone if and only if it was there and unlocked; the errors say which, and all other mutexes stay |
| `KernelCalls.MutexIdsNotReused` | src/kernel/mutex.cpp:24-35 | over any run, a mutex that is gone never comes back under its id |
| `KernelCalls.CreatedIdIsNew` | src/kernel/mutex.cpp:117-126 | over any run, a created mutex has an id that no mutex had in any earlier state |
| `KernelCalls.SleepLaw` | src/kernel/arch/amd64/scheduler.cpp:421-433 | the caller, and nobody else, waits for the 64-bit sum of clock and request, or for time 0 if it asks for none |
| `KernelCalls.PollLaw` | src/kernel/arch/amd64/scheduler.cpp:513-547 | which of the five replies comes when; the head message is handed over and removed on success, its size told if the room is too small, and the caller waits if and only if it asked to and the queue is empty; nothing else changes |
| `KernelCalls.SendLaw` | src/kernel/arch/amd64/scheduler.cpp:549-566 | the message is appended to the queue named, to that of the process named or to the caller's own, with the caller's pid as sender and every other byte as sent; exactly those who wait there become runnable; a missing queue or process changes nothing |
| `KernelCalls.SendToProcess` | src/kernel/arch/amd64/scheduler.cpp:549-566 | a message for a live process always arrives in its queue |
| `KernelCalls.PushLaw` | src/kernel/mq.cpp:145-189 | one message at the end of one queue, its waiters runnable, and nothing else |
| `KernelCalls.InterruptWakes` | src/kernel/arch/amd64/sc.cpp:393-417 | an interrupt wakes exactly those who wait at a queue that is told of it |
| `KernelCalls.EndLaw` | src/kernel/arch/amd64/scheduler.cpp:231-274 | the slot of a dying process keeps how it ended, its queue is gone, and of all other queues only that of a live parent gets the signal |
| `KernelCalls.EndWakes` | src/kernel/arch/amd64/scheduler.cpp:231-258 | of those who do not wait for a mutex, exactly those at the parent's queue are woken |
| `KernelCalls.ExitLaw` | src/kernel/arch/amd64/scheduler.cpp:268-274 | the slot is exited with the lower eight bits of the code, its parent as before |
| `KernelCalls.FaultLaw` | src/kernel/arch/amd64/scheduler.cpp:260-266 | the slot is killed with the reason |
| `KernelCalls.CloneLaw` | src/kernel/arch/amd64/scheduler.cpp:276-331 | the child is the lowest free slot, runnable, with the caller as parent and a new, empty queue; its pid is the reply, and nothing else changes |
| `KernelCalls.ScheduleLaw` | src/kernel/arch/amd64/scheduler.cpp:180-218 | of all who could run, the nearest behind the last one that ran gets the processor, that one itself last; nobody gets it if and only if nobody could run; nothing but states, current and last changes |
| `Scheduler.Machine.constructor` | src/kernel/arch/amd64/scheduler.cpp:88-90 | the table starts empty |
| `Scheduler.Machine.PickNext` | src/kernel/arch/amd64/scheduler.cpp:187-207 | the scan finds the process that is next in turn and makes sleepers that are due runnable only when chosen |
| `Scheduler.Machine.ScheduleNext` | src/kernel/arch/amd64/scheduler.cpp:180-218 | the in-place scheduler computes the specified next state |
| `Scheduler.Machine.IdleIfNeeded` | src/kernel/arch/amd64/scheduler.cpp:163-178 | idles exactly when the current process cannot go on |
| `Scheduler.Machine.ScheduleIfNeeded` | src/kernel/arch/amd64/scheduler.cpp:220-228 | schedules exactly when the current process cannot go on |
| `Scheduler.Machine.WaitFor` | src/kernel/arch/amd64/scheduler.cpp:352-360 | blocks the current process with its reason |
| `Scheduler.Machine.MutexLock` | src/kernel/mutex.cpp:52-66 | locks if and only if free or already held by the same process |
| `Scheduler.Machine.MutexDone` | src/kernel/arch/amd64/scheduler.cpp:362-393 | the loop over all processes hands the mutex to the first waiter and wakes nobody else |
| `Scheduler.Machine.MessageDone` | src/kernel/arch/amd64/scheduler.cpp:362-393 | the loop wakes exactly the processes that wait for this queue |
| `Scheduler.Machine.MutexUnlock` | src/kernel/mutex.cpp:68-93 | releases one level, with handoff at the last |
| `Scheduler.Machine.UnlockHolder` | src/kernel/mutex.cpp:95-115 | releases the visited mutexes of a dead process |
| `Scheduler.Machine.CreateMutex` | src/kernel/mutex.cpp:117-126 | handler against the specification, including an exhausted id space |
| `Scheduler.Machine.DestroyMutex` | src/kernel/mutex.cpp:128-142 | handler against the specification, including missing and locked mutexes |
| `Scheduler.Machine.LockMutex` | src/kernel/mutex.cpp:144-182 | handler against the specification, including try-lock, recursion and blocking |
| `Scheduler.Machine.UnlockMutex` | src/kernel/mutex.cpp:184-204 | handler against the specification, including missing, unlocked and foreign mutexes |
| `Scheduler.Machine.Sleep` | src/kernel/arch/amd64/scheduler.cpp:421-433 | handler against the specification |
| `Scheduler.Machine.MqCreate` | src/kernel/mq.cpp:70-92 | a new empty queue under the next id |
| `Scheduler.Machine.MqDestroy` | src/kernel/mq.cpp:94-120 | the queue is gone and every other is unchanged |
| `Scheduler.Machine.MqPush` | src/kernel/mq.cpp:145-189 | appends to the queue and wakes its receivers, or reports a missing queue |
| `Scheduler.Machine.MqPeek` | src/kernel/mq.cpp:219-241 | the head message, its size if there is too little room, or why there is none |
| `Scheduler.Machine.MqPop` | src/kernel/mq.cpp:191-217 | takes the head message exactly on success |
| `Scheduler.Machine.Poll` | src/kernel/arch/amd64/scheduler.cpp:513-547 | handler against the specification, including own queue, blocking and short buffers |
| `Scheduler.Machine.Send` | src/kernel/arch/amd64/scheduler.cpp:549-566 | handler against the specification, including own queue, other processes and missing receivers |
| `Scheduler.Machine.ProcessCleanup` | src/kernel/arch/amd64/scheduler.cpp:231-258 | locks released, parent told, queue destroyed, in this order |
| `Scheduler.Machine.Exit` | src/kernel/arch/amd64/scheduler.cpp:268-274 | handler against the specification |
| `Scheduler.Machine.KillCurrent` | src/kernel/arch/amd64/scheduler.cpp:260-266 | the current process is killed and cleaned up |
| `Scheduler.Machine.FindFreePid` | src/kernel/arch/amd64/scheduler.cpp:92-101 | the lowest free process id, or none |
| `Scheduler.Machine.StartProcess` | src/kernel/arch/amd64/scheduler.cpp:103-133 | the lowest free slot becomes runnable with a queue of its own |
| `Scheduler.Machine.Clone` | src/kernel/arch/amd64/scheduler.cpp:276-331 | the child gets the lowest free id, a queue of its own and the caller as parent |
| `Scheduler.Machine.Notify` | src/kernel/arch/amd64/sc.cpp:393-417 | the interrupt's message is pushed to each listening queue in order |
| `Scheduler.Machine.Dispatch` | src/kernel/arch/amd64/sc.cpp:422-426 | every system call changes the machine's state and replies as the transition system's handler does |
| `Scheduler.Machine.Enter` | src/kernel/arch/amd64/sc.cpp:375-438 | a system call, fault or interrupt with its scheduling decision is exactly one step of the transition system that the run theorems are about |
| `Messages.PoppedThenQueuedIsAccepted` | src/kernel/mq.cpp:145-241 | for any starting contents and any run of pushes and pops, popped messages followed by queued ones are the first contents followed by the accepted pushes, in order and byte for byte |
| `Messages.LimitsHold` | src/kernel/mq.cpp:152-162 | configured item and byte limits hold after any run |
| `Messages.AcceptedIffWithin` | src/kernel/mq.cpp:152-162 | a push appends the message if and only if the queue with it is within its limits, and changes nothing otherwise |
| `MessageQueues.MessageQueue.constructor` | src/kernel/mq.cpp:75-87 | a queue starts empty and without limits |
| `MessageQueues.MessageQueue.Push` | src/kernel/mq.cpp:145-189 | the message is accepted exactly within the limits and then appended to the sequence held by the pages; counters stay true sums and positions within the pages; the average is that of the old one and this message |
| `MessageQueues.MessageQueue.AllocPage` | src/kernel/mq.cpp:122-143 | a new empty page, large enough, at the end of the list |
| `MessageQueues.MessageQueue.Peek` | src/kernel/mq.cpp:219-241 | finds the head of the sequence in the first page |
| `MessageQueues.MessageQueue.Pop` | src/kernel/mq.cpp:191-217 | removes the head of the sequence exactly on success, and no empty page stays listed |
| `MessageQueues.MessageQueue.Perform` | src/kernel/mq.cpp:145-241 | the same for the pages: after any list of pushes and pops on a real queue, what was popped plus what the pages hold is what they held plus what was accepted |
| `MessageQueues.HeadInFirstPage` | src/kernel/mq.cpp:226-233 | the bytes at the first page's pop position are the head message |
| `PageTables.SameIndicesIffSamePage` | src/kernel/arch/amd64/vm.cpp:398-417 | two addresses use the same four indices if and only if they lie in the same page |
| `PageTables.LeafTablePathUnique` | src/kernel/arch/amd64/vm.cpp:384-417 | a lowest-level table is reached by one index path only, and outside the kernel half from one context only |
| `PageTables.PathUnique` | src/kernel/arch/amd64/vm.cpp:384-417 | a table of any level is reached by at most one index path, and by paths of the user half from one context only |
| `PageTables.PathExists` | src/kernel/arch/amd64/vm.cpp:384-417 | every table of a valid state is reached from some context |
| `PageTables.EveryTableHasOnePath` | src/kernel/arch/amd64/vm.cpp:384-417 | every table of a valid state, of any level, is reached by exactly one index path, from exactly one context or, in the kernel half, from all |
| `PageTables.SetLeafLookup` | src/kernel/arch/amd64/vm.cpp:407-413 | writing one leaf changes exactly the translations of its page, in this context or, in the kernel half, in all |
| `PageTables.LinkTableKeepsLookups` | src/kernel/arch/amd64/vm.cpp:384-396 | adding an empty table changes no translation in any context |
| `PageTables.LinkTableValid` | src/kernel/arch/amd64/vm.cpp:384-396 | adding an empty table keeps the tree a tree with a shared kernel half |
| `PageTables.KernelHalfShared` | src/kernel/arch/amd64/vm.cpp:234-246 | in a valid state all contexts translate the kernel half alike |
| `PageTables.AddContextValid` | src/kernel/arch/amd64/vm.cpp:373-378 | copying the kernel's top table makes another valid context |
| `PageTables.AddContextValidIff` | src/kernel/arch/amd64/vm.cpp:373-378 | a copy of the kernel's top table makes a valid context if and only if the kernel maps nothing in the user half |
| `PageTables.CopiedUserHalfIsShared` | src/kernel/arch/amd64/vm.cpp:373-378 | otherwise a leaf written for a page of the copied half is seen by both contexts |
| `FlatView.LeafWriteUpdatesPage` | src/kernel/arch/amd64/vm.cpp:398-451 | a leaf write is an update of the flat map at one page |
| `FlatView.NewContextView` | src/kernel/arch/amd64/vm.cpp:373-378 | creating a context adds one that sees what the kernel sees, and changes nothing for the others but the page that holds it |
| `AddressSpaces.WithPathLaw` | src/kernel/arch/amd64/vm.cpp:384-396 | walking down and adding the missing tables keeps the state valid, changes no translation and ends at the table the address uses |
| `AddressSpaces.MapPageLaw` | src/kernel/arch/amd64/vm.cpp:398-417 | linking the missing tables and writing the leaf keeps the state valid and changes exactly one page of the flat map |
| `AddressSpaces.UnmapPageLaw` | src/kernel/arch/amd64/vm.cpp:419-451 | clearing the leaf, if its table is there, keeps the state valid and makes exactly one page absent |
| `AddressSpaces.AfterLaw` | src/kernel/arch/amd64/vm.cpp:373-451 | each operation on the tables, given only that the state before is valid, leads to a valid state that obeys the flat-map law |
| `AddressSpaces.AfterUserHalfIff` | src/kernel/arch/amd64/vm.cpp:384-451 | one operation leaves the kernel's user half empty if and only if it was and the operation does not map or prepare a page there |
| `AddressSpaceRuns.RunRefinesFlatMap` | src/kernel/arch/amd64/vm.cpp:373-451 | from any valid state, after any run of map, unmap and context creation on the tables, every context reads as a flat map that remembers the last write to each page |
| `AddressSpaceRuns.KernelHalfAgreesForever` | src/kernel/arch/amd64/vm.cpp:234-246 | from any valid state, after any run of these operations all contexts agree on the kernel half |
| `AddressSpaceRuns.UserHalfIsPrivate` | src/kernel/arch/amd64/vm.cpp:373-451 | a user half page reads as before after any run in which no map or unmap names that page of that context, whatever happens in others |
| `AddressSpaceRuns.UserHalfEmptyIff` | src/kernel/arch/amd64/vm.cpp:384-451 | the same over any run; unmapping does not empty it again |
| `AddressSpaceRuns.RunKeepsLinks` | src/kernel/arch/amd64/vm.cpp:384-451 | no run takes a table away or moves it |
| `AddressSpaceRuns.NewContextUserHalfEmpty` | src/kernel/arch/amd64/vm.cpp:373-378 | a new context's user half is empty |
| `AddressSpaceRuns.EveryTableHasOnePathForever` | src/kernel/arch/amd64/vm.cpp:373-451 | after any run, every table of every level still has exactly one index path |
| `Translation.LeafReadsAs` | src/kernel/arch/amd64/vm.cpp:407-416 | for every physical address and caching type, the leaf is present, writeable and open to users, its three caching bits are the low bits of the type, and every address of the page translates to the frame's start plus its offset |
| `Translation.MappedReadsAs` | src/kernel/arch/amd64/vm.cpp:398-417 | after a mapping this holds of every address of the page, in the context or, in the kernel half, in all |
| `Translation.UserPagesReachable` | src/kernel/arch/amd64/vm.cpp:384-396 | after any run, every page mapped in the user half of a context is reached through entries that are writeable and open to users only |
| `Translation.HugeTranslatesIff` | src/kernel/arch/amd64/vm.cpp:476-489 | a huge entry as the direct mapping writes it translates to its own address if and only if that is 0; the offset in the page is always kept |
| `Translation.HugeExample` | src/kernel/arch/amd64/vm.cpp:114-122 | the huge entry for the second gigabyte translates to 2^48 |
| `VirtualMemory.Machine.constructor` | src/kernel/arch/amd64/vm.cpp:234-246 | a kernel context with one empty table is a state to boot from |
| `VirtualMemory.Machine.NextTable` | src/kernel/arch/amd64/vm.cpp:384-396 | links the next table, an empty one from a free frame where there was none, and changes no translation |
| `VirtualMemory.Machine.ReserveKernelHalf` | src/kernel/arch/amd64/vm.cpp:234-246 | afterwards all 256 upper entries are present, no translation has changed, and the state is valid |
| `VirtualMemory.Machine.Map` | src/kernel/arch/amd64/vm.cpp:398-417 | exactly one page of the flat map changes; each of its addresses then translates to the frame asked for, with its flags and caching type; exactly the missing tables are taken from the free frames; and the new tables are those of the map operation of the run theorems |
| `VirtualMemory.Machine.Unmap` | src/kernel/arch/amd64/vm.cpp:419-451 | exactly one page of the flat map becomes absent, by the unmap operation of the run theorems |
| `VirtualMemory.Machine.Translate` | src/kernel/arch/amd64/vm.cpp:467-495 | the address that the flat map gives, and the fixed offset in the direct mapping |
| `VirtualMemory.Machine.PagePresent` | src/kernel/arch/amd64/vm.cpp:497-521 | true exactly when the flat map has the page |
| `VirtualMemory.Machine.FindFree` | src/kernel/arch/amd64/vm.cpp:523-550 | the result of the first step, with 64-bit wrap-around, at which the position has enough absent pages or lies past the end |
| `FreeSearch.FindsFirstFit` | src/kernel/arch/amd64/vm.cpp:523-550 | if enough absent pages begin somewhere in the region, whether or not they stay in it, the lowest such address is found |
| `FreeSearch.FindsNothing` | src/kernel/arch/amd64/vm.cpp:523-550 | if none has, the result is 0 when the region ends before the last page of the address space, and otherwise a fit below the region, found after the wrap |
| `FreeSearch.InRegionIff` | src/kernel/arch/amd64/vm.cpp:533-546 | all pages found lie in the region if and only if some fit lies in it as a whole, except that address 0 reads as failure |
| `FreeSearch.OutsideRegionIff` | src/kernel/arch/amd64/vm.cpp:523-550 | pages are found that do not all lie in the region if and only if no fit lies in it as a whole, and one begins in it all the same or the search wraps below it |
| `FreeSearch.AddressOutsideIff` | src/kernel/arch/amd64/vm.cpp:523-550 | the address found lies outside the region if and only if no fit begins in it, it reaches the last page, and page 0 is no fit or out of step |
| `FreeSearch.WrapExample` | src/kernel/arch/amd64/vm.cpp:523-550 | the last page of the address space and page 0 taken: the search there returns page 1 |
| `RegionExamples.RegionOverflows` | src/kernel/arch/amd64/vm.cpp:523-550 | from any state with an unmapped region there is a run of mappings after which two pages wanted in it are found with the second outside |
| `RegionExamples.MmioExample` | src/kernel/arch/amd64/vm.h:19-20 | for the user's MMIO region the second page is the first of the ioperm region |
| `RegionExamples.HeapExample` | src/kernel/arch/amd64/vm.h:25-25 | for the kernel heap the second page is page 0, and mapping the two fills the kernel's user half |
| `FreeSearch.SearchAboveFreeBottom` | src/kernel/arch/amd64/vm.cpp:523-550 | where page 0 has enough absent pages, as in the kernel context, the search always ends, returns 0 exactly when no fit begins in the region, and pages of the region exactly when one also ends there |
| `FreeSearch.StaysInKernelHalfIff` | src/kernel/arch/amd64/vm.cpp:552-567 | pages from the kernel half on stay in it if and only if the last one does not pass the end of the address space |
| `FreeSearch.HeapStaysInKernelHalfIff` | src/kernel/arch/amd64/vm.cpp:523-550 | in a region that ends with the address space, the pages found stay in the kernel half if and only if some fit lies in the region as a whole or none begins there |
| `VirtualMemory.Machine.AllocPages` | src/kernel/arch/amd64/vm.cpp:552-567 | a run of absent pages is mapped to distinct, formerly free frames, one map operation of the run theorems each, and nothing else changes; nothing at all changes if no run is found; it halts only if fewer than four frames per page are free; in the kernel context it keeps the user half empty if and only if all pages lie in the kernel half |
| `VirtualMemory.Machine.NewContext` | src/kernel/arch/amd64/vm.cpp:373-378 | one more context, in a formerly free frame, by the create operation of the run theorems |
| `ForkCopy.CachedLinks` | src/kernel/arch/amd64/vm.cpp:597-670 | the table pointers remembered for the page before are the ones a fresh walk would find whenever the index comparison lets them stand |
| `ForkCopy.CopiedPage` | src/kernel/arch/amd64/vm.cpp:672-686 | one more page keeps the copy: fresh frame, distinct from the earlier ones, same contents, nothing else touched |
| `VirtualMemory.Machine.UpdateCache` | src/kernel/arch/amd64/vm.cpp:603-670 | after the comparisons the remembered tables are those of the current page in both contexts |
| `VirtualMemory.Machine.CopyLeaf` | src/kernel/arch/amd64/vm.cpp:672-686 | copies the page if the source has it and leaves it absent otherwise |
| `VirtualMemory.Machine.CopyRange` | src/kernel/arch/amd64/vm.cpp:592-690 | the target is present exactly where the source is, over fresh and pairwise distinct frames with equal contents and flags; the source, every other page of every context and every used frame are unchanged; the tables are those after a run of operations on the target's range |
| `Bitsets.FindContinuousUnset` | src/kernel/bitset_helpers.h:15-34 | the skipping search finds the leftmost run that does not end at the last bit, or reports none exactly when there is no such run |
| `Bitsets.SetRange` | src/kernel/bitset_helpers.h:36-40 | sets the range and nothing else |
| `Bitsets.SearchMissesOnlyTheEnd` | src/kernel/bitset_helpers.h:15-34 | the only run the search can miss is the one that ends exactly with the bitset |
| `SlotPages.Page.UpdateHeader` | src/kernel/allocator/sized.h:105-123 | the cached number is the exact length of the longest free run among the slots |
| `SlotPages.Page.Allocate` | src/kernel/allocator/sized.h:62-78 | marks the leftmost fitting run, within the slots and short of the last bit, and fails exactly when the cached number is too small or the search sees no fit |
| `SlotPages.Page.Deallocate` | src/kernel/allocator/sized.h:80-102 | releases exactly the block at the address, or refuses an address that is not the page's |
| `SlotPages.MarksDeallocate` | src/kernel/allocator/sized.h:93-97 | clearing a block's slots leaves exactly the other blocks marked |
| `PageGeometry.QuestionedBranch` | src/kernel/allocator/sized.h:68-72 | a page whose longest run is long enough but in which the search sees none exists if and only if there are as many slots as bits |
| `PageGeometry.SlotsFillPage` | src/kernel/allocator/sized.h:34-47 | header, bitmap, list link and slots fit the page, one more slot would not, and there is a bit for every slot |
| `PageGeometry.NoSpareBitIff` | src/kernel/allocator/sized.h:34-42 | there are as many slots as bits exactly when the rest of dividing the page by the slot size covers header and bitmap |
| `PageGeometry.HundredByteSlots` | src/kernel/allocator/sized.h:62-78 | 100-byte slots in a 4 KiB page are such a case: in an empty page the search sees no room for its full 40 slots |
| `SizedAllocators.SizedAllocator.constructor` | src/kernel/allocator/sized.h:137-142 | the list starts empty |
| `SizedAllocators.SizedAllocator.Allocate` | src/kernel/allocator/sized.h:151-169 | succeeds if and only if the request fits the slots of a page and is less than its bits; a new block is recorded on one page and all other blocks stay; a request refused for the bits leaves one more, empty page |
| `SizedAllocators.SizedAllocator.Deallocate` | src/kernel/allocator/sized.h:175-191 | exactly that block goes and its page leaves the list exactly when it was the page's last; a foreign address changes nothing |
| `SizedAllocators.OwnerOnly` | src/kernel/allocator/sized.h:179-187 | a block's address belongs to its own page and to no other |
| `SizedAllocators.LiveBlocksApart` | src/kernel/allocator/sized.h:151-191 | in every valid state any two live blocks, on one page or two, share no address |
| `FatLayout.StableIsTarget` | util/fatcreate.c:385-410 | a table size is stable if and only if the space settles and it is the one target size |
| `FatLayout.EndsIffSettles` | util/fatcreate.c:385-410 | the loop ends if and only if the space modulo entries per sector plus two is neither 0 nor one less than the divisor |
| `FatLayout.NeverSettles` | util/fatcreate.c:62-73 | 132 sectors of 512 bytes, 2 of them reserved, is an accepted size for which no round is the last |
| `FatLayout.RankDecreases` | util/fatcreate.c:385-410 | each round brings the size closer to the target, after at most one overshoot by one |
| `FatLayout.InitializeFat` | util/fatcreate.c:378-420 | on exit the table has an entry for each cluster and two more, wastes no sector, and reserved sectors, two tables and clusters add up to the volume |
| `FatChains.NewChain` | util/fatcreate.c:262-269 | marking a free cluster makes a chain of one, and all other chains stay |
| `FatChains.JoinChains` | util/fatcreate.c:271-273 | linking two chains keeps all chains end-marked, acyclic and pairwise disjoint, with every used entry in exactly one |
| `FatChains.PutHolds` | util/fatcreate.c:275-284 | writing a cluster changes what its own chain holds at this place and nothing else |
| `FatChains.ClustersBackToBack` | util/fatcreate.c:282-282 | within reach, cluster 2 is at the start of the data area and each cluster follows the one before |
| `FatChains.OffsetsApartIff` | util/fatcreate.c:282-282 | 32-bit offsets keep all clusters apart if and only if they lie within the first four gigabytes of the data area |
| `FatChains.BeyondReach` | util/fatcreate.c:282-282 | past that, writing some cluster destroys another one's contents |
| `FatChains.ChunksHoldData` | util/fatcreate.c:243-281 | the clusters written hold the data in order and zeros behind it |
| `FatImages.Image.constructor` | util/fatcreate.c:412-420 | an empty image: the two reserved entries, all clusters free, no chains |
| `FatImages.Image.FindFree` | util/fatcreate.c:216-236 | the nearest free cluster from the hint on, else the first of all, and none exactly when none is free |
| `FatImages.Image.Mark` | util/fatcreate.c:262-273 | marks, counts and links one cluster |
| `FatImages.Image.StoreData` | util/fatcreate.c:243-312 | succeeds exactly with enough free clusters; a new chain, or the old one kept and extended, holds the data; every other chain and file is unchanged; the counter stays the number of zero entries |
| `FatImages.Image.StoreFile` | util/fatcreate.c:314-349 | the same cluster by cluster, with one chain for the whole file, and no chain for an empty one |
| `FatImages.FollowIsChain` | util/fatcreate.c:295-306 | following the table from the head of a chain gives that chain and stops |
| `FatImages.FileReadsBack` | util/fatcreate.c:243-349 | following the table and reading the clusters gives each stored file back, whatever was stored before and after |
| `FatImages.DataReadsBack` | util/fatcreate.c:243-349 | reading a stored file gives its data, then zeros to the end of its last cluster, over as few clusters as hold it |
| `Pens.RoundTrip` | src/userspace/term/3rd-party/libvterm/src/pen.c:471-549 | resetting and applying the arguments that describe a pen restores it if and only if it is not a bold pen in one of the first eight colours with bold shown as bright; then only the colour differs, by eight |
| `Pens.LossyExample` | src/userspace/term/3rd-party/libvterm/src/pen.c:471-549 | bold and then colour 1 of the large palette, with bold shown as bright, comes back as colour 9 |
| `Pens.ReachablePenRoundTrip` | src/userspace/term/3rd-party/libvterm/src/pen.c:276-549 | with bold not shown as bright, every pen that any well-formed arguments can set is restored by its description |
| `Pens.ApplyProper` | src/userspace/term/3rd-party/libvterm/src/pen.c:276-469 | fonts stay within 0 to 9 and the pen is small exactly off the normal baseline, after any arguments |
| `Pens.SelectFirst` | src/userspace/term/3rd-party/libvterm/src/pen.c:283-467 | a complete selector takes effect alone and the rest of the arguments follows |
| `PenLaws.LastSelectorDecides` | src/userspace/term/3rd-party/libvterm/src/pen.c:276-469 | for every pen and every readable list of arguments, cut into selectors, each attribute but the foreground is what the last selector that concerns it says in a table of its own, or what it was if none does |
| `PenLaws.LastColorDecides` | src/userspace/term/3rd-party/libvterm/src/pen.c:297-305 | the foreground is the colour said last, or the old one; with bold shown as bright it is the bright one if bold was turned on later, or was on when one of the first eight was picked by 30 to 37 |
| `PenLaws.CanBeCut` | src/userspace/term/3rd-party/libvterm/src/pen.c:283-467 | every readable list can be cut into selectors with what each claims and its sub-arguments |
| `PenLaws.WholeIsFront` | src/userspace/term/3rd-party/libvterm/src/pen.c:283-467 | there is one way to cut only, and it is the one the loop takes |
| `Pens.DescriptionFits` | src/userspace/term/3rd-party/libvterm/src/pen.c:504-549 | a description has at most 20 arguments |
| `Pens.PenState.LookupColor` | src/userspace/term/3rd-party/libvterm/src/pen.c:91-115 | the colour picked and the arguments used, for both palettes, short and missing arguments |
| `Pens.PenState.SelectOne` | src/userspace/term/3rd-party/libvterm/src/pen.c:289-461 | one selector's effect and the arguments it takes |
| `Pens.PenState.SetPen` | src/userspace/term/3rd-party/libvterm/src/pen.c:276-469 | the loop applies all selectors in order |
| `Pens.PenState.GetPen` | src/userspace/term/3rd-party/libvterm/src/pen.c:504-549 | the array holds the description, in room for 20 |
| `Pens.PenState.SavePen` | src/userspace/term/3rd-party/libvterm/src/pen.c:187-210 | saves or restores the whole pen |
| `Utf8.StreamRoundTrip` | src/userspace/term/3rd-party/libvterm/src/encoding.c:28-155 | any list of encodable code points, encoded and cut into chunks anywhere, decodes to the same list with nothing pending |
| `Utf8.RoundTripIff` | src/userspace/term/3rd-party/libvterm/src/encoding.c:28-155 | a code point below 2^31 comes back from its bytes if and only if it is no control character, no surrogate, and neither U+FFFE nor U+FFFF |
| `Utf8.CutsDoNotMatter` | src/userspace/term/3rd-party/libvterm/src/encoding.c:28-155 | decoding chunk by chunk equals decoding the whole |
| `Utf8.AcceptedIsEncoded` | src/userspace/term/3rd-party/libvterm/src/encoding.c:68-102 | bytes that decode without a replacement character are the encoding of their output plus the pending prefix, so no overlong form is accepted |
| `Utf8.CharacterSurvives` | src/userspace/term/3rd-party/libvterm/src/encoding.c:48-121 | from every state, the bytes of an encodable code point put out that code point and leave nothing pending, after one FFFD if a sequence was pending |
| `Utf8.TextSurvives` | src/userspace/term/3rd-party/libvterm/src/encoding.c:28-155 | after any bytes, a list of encodable code points comes out complete; a sequence that was pending costs one FFFD and no code point |
| `Utf8.Resynchronises` | src/userspace/term/3rd-party/libvterm/src/encoding.c:48-121 | bytes that begin with a character or a lead decode as they would on their own, after one FFFD if a sequence was pending |
| `Utf8.StrayByte` | src/userspace/term/3rd-party/libvterm/src/encoding.c:151-153 | a byte FE or FF costs one FFFD where it stands, and a sequence pending before it goes on behind it |
| `Utf8Reference.RunGivesCharacters` | src/userspace/term/3rd-party/libvterm/src/encoding.c:28-155 | for all bytes below FE, the decoder puts out what a decoder without state does, which cuts the bytes from the front and looks ahead for the bytes of each character |
| `Utf8.OverrunsAtIff` | src/userspace/term/3rd-party/libvterm/src/encoding.c:38-64 | a byte makes the output exceed its room if and only if one place is left, a sequence is pending and the byte is a printable ASCII character |
| `Utf8.OverrunExample` | src/userspace/term/3rd-party/libvterm/src/encoding.c:38-64 | the bytes C3 41 in room for one code point are such a case |
| `Utf8.EnoughRoomIff` | src/userspace/term/3rd-party/libvterm/src/encoding.c:28-155 | no bytes of a given number exceed the room if and only if there is a place for each of them and one for a pending sequence |
| `Utf8.RunCompletes` | src/userspace/term/3rd-party/libvterm/src/encoding.c:28-155 | at most one code point per byte comes out, and one more for a sequence that was pending |
| `Utf8.StoppedOverran` | src/userspace/term/3rd-party/libvterm/src/encoding.c:28-155 | a decoder that has stopped exceeded its room, then by one, if and only if a byte before did as stated |
| `Utf8.SeqLenIs` | src/userspace/term/3rd-party/libvterm/src/utf8.h:5-13 | the length is the one whose range contains the code point |
| `Utf8.FillUtf8` | src/userspace/term/3rd-party/libvterm/src/utf8.h:16-38 | writes exactly the encoding and leaves the rest of the buffer alone |
| `Utf8.Decoder.constructor` | src/userspace/term/3rd-party/libvterm/src/encoding.c:20-26 | starts with nothing pending |
| `Utf8.Decoder.Decode` | src/userspace/term/3rd-party/libvterm/src/encoding.c:28-155 | output and carried state are those of the bytes consumed; it stops at the end, at the first control character, or as soon as the output is full; it writes at most one code point past the limit, and does so if and only if the bytes overrun |
| `Utf8.Decoder.DecodeByte` | src/userspace/term/3rd-party/libvterm/src/encoding.c:38-153 | one byte's effect on state and output |
| `Cells.CopyCells` | src/userspace/term/3rd-party/libvterm/src/vterm.c:374-413 | every destination cell gets what its source held before, however the rectangles overlap, and no other cell changes |
| `Cells.ScrollRect` | src/userspace/term/3rd-party/libvterm/src/vterm.c:305-372 | every cell of the screen afterwards, in terms of the cells before |
| `Cells.ScrollIsShiftIff` | src/userspace/term/3rd-party/libvterm/src/vterm.c:305-372 | scrolling shifts the rectangle and blanks exactly what is vacated if and only if it goes along exactly one axis or exceeds the area |
| `Cells.ScrollExample` | src/userspace/term/3rd-party/libvterm/src/vterm.c:305-372 | in a 3 by 3 rectangle, scrolling by nothing blanks the middle and scrolling down and right leaves a corner stale |

## Left out

- Condition variables: the source marks their wait counting as unfinished.
- Huge pages are translated but never created, and those of the direct mapping are not part of the run theorems; flags other than present, writeable, user and the memory type are not modelled.
- `cleanup_boot_vm`: its effect, an empty user half of the kernel context, is only asked for where contexts are created.
- `vm_alloc`, `vm_free` and freeing of frames: the set of free frames only shrinks.
- The kernel's two-level table `TPA`: a finite map stands for it.
- Hardware access, interrupt entry, boot code, the framebuffer console, service discovery and ELF loading.
- Directory entries, names, time stamps and file access of the image builder; failure to open a file.
- The escape sequence parser, palettes' RGB values and the attribute callbacks of the terminal library.
- Allocation failure inside the message queue and the 64-bit wrap of its counters; the 32-bit wrap of a mutex's lock depth.
- Scheduler.Machine.UnlockHolder: the mutexes visited are a parameter, any ascending list, because the traversal of the id table is not modelled.
- Scheduler.Machine.ProcessCleanup: the bytes of the signal message are a parameter.
- Scheduler.Machine.MqDestroy: teardown notifiers are not called.
- Scheduler.Machine.Clone: only the process table and the queue; memory and registers are covered by VirtualMemory.Machine.CopyRange or not at all.
- Scheduler.Machine.Send: only for messages whose size field is their length; the source trusts the field.
- VirtualMemory.Machine.NextTable: asks for a free frame where a table is missing, because the source halts otherwise, and for no huge page on the way.
- VirtualMemory.Machine.Map: asks for free frames for the missing tables, because the source halts otherwise, for no huge page on the way, and for a target that is no free frame.
- VirtualMemory.Machine.FindFree: asks that the search ends; it goes on forever where the region reaches the last page and no page at all fits.
- VirtualMemory.Machine.AllocPages: says nothing about the tables once frames run out, because the source halts; only for fewer than 2^36 pages and searches that end.
- VirtualMemory.Machine.NewContext: only with an empty user half of the kernel context, without which the copy is no context of its own, a free page in the region and four free frames.
- AddressSpaceRuns.RunRefinesFlatMap: a run is one for which its operations can be done: the contexts exist, new tables go to unused frames and no huge page is on the way.
- VirtualMemory.Machine.CopyRange: only aligned ranges whose tables all exist in the source and which the target does not map yet; for others the skips and the remembered tables make the claim false.
- VirtualMemory.Machine.ReserveKernelHalf: the page attribute bits of the reserved entries are not modelled.
- SlotPages.Page.Deallocate: an address within the page must be the start of a live block of that length; the source clears whatever bits are there.
- SizedAllocators.SizedAllocator.Deallocate: an address within some page must be the start of a live block there; foreign addresses change nothing.
- SizedAllocators.SizedAllocator.Allocate: the address of a new page is a parameter that must not overlap the pages in use.
- FatLayout.InitializeFat: only for one sector per cluster, and only where the loop ends at all.
- FatImages.Image.StoreData: says nothing about the image when clusters run out, because the program exits; data of four gigabytes and more, whose offsets wrap in the source, is read at its true offsets; tables stay below the end marker 0x0FFFFFF8.
- Pens.PenState.SetPen: only for arguments where 38 and 48 are not last and the last one has no sub-argument, because the source reads past the end otherwise; the default colours do not change while the pen is in use.
- Pens.PenState.SelectOne: only where a colour selector is not the last argument, as in SetPen.
- Utf8.Decoder.Decode: where the bytes overrun, the buffer must hold one code point past the limit, because the source writes there; the condition for that is stated.
- Utf8.Decoder.DecodeByte: the buffer must hold what the byte puts out, which is none, one or two code points.
- Cells.ScrollRect: the move and erase callbacks are CopyCells and filling with a blank.
