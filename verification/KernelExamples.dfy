/** Runs from boot in which waits never end, and a sleep that ends at once. */
module KernelExamples {
  import opened Basics
  import opened Messages
  import opened KernelState
  import opened KernelInvariants
  import opened KernelTheorems
  import opened KernelWaits

  /** A message that holds nothing but its own size. */
  function Note(): (m: Bytes)
    ensures WellFormed(m)
  {
    [8, 0, 0, 0, 0, 0, 0, 0]
  }

  /** Processes 0 and 1 are there and nobody else; `current` has the processor. */
  ghost predicate Two(s: Kernel, current: nat, state0: RunState, state1: RunState) {
    && Inv(s) && s.current == s.last == Some(current)
    && s.procs[0].state == state0 && s.procs[1].state == state1
    && forall p :: 2 <= p < MAX_PROCS ==> s.procs[p].state.Empty?
  }

  /** A run of two processes from boot, in the making. */
  datatype Trace = Trace(states: seq<Kernel>, entries: seq<Entry>)

  ghost predicate Run(t: Trace, steps: nat) {
    IsRun(t.states, t.entries, 2, 0) && |t.entries| == steps
  }

  ghost function Now(t: Trace): Kernel
    requires t.states != []
  {
    t.states[|t.states| - 1]
  }

  lemma Then(t: Trace, steps: nat, e: Entry) returns (t': Trace)
    requires Run(t, steps) && Inv(Now(t)) && CanEnter(Now(t), e)
    ensures Run(t', steps + 1) && Now(t') == Enter(Now(t), e) && Inv(Now(t'))
  {
    EnterKeepsInv(Now(t), e);
    t' := Longer(t, steps, e, Enter(Now(t), e));
  }

  lemma Longer(t: Trace, steps: nat, e: Entry, s': Kernel) returns (t': Trace)
    requires Run(t, steps) && CanEnter(Now(t), e) && s' == Enter(Now(t), e) && Sized(s')
    ensures Run(t', steps + 1) && Now(t') == s'
  {
    t' := Trace(t.states + [s'], t.entries + [e]);
    forall k | 0 <= k < |t'.entries|
      ensures IsStep(t'.states, t'.entries, k)
    {
      if k < steps { EarlierStep(t, t', k); }
    }
  }

  lemma EarlierStep(t: Trace, t': Trace, k: nat)
    requires IsStep(t.states, t.entries, k) && t.states <= t'.states && t.entries <= t'.entries
    ensures IsStep(t'.states, t'.entries, k)
  {
    assert t'.states[k] == t.states[k] && t'.states[k + 1] == t.states[k + 1] && t'.entries[k] == t.entries[k];
  }

  lemma Starts() returns (t: Trace)
    ensures Run(t, 0) && Two(Now(t), 0, Running, Runnable)
    ensures var s := Now(t);
      && s.mutexes == map[] && s.nextMutex == 1
      && s.procs[1].mq == 2 && s.procs[1].parent == None && 2 in s.queues && s.queues[2] == []
  {
    var b := Boot(2);
    assert b == SetupProcess(SetupProcess(Boot(0), 0, None), 1, None);
    BootSound(2);
    ScheduleNextSound(b, 0);
    assert Slot(4096) == 0 && Ready(b.procs[Slot(4096)], 0);
    assert NextInTurn(b.procs, 0, None) == Some(0);
    t := Trace([ScheduleNext(b, 0)], []);
  }

  /** When only one process can run, it is picked. */
  lemma OnlyOneReady(s: Kernel, clock: nat, r: nat)
    requires Sound(s) && r < MAX_PROCS && !CurrentRuns(s)
    requires forall p :: 0 <= p < MAX_PROCS ==> (Ready(s.procs[p], clock) <==> p == r)
    ensures ScheduleNext(s, clock) == s.(procs := SetState(s.procs, r, Running), current := Some(r), last := Some(r))
  {
    NextInTurnNearest(Preempt(s), clock, s.last, r);
  }

  // --- A lock of the dead ---

  lemma Creates(t: Trace, steps: nat) returns (t': Trace)
    requires Run(t, steps) && Two(Now(t), 0, Running, Runnable) && Now(t).mutexes == map[] && Now(t).nextMutex == 1
    ensures Run(t', steps + 1) && Two(Now(t'), 0, Running, Runnable) && Now(t').mutexes == map[1 := Mutex(0, 0)]
  {
    t' := Then(t, steps, Syscall(CreateMutex, 0));
  }

  lemma Locks(t: Trace, steps: nat, depth: nat) returns (t': Trace)
    requires Run(t, steps) && Two(Now(t), 0, Running, Runnable) && Now(t).mutexes == map[1 := Mutex(depth, 0)]
    ensures Run(t', steps + 1) && Two(Now(t'), 0, Running, Runnable) && Now(t').mutexes == map[1 := Mutex(depth + 1, 0)]
  {
    t' := Then(t, steps, Syscall(LockMutex(1, false), 0));
  }

  lemma Preempts(t: Trace, steps: nat) returns (t': Trace)
    requires Run(t, steps) && Two(Now(t), 0, Running, Runnable) && Now(t).mutexes == map[1 := Mutex(2, 0)]
    ensures Run(t', steps + 1) && Two(Now(t'), 1, Runnable, Running) && Now(t').mutexes == map[1 := Mutex(2, 0)]
  {
    var s := Now(t);
    assert Slot(1) == 1 && Ready(Preempt(s)[Slot(1)], 0);
    assert NextInTurn(Preempt(s), 0, s.last) == Some(1);
    t' := Then(t, steps, Interrupt([], Note(), 0));
  }

  lemma Blocks(t: Trace, steps: nat) returns (t': Trace)
    requires Run(t, steps) && Two(Now(t), 1, Runnable, Running) && Now(t).mutexes == map[1 := Mutex(2, 0)]
    ensures Run(t', steps + 1) && Two(Now(t'), 0, Running, Waiting) && Now(t').mutexes == map[1 := Mutex(2, 0)]
    ensures WaitsFor(Now(t').procs[1], OnMutex(1))
  {
    var e := Syscall(LockMutex(1, false), 0);
    HandledSound(Now(t), e);
    OnlyOneReady(Handled(Now(t), e), 0, 0);
    t' := Then(t, steps, e);
  }

  lemma Dies(s: Kernel)
    requires Two(s, 0, Running, Waiting) && s.mutexes == map[1 := Mutex(2, 0)] && WaitsFor(s.procs[1], OnMutex(1))
    ensures var s' := Enter(s, Syscall(Exit(0, [1], Note()), 0));
      Sized(s') && HeldByDead(s', 1) && WaitsFor(s'.procs[1], OnMutex(1))
  {
    var e := Syscall(Exit(0, [1], Note()), 0);
    var s1, s' := EntrySplits(s, e);
    TerminateMutex(s, Exited, 0, [1], Note(), 1);
    TerminateSound(s, Exited, 0, [1], Note());
    assert Rescheduled(s1.procs[0], s'.procs[0], s'.current == Some(0), 0);
    assert Rescheduled(s1.procs[1], s'.procs[1], s'.current == Some(1), 0);
  }

  lemma Exits(t: Trace, steps: nat) returns (t': Trace)
    requires Run(t, steps) && Two(Now(t), 0, Running, Waiting) && Now(t).mutexes == map[1 := Mutex(2, 0)]
    requires WaitsFor(Now(t).procs[1], OnMutex(1))
    ensures Run(t', steps + 1) && HeldByDead(Now(t'), 1) && WaitsFor(Now(t').procs[1], OnMutex(1))
  {
    Dies(Now(t));
    t' := Then(t, steps, Syscall(Exit(0, [1], Note()), 0));
  }

  /** Process 0 locks a mutex twice, process 1 waits for it, process 0 exits: the wait is for a dead process. */
  lemma DeadHolderExample() returns (t: Trace)
    ensures Run(t, 6) && HeldByDead(Now(t), 1) && WaitsFor(Now(t).procs[1], OnMutex(1))
  {
    t := Starts();
    t := Creates(t, 0);
    t := Locks(t, 1, 0);
    t := Locks(t, 2, 1);
    t := Preempts(t, 3);
    t := Blocks(t, 4);
    t := Exits(t, 5);
  }

  // --- A queue that is gone ---

  lemma Listens(t: Trace, steps: nat) returns (t': Trace)
    requires Run(t, steps) && Two(Now(t), 0, Running, Runnable)
    requires Now(t).procs[1].mq == 2 && Now(t).procs[1].parent == None && 2 in Now(t).queues && Now(t).queues[2] == []
    ensures Run(t', steps + 1) && Two(Now(t'), 1, Waiting, Running) && WaitsFor(Now(t').procs[0], OnMessage(2))
    ensures Now(t').procs[1].mq == 2 && Now(t').procs[1].parent == None
  {
    var e := Syscall(Poll(2, true, 0), 0);
    HandledSound(Now(t), e);
    OnlyOneReady(Handled(Now(t), e), 0, 1);
    t' := Then(t, steps, e);
  }

  lemma Leaves(s: Kernel)
    requires Two(s, 1, Waiting, Running) && WaitsFor(s.procs[0], OnMessage(2))
    requires s.procs[1].mq == 2 && s.procs[1].parent == None
    ensures var s' := Enter(s, Syscall(Exit(0, [], Note()), 0));
      Sized(s') && WaitsFor(s'.procs[0], OnMessage(2)) && 2 !in s'.queues
  {
    var e := Syscall(Exit(0, [], Note()), 0);
    var s1, s' := EntrySplits(s, e);
    assert s1.procs[0] == s.procs[0];
    assert Rescheduled(s1.procs[0], s'.procs[0], s'.current == Some(0), 0);
  }

  /** Process 0 waits at the queue of process 1, which exits: the wait is for a queue that is gone. */
  lemma GoneQueueExample() returns (t: Trace)
    ensures Run(t, 2) && WaitsFor(Now(t).procs[0], OnMessage(2)) && 2 !in Now(t).queues
  {
    t := Starts();
    t := Listens(t, 0);
    Leaves(Now(t));
    t := Then(t, 1, Syscall(Exit(0, [], Note()), 0));
  }

  // --- A sleep that overflows ---

  /** A sleep of 2^64 - 1 nanoseconds at clock 1 has deadline 0, and so is over at any clock. */
  lemma SleepExample(s: Kernel, clock: nat)
    requires Inv(s) && s.current.Some?
    ensures var s' := Handle(s, Sleep(0xFFFF_FFFF_FFFF_FFFF, 1)).0;
      WaitsFor(s'.procs[s.current.value], OnTime(0)) && Ready(s'.procs[s.current.value], clock)
  {
    assert (1 + 0xFFFF_FFFF_FFFF_FFFF) % 0x1_0000_0000_0000_0000 == 0;
  }
}
