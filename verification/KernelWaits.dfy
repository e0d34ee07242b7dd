/** Waits over whole runs: how long a process waits for a mutex, and the waits that never end. */
module KernelWaits {
  import opened Basics
  import opened Messages
  import opened KernelState
  import opened KernelInvariants
  import opened KernelTheorems

  // --- Bounded waiting for a mutex ---

  /** The cyclic distance from the holder of a mutex to one who waits for it. */
  function HolderDistance(s: Kernel, m: nat, p: nat): nat
    requires m in s.mutexes && p < MAX_PROCS
  {
    DistanceFrom(Slot(s.mutexes[m].holder), p)
  }

  lemma DistanceFromShrinks(from: nat, q: nat, p: nat)
    requires from < MAX_PROCS && q < MAX_PROCS && p < MAX_PROCS && q != from
    requires DistanceFrom(from, q) <= DistanceFrom(from, p)
    ensures DistanceFrom(q, p) < DistanceFrom(from, p)
  {
  }

  lemma PassedOver(s: Kernel, m: nat, p: nat)
    requires Inv(s) && p < MAX_PROCS && WaitsFor(s.procs[p], OnMutex(m)) && m in s.mutexes && s.mutexes[m].depth > 0
    requires s.current == Some(s.mutexes[m].holder) && AfterUnlock(s, m).holder != s.mutexes[m].holder
    ensures DistanceFrom(Slot(AfterUnlock(s, m).holder), p) < HolderDistance(s, m, p)
  {
    NextOwnerNearest(s.procs, m, s.current, p);
    DistanceFromShrinks(s.mutexes[m].holder, AfterUnlock(s, m).holder, p);
  }

  /** A release that passes a waiter over brings the mutex closer to it. */
  lemma HandoffCloser(s: Kernel, e: Entry, m: nat, p: nat)
    requires Inv(s) && CanEnter(s, e) && p < MAX_PROCS && WaitsFor(s.procs[p], OnMutex(m))
    requires WaitsFor(Enter(s, e).procs[p], OnMutex(m))
    ensures m in s.mutexes && m in Enter(s, e).mutexes
    ensures var a, b := s.mutexes[m], Enter(s, e).mutexes[m];
      b.holder == a.holder || HolderDistance(Enter(s, e), m, p) < HolderDistance(s, m, p)
  {
    EntryMutexStep(s, e, m);
    if Enter(s, e).mutexes[m].holder != s.mutexes[m].holder { PassedOver(s, m, p); }
  }

  /** How often the mutex changed hands in the run between states `i` and `j`. */
  function Handoffs(states: seq<Kernel>, m: nat, i: nat, j: nat): nat
    requires i <= j < |states| && forall k :: i <= k <= j ==> m in states[k].mutexes
    decreases j - i
  {
    if i == j then 0
    else
      (if states[i + 1].mutexes[m].holder != states[i].mutexes[m].holder then 1 else 0) + Handoffs(states, m, i + 1, j)
  }

  lemma CloserToMutex(states: seq<Kernel>, entries: seq<Entry>, n: nat, clock: nat, k: nat, m: nat, p: nat)
    requires IsRun(states, entries, n, clock) && k < |entries| && p < MAX_PROCS
    requires WaitsFor(states[k].procs[p], OnMutex(m)) && WaitsFor(states[k + 1].procs[p], OnMutex(m))
    ensures m in states[k].mutexes && m in states[k + 1].mutexes
    ensures HolderDistance(states[k + 1], m, p)
          + (if states[k + 1].mutexes[m].holder != states[k].mutexes[m].holder then 1 else 0)
         <= HolderDistance(states[k], m, p)
  {
    var s, e, s' := RunStep(states, entries, n, clock, k);
    HandoffCloser(s, e, m, p);
  }

  lemma AwaitedExists(states: seq<Kernel>, entries: seq<Entry>, n: nat, clock: nat, k: nat, m: nat, p: nat)
    requires IsRun(states, entries, n, clock) && k < |states| && p < MAX_PROCS
    requires WaitsFor(states[k].procs[p], OnMutex(m))
    ensures m in states[k].mutexes
  {
    RunInv(states, entries, n, clock, k);
  }

  /** While a process waits for a mutex, it changes hands fewer than MAX_PROCS times. */
  lemma {:induction false} BoundedMutexWaiting(states: seq<Kernel>, entries: seq<Entry>, n: nat, clock: nat,
                                               i: nat, j: nat, m: nat, p: nat)
    requires IsRun(states, entries, n, clock) && i <= j < |states| && p < MAX_PROCS
    requires forall k :: i <= k <= j ==> WaitsFor(states[k].procs[p], OnMutex(m))
    ensures forall k :: i <= k <= j ==> m in states[k].mutexes
    ensures Handoffs(states, m, i, j) + HolderDistance(states[j], m, p) <= HolderDistance(states[i], m, p) < MAX_PROCS
    decreases j - i
  {
    AwaitedExists(states, entries, n, clock, i, m, p);
    if i < j {
      CloserToMutex(states, entries, n, clock, i, m, p);
      BoundedMutexWaiting(states, entries, n, clock, i + 1, j, m, p);
    }
  }

  // --- Locks of the dead ---

  predicate Dead(p: Process) {
    p.state.Exited? || p.state.Killed?
  }

  /** The mutex is locked by a process that has ended. */
  predicate HeldByDead(s: Kernel, m: nat)
    requires Sized(s)
  {
    m in s.mutexes && s.mutexes[m].depth > 0 && s.mutexes[m].holder < MAX_PROCS && Dead(s.procs[s.mutexes[m].holder])
  }

  /** A dying process keeps a lock exactly when it held more than one level of it, or the traversal missed it. */
  lemma DeadHolderIff(s: Kernel, end: RunState, code: nat, visited: seq<nat>, signal: Bytes, m: nat)
    requires Inv(s) && s.current.Some? && (end.Exited? || end.Killed?) && Ascending(visited) && WellFormed(signal)
    requires Holds(s, m, s.current.value)
    ensures var s' := Terminate(s, end, code, visited, signal);
      && Sized(s') && (Holds(s', m, s.current.value) <==> s.mutexes[m].depth > 1 || m !in visited)
      && (HeldByDead(s', m) <==> s.mutexes[m].depth > 1 || m !in visited)
  {
    TerminateMutex(s, end, code, visited, signal, m);
    TerminateSound(s, end, code, visited, signal);
    TerminateWakes(s, end, code, visited, signal);
    assert NextOwner(s.procs, m, s.current).Some? ==> NextOwner(s.procs, m, s.current).value != s.current.value;
  }

  lemma StrandedStep(s: Kernel, e: Entry, m: nat)
    requires Inv(s) && CanEnter(s, e) && m in s.mutexes && s.mutexes[m].depth > 0
    requires s.current != Some(s.mutexes[m].holder)
    ensures Sized(Enter(s, e)) && m in Enter(s, e).mutexes && Enter(s, e).mutexes[m] == s.mutexes[m]
    ensures forall p :: 0 <= p < MAX_PROCS && WaitsFor(s.procs[p], OnMutex(m)) ==>
      WaitsFor(Enter(s, e).procs[p], OnMutex(m))
  {
    EntryMutexStep(s, e, m);
    assert NextOwner(s.procs, m, s.current).Some? ==> NextOwner(s.procs, m, s.current).value != s.mutexes[m].holder;
  }

  /** Exit or a fault, with the mutexes that the traversal visits. */
  predicate EndsProcess(e: Entry, visited: seq<nat>) {
    || (e.Fault? && e.visited == visited)
    || (e.Syscall? && e.call.Exit? && e.call.visited == visited)
  }

  /** The end of a process leaves a mutex that it held to the dead exactly under the same condition. */
  lemma DeathStrandsIff(s: Kernel, e: Entry, visited: seq<nat>, m: nat)
    requires Inv(s) && CanEnter(s, e) && EndsProcess(e, visited) && Holds(s, m, s.current.value)
    ensures Sized(Enter(s, e))
    ensures HeldByDead(Enter(s, e), m) <==> s.mutexes[m].depth > 1 || m !in visited
  {
    var s1, s' := EntrySplits(s, e);
    if e.Fault? {
      DeadHolderIff(s, Killed, e.reason, visited, e.signal, m);
    } else {
      DeadHolderIff(s, Exited, e.call.code % 256, visited, e.call.signal, m);
    }
    if Reschedules(s, e) { ScheduleKeepsDead(s1, s', e.clock, m); }
  }

  lemma ScheduleKeepsDead(s: Kernel, s': Kernel, clock: nat, m: nat)
    requires Sized(s) && Sized(s') && ScheduleStep(s, s', clock)
    ensures HeldByDead(s', m) <==> HeldByDead(s, m)
  {
    if m in s.mutexes && s.mutexes[m].holder < MAX_PROCS {
      var h := s.mutexes[m].holder;
      assert Rescheduled(s.procs[h], s'.procs[h], s'.current == Some(h), clock);
    }
  }

  lemma StrandedInRun(states: seq<Kernel>, entries: seq<Entry>, n: nat, clock: nat, k: nat, m: nat)
    requires IsRun(states, entries, n, clock) && k < |entries| && HeldByDead(states[k], m)
    ensures HeldByDead(states[k + 1], m) && states[k + 1].mutexes[m] == states[k].mutexes[m]
    ensures forall p :: 0 <= p < MAX_PROCS && WaitsFor(states[k].procs[p], OnMutex(m)) ==>
      WaitsFor(states[k + 1].procs[p], OnMutex(m))
  {
    var s, e, s' := RunStep(states, entries, n, clock, k);
    StrandedStep(s, e, m);
    DeadStays(s, e, s.mutexes[m].holder);
  }

  /** A lock of a dead process is never released, and whoever waits for it waits in every later state. */
  lemma {:induction false} StrandedForever(states: seq<Kernel>, entries: seq<Entry>, n: nat, clock: nat,
                                           i: nat, j: nat, m: nat)
    requires IsRun(states, entries, n, clock) && i <= j < |states| && HeldByDead(states[i], m)
    ensures HeldByDead(states[j], m) && states[j].mutexes[m] == states[i].mutexes[m]
    ensures forall p :: 0 <= p < MAX_PROCS && WaitsFor(states[i].procs[p], OnMutex(m)) ==>
      WaitsFor(states[j].procs[p], OnMutex(m))
    decreases j - i
  {
    if i < j {
      StrandedInRun(states, entries, n, clock, i, m);
      StrandedForever(states, entries, n, clock, i + 1, j, m);
    }
  }

  // --- Queues that are gone ---

  /** The id has been given out, or there are none left to give out. */
  predicate Spent(s: Kernel, q: nat) {
    s.nextQueue == 0 || q < s.nextQueue
  }

  /** New queues come under the next id only, and ids are only counted up. */
  ghost predicate QueuesMove(s: Kernel, s': Kernel) {
    || (s'.nextQueue == s.nextQueue && s'.queues.Keys <= s.queues.Keys)
    || (s.nextQueue != 0 && s'.nextQueue == NextId(s.nextQueue) && s'.queues.Keys <= s.queues.Keys + {s.nextQueue})
  }

  lemma {:induction false} PushAllQueues(s: Kernel, notified: seq<nat>, msg: Bytes)
    ensures PushAll(s, notified, msg).queues.Keys == s.queues.Keys
    ensures PushAll(s, notified, msg).nextQueue == s.nextQueue
    decreases |notified|
  {
    if notified != [] { PushAllQueues(PushTo(s, notified[0], msg).0, notified[1..], msg); }
  }

  lemma TerminateQueues(s: Kernel, end: RunState, code: nat, visited: seq<nat>, signal: Bytes)
    requires Inv(s) && s.current.Some? && (end.Exited? || end.Killed?)
    ensures QueuesMove(s, Terminate(s, end, code, visited, signal))
  {
    var s0 := Marked(s, end, code);
    assert Calmer(s.procs, s0.procs);
    CalmerKeeps(s, s0);
    UnlockVisitedKeeps(s0, s.current.value, visited);
  }

  lemma HandledQueues(s: Kernel, e: Entry)
    requires Inv(s) && CanEnter(s, e)
    ensures QueuesMove(s, Handled(s, e))
  {
    match e
    case Syscall(call, _) => CallQueues(s, call);
    case Fault(reason, visited, signal, _) => TerminateQueues(s, Killed, reason, visited, signal);
    case Interrupt(notified, msg, _) => PushAllQueues(s, notified, msg);
  }

  lemma CallQueues(s: Kernel, call: Call)
    requires Inv(s) && s.current.Some? && Enabled(s, call)
    ensures QueuesMove(s, Handle(s, call).0)
  {
    match call
    case Exit(code, visited, signal) => TerminateQueues(s, Exited, code % 256, visited, signal);
    case UnlockMutex(m) => if Holds(s, m, s.current.value) { UnlockOnceKeeps(s, m); }
    case _ =>
  }

  /** A caller starts to wait for messages only at a queue that is there. */
  lemma NewWaitExists(s: Kernel, e: Entry, q: nat)
    requires Inv(s) && CanEnter(s, e) && s.current.Some?
    requires WaitsFor(Handled(s, e).procs[s.current.value], OnMessage(q))
    ensures q in s.queues
  {
    match e
    case Syscall(call, _) => NewWaitOfCall(s, call, q);
    case Fault(reason, visited, signal, _) =>
      TerminateSound(s, Killed, reason, visited, signal);
      assert false;
    case Interrupt(notified, msg, _) =>
      PushAllSound(s, notified, msg);
      assert false;
  }

  lemma NewWaitOfCall(s: Kernel, call: Call, q: nat)
    requires Inv(s) && s.current.Some? && Enabled(s, call)
    requires var s1 := Handle(s, call).0; |s1.procs| == MAX_PROCS && WaitsFor(s1.procs[s.current.value], OnMessage(q))
    ensures q in s.queues
  {
    match call
    case UnlockMutex(m) => if Holds(s, m, s.current.value) { UnlockOnceKeeps(s, m); }
    case Exit(code, visited, signal) => TerminateSound(s, Exited, code % 256, visited, signal);
    case Clone => FreePidIsEmpty(s.procs, 0);
    case _ =>
  }

  /** Whoever waits for a message waits at a queue whose id was given out. */
  ghost predicate WaitsSpent(s: Kernel)
    requires Sized(s)
  {
    forall p, q :: 0 <= p < MAX_PROCS && WaitsFor(s.procs[p], OnMessage(q)) ==> Spent(s, q)
  }

  lemma StaysSpent(s: Kernel, s': Kernel, q: nat)
    requires IdsBounded(s) && QueuesMove(s, s') && Spent(s, q)
    ensures Spent(s', q) && (q !in s.queues ==> q !in s'.queues)
  {
  }

  lemma EntryKeepsSpent(s: Kernel, e: Entry)
    requires Inv(s) && CanEnter(s, e) && WaitsSpent(s)
    ensures Sized(Enter(s, e)) && WaitsSpent(Enter(s, e))
  {
    var s1, s' := EntrySplits(s, e);
    HandledQueues(s, e);
    forall p, q | 0 <= p < MAX_PROCS && WaitsFor(s'.procs[p], OnMessage(q))
      ensures Spent(s', q)
    {
      assert Reschedules(s, e) ==> Rescheduled(s1.procs[p], s'.procs[p], s'.current == Some(p), e.clock);
      if s.current == Some(p) { NewWaitExists(s, e, q); }
      StaysSpent(s, s1, q);
    }
  }

  lemma {:induction false} NobodyWaitsAtBoot(n: nat)
    requires n <= MAX_PROCS
    ensures forall p :: 0 <= p < MAX_PROCS ==> !Boot(n).procs[p].state.Waiting?
  {
    if n > 0 { NobodyWaitsAtBoot(n - 1); }
  }

  lemma StartsSpent(n: nat, clock: nat)
    requires n <= MAX_PROCS
    ensures Sized(ScheduleNext(Boot(n), clock)) && WaitsSpent(ScheduleNext(Boot(n), clock))
  {
    NobodyWaitsAtBoot(n);
    assert Preempt(Boot(n)) == Boot(n).procs;
  }

  lemma {:induction false} RunWaitsSpent(states: seq<Kernel>, entries: seq<Entry>, n: nat, clock: nat, k: nat)
    requires IsRun(states, entries, n, clock) && k < |states|
    ensures WaitsSpent(states[k])
    decreases k
  {
    if k == 0 {
      StartsSpent(n, clock);
    } else {
      RunWaitsSpent(states, entries, n, clock, k - 1);
      SpentInRun(states, entries, n, clock, k - 1);
    }
  }

  lemma SpentInRun(states: seq<Kernel>, entries: seq<Entry>, n: nat, clock: nat, k: nat)
    requires IsRun(states, entries, n, clock) && k < |entries| && WaitsSpent(states[k])
    ensures WaitsSpent(states[k + 1])
  {
    var s, e, s' := RunStep(states, entries, n, clock, k);
    EntryKeepsSpent(s, e);
  }

  lemma GoneStep(states: seq<Kernel>, entries: seq<Entry>, n: nat, clock: nat, k: nat, p: nat, q: nat)
    requires IsRun(states, entries, n, clock) && k < |entries| && p < MAX_PROCS
    requires WaitsFor(states[k].procs[p], OnMessage(q)) && q !in states[k].queues
    ensures WaitsFor(states[k + 1].procs[p], OnMessage(q)) && q !in states[k + 1].queues
  {
    RunWaitsSpent(states, entries, n, clock, k);
    var s, e, s' := RunStep(states, entries, n, clock, k);
    var s1, _ := EntrySplits(s, e);
    HandledQueues(s, e);
    StaysSpent(s, s1, q);
    Undisturbed(s, e, p, OnMessage(q));
    assert Reschedules(s, e) ==> Rescheduled(s1.procs[p], s'.procs[p], s'.current == Some(p), e.clock);
  }

  /** Ids are never given out again: whoever waits at a queue that is gone waits in every later state. */
  lemma {:induction false} GoneForever(states: seq<Kernel>, entries: seq<Entry>, n: nat, clock: nat,
                                       i: nat, j: nat, p: nat, q: nat)
    requires IsRun(states, entries, n, clock) && i <= j < |states| && p < MAX_PROCS
    requires WaitsFor(states[i].procs[p], OnMessage(q)) && q !in states[i].queues
    ensures WaitsFor(states[j].procs[p], OnMessage(q)) && q !in states[j].queues
    decreases j - i
  {
    if i < j {
      GoneStep(states, entries, n, clock, i, p, q);
      GoneForever(states, entries, n, clock, i + 1, j, p, q);
    }
  }
}
