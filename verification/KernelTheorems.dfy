/** What single entries and whole runs guarantee to processes. */
module KernelTheorems {
  import opened Basics
  import opened Messages
  import opened KernelState
  import opened KernelInvariants

  // --- Mutual exclusion ---

  /** What one unlock by the holder makes of a mutex: one level less, or the first waiter's. */
  function AfterUnlock(s: Kernel, m: nat): Mutex
    requires Sized(s) && m in s.mutexes && s.mutexes[m].depth > 0
  {
    var x := s.mutexes[m];
    if x.depth > 1 then Mutex(x.depth - 1, x.holder)
    else match NextOwner(s.procs, m, s.current)
      case None => Mutex(0, x.holder)
      case Some(w) => Mutex(1, w)
  }

  ghost predicate SameWaiters(a: seq<Process>, b: seq<Process>, m: nat) {
    && |a| == |b| == MAX_PROCS
    && forall p :: 0 <= p < MAX_PROCS ==> (WaitsFor(a[p], OnMutex(m)) <==> WaitsFor(b[p], OnMutex(m)))
  }

  /** Nobody leaves the mutex's waiters except the one who now owns it. */
  ghost predicate OnlyOwnerWoken(s: Kernel, s': Kernel, m: nat)
    requires Sized(s) && Sized(s') && m in s.mutexes && s.mutexes[m].depth > 0
  {
    forall p :: 0 <= p < MAX_PROCS && WaitsFor(s.procs[p], OnMutex(m)) && !WaitsFor(s'.procs[p], OnMutex(m)) ==>
      s.mutexes[m].depth == 1 && AfterUnlock(s, m) == Mutex(1, p)
  }

  lemma {:induction false} FirstWaiterSame(a: seq<Process>, b: seq<Process>, m: nat, at: nat, end: nat)
    requires SameWaiters(a, b, m)
    ensures FirstWaiter(a, m, at, end) == FirstWaiter(b, m, at, end)
    decreases end - at
  {
    if at < end { FirstWaiterSame(a, b, m, at + 1, end); }
  }

  /** Visiting another mutex leaves `m`, its waiters and what its next unlock does alone. */
  lemma VisitOther(s: Kernel, s1: Kernel, pid: nat, v: nat, m: nat)
    requires Sized(s) && NoLostMutexWakeup(s) && m in s.mutexes && v != m
    requires s1 == if Holds(s, v, pid) then UnlockOnce(s, v) else s
    ensures Sized(s1) && NoLostMutexWakeup(s1) && m in s1.mutexes && s1.mutexes[m] == s.mutexes[m]
    ensures SameWaiters(s.procs, s1.procs, m)
    ensures s.mutexes[m].depth > 0 ==> AfterUnlock(s1, m) == AfterUnlock(s, m)
  {
    if Holds(s, v, pid) { UnlockOnceKeeps(s, v); }
    FirstWaiterSame(s.procs, s1.procs, m, Position(s.current), Position(s.current) + MAX_PROCS);
  }

  /** Visiting each mutex once: `m` changes only if the process holds it, and then by one unlock. */
  lemma {:induction false} UnlockVisitedMutex(s: Kernel, pid: nat, visited: seq<nat>, m: nat)
    requires Sized(s) && NoLostMutexWakeup(s) && Ascending(visited) && m in s.mutexes
    ensures m in UnlockVisited(s, pid, visited).mutexes
    ensures UnlockVisited(s, pid, visited).mutexes[m]
         == if m in visited && Holds(s, m, pid) then AfterUnlock(s, m) else s.mutexes[m]
    ensures !(m in visited && Holds(s, m, pid)) ==> SameWaiters(s.procs, UnlockVisited(s, pid, visited).procs, m)
    ensures m in visited && Holds(s, m, pid) ==> OnlyOwnerWoken(s, UnlockVisited(s, pid, visited), m)
    decreases |visited|
  {
    if visited != [] {
      var v, rest := visited[0], visited[1..];
      var s1 := if Holds(s, v, pid) then UnlockOnce(s, v) else s;
      if v == m {
        assert m !in rest;
        if Holds(s, v, pid) { UnlockOnceKeeps(s, v); }
      } else {
        VisitOther(s, s1, pid, v, m);
      }
      UnlockVisitedMutex(s1, pid, rest, m);
    }
  }

  /** What termination of the current process does to a mutex and its waiters. */
  lemma TerminateMutex(s: Kernel, end: RunState, code: nat, visited: seq<nat>, signal: Bytes, m: nat)
    requires Inv(s) && s.current.Some? && Ascending(visited) && WellFormed(signal) && (end.Exited? || end.Killed?)
    requires m in s.mutexes && s.mutexes[m].depth > 0
    ensures var s' := Terminate(s, end, code, visited, signal);
      && Sized(s') && m in s'.mutexes && OnlyOwnerWoken(s, s', m)
      && (if m in visited && s.mutexes[m].holder == s.current.value then s'.mutexes[m] == AfterUnlock(s, m)
          else s'.mutexes[m] == s.mutexes[m] && SameWaiters(s.procs, s'.procs, m))
  {
    var p := s.current.value;
    var s0 := Marked(s, end, code);
    MarkedMutex(s, end, code, m);
    UnlockVisitedMutex(s0, p, visited, m);
    CleanupMutex(s0, p, visited, signal, m);
    SameWaitersSameStep(s, s0, UnlockVisited(s0, p, visited), Terminate(s, end, code, visited, signal), m);
  }

  function Marked(s: Kernel, end: RunState, code: nat): Kernel
    requires Sized(s) && s.current.Some?
  {
    var p := s.current.value;
    s.(procs := s.procs[p := s.procs[p].(state := end, exitCode := code)])
  }

  lemma MarkedMutex(s: Kernel, end: RunState, code: nat, m: nat)
    requires Inv(s) && s.current.Some? && (end.Exited? || end.Killed?) && m in s.mutexes && s.mutexes[m].depth > 0
    ensures Sized(Marked(s, end, code)) && NoLostMutexWakeup(Marked(s, end, code))
    ensures SameWaiters(s.procs, Marked(s, end, code).procs, m)
    ensures AfterUnlock(Marked(s, end, code), m) == AfterUnlock(s, m)
  {
    var s0 := Marked(s, end, code);
    assert Calmer(s.procs, s0.procs);
    CalmerKeeps(s, s0);
    FirstWaiterSame(s.procs, s0.procs, m, Position(s.current), Position(s.current) + MAX_PROCS);
  }

  lemma SameWaitersSameStep(s: Kernel, s0: Kernel, s1: Kernel, s': Kernel, m: nat)
    requires Sized(s) && Sized(s0) && Sized(s1) && Sized(s')
    requires m in s.mutexes && s.mutexes[m].depth > 0 && m in s0.mutexes && s0.mutexes[m] == s.mutexes[m]
    requires AfterUnlock(s0, m) == AfterUnlock(s, m)
    requires SameWaiters(s.procs, s0.procs, m) && SameWaiters(s1.procs, s'.procs, m)
    ensures OnlyOwnerWoken(s0, s1, m) ==> OnlyOwnerWoken(s, s', m)
    ensures SameWaiters(s0.procs, s1.procs, m) ==> OnlyOwnerWoken(s, s', m) && SameWaiters(s.procs, s'.procs, m)
  {
  }

  /** Past the unlocking, cleaning up a process touches no mutex and nobody who waits for one. */
  lemma CleanupMutex(s: Kernel, pid: nat, visited: seq<nat>, signal: Bytes, m: nat)
    requires Sized(s) && pid < MAX_PROCS
    ensures Cleanup(s, pid, visited, signal).mutexes == UnlockVisited(s, pid, visited).mutexes
    ensures Sized(Cleanup(s, pid, visited, signal))
    ensures SameWaiters(UnlockVisited(s, pid, visited).procs, Cleanup(s, pid, visited, signal).procs, m)
  {
  }

  /** A step leaves a held mutex and its waiters alone, or lets its holder lock it once more or unlock it once. */
  ghost predicate MutexStep(s: Kernel, s': Kernel, m: nat)
    requires Sized(s) && Sized(s') && m in s.mutexes && s.mutexes[m].depth > 0
  {
    && m in s'.mutexes && OnlyOwnerWoken(s, s', m)
    && (s'.mutexes[m] == s.mutexes[m]
        || (s.current == Some(s.mutexes[m].holder)
            && (|| s'.mutexes[m] == Mutex(s.mutexes[m].depth + 1, s.mutexes[m].holder)
                || s'.mutexes[m] == AfterUnlock(s, m))))
    && (s'.mutexes[m] != AfterUnlock(s, m) ==>
          forall p :: 0 <= p < MAX_PROCS && WaitsFor(s.procs[p], OnMutex(m)) ==> WaitsFor(s'.procs[p], OnMutex(m)))
  }

  lemma LockMutexStep(s: Kernel, n: nat, trylock: bool, m: nat)
    requires Inv(s) && s.current.Some? && m in s.mutexes && s.mutexes[m].depth > 0
    ensures MutexStep(s, Lock(s, n, trylock).0, m)
  {
  }

  lemma UnlockMutexStep(s: Kernel, n: nat, m: nat)
    requires Inv(s) && s.current.Some? && m in s.mutexes && s.mutexes[m].depth > 0
    ensures Sized(Unlock(s, n).0) && MutexStep(s, Unlock(s, n).0, m)
  {
    if n in s.mutexes && s.mutexes[n].depth > 0 && s.mutexes[n].holder == s.current.value {
      UnlockOnceKeeps(s, n);
      if n != m { assert SameWaiters(s.procs, UnlockOnce(s, n).procs, m); }
    }
  }

  /** Steps that leave all held mutexes and all who wait for one alone. */
  lemma UntouchedMutexStep(s: Kernel, s': Kernel, m: nat)
    requires Sized(s) && Sized(s') && m in s.mutexes && s.mutexes[m].depth > 0
    requires m in s'.mutexes && s'.mutexes[m] == s.mutexes[m]
    requires forall p :: 0 <= p < MAX_PROCS && WaitsFor(s.procs[p], OnMutex(m)) ==> s'.procs[p] == s.procs[p]
    ensures MutexStep(s, s', m)
  {
  }

  lemma HandleMutexStep(s: Kernel, call: Call, m: nat)
    requires Inv(s) && s.current.Some? && Enabled(s, call) && m in s.mutexes && s.mutexes[m].depth > 0
    ensures Sized(Handle(s, call).0) && MutexStep(s, Handle(s, call).0, m)
  {
    match call
    case LockMutex(n, trylock) => LockMutexStep(s, n, trylock, m);
    case UnlockMutex(n) => UnlockMutexStep(s, n, m);
    case Exit(code, visited, signal) => TerminateMutex(s, Exited, code % 256, visited, signal, m);
    case Clone =>
      FreePidIsEmpty(s.procs, 0);
      UntouchedMutexStep(s, Handle(s, call).0, m);
    case _ => UntouchedMutexStep(s, Handle(s, call).0, m);
  }

  /** What picking the next process does to one row of the process table. */
  ghost predicate Rescheduled(p: Process, p': Process, chosen: bool, clock: nat) {
    && (chosen ==> Ready(p, clock) || p.state.Running?)
    && p' == (if chosen then p.(state := Running) else if p.state.Running? then p.(state := Runnable) else p)
  }

  ghost predicate ScheduleStep(s: Kernel, s': Kernel, clock: nat)
    requires Sized(s) && Sized(s')
  {
    && s' == s.(procs := s'.procs, current := s'.current, last := s'.last)
    && (s'.last == if s'.current.Some? then s'.current else s.last)
    && forall p :: 0 <= p < MAX_PROCS ==> Rescheduled(s.procs[p], s'.procs[p], s'.current == Some(p), clock)
  }

  lemma ScheduleNextFrame(s: Kernel, clock: nat)
    requires Sound(s)
    ensures Sized(ScheduleNext(s, clock)) && ScheduleStep(s, ScheduleNext(s, clock), clock)
  {
  }

  /** An entry is a handler followed, where the processor is given up, by a scheduling step. */
  lemma EntrySplits(s: Kernel, e: Entry) returns (s1: Kernel, s': Kernel)
    requires Inv(s) && CanEnter(s, e)
    ensures s1 == Handled(s, e) && s' == Enter(s, e)
    ensures Sound(s1) && Sized(s') && OthersWoken(s, s1) && s1.last == s.last && s1.current == s.current
    ensures if Reschedules(s, e) then ScheduleStep(s1, s', e.clock) else s' == s1
  {
    s1, s' := Handled(s, e), Enter(s, e);
    HandledSound(s, e);
    HandledTable(s, e);
    if Reschedules(s, e) { ScheduleNextFrame(s1, e.clock); }
  }

  /** Over any entry, a held mutex changes hands only when its holder gives up the last level. */
  lemma EntryMutexStep(s: Kernel, e: Entry, m: nat)
    requires Inv(s) && CanEnter(s, e) && m in s.mutexes && s.mutexes[m].depth > 0
    ensures Sized(Enter(s, e)) && MutexStep(s, Enter(s, e), m)
  {
    var s1, s' := EntrySplits(s, e);
    match e {
      case Syscall(call, _) => HandleMutexStep(s, call, m);
      case Fault(reason, visited, signal, _) => TerminateMutex(s, Killed, reason, visited, signal, m);
      case Interrupt(notified, msg, _) => PushAllMutex(s, notified, msg);
    }
    assert MutexStep(s, s1, m);
    if Reschedules(s, e) { ScheduleKeepsMutexStep(s, s1, s', e.clock, m); }
  }

  lemma ScheduleKeepsMutexStep(s: Kernel, s1: Kernel, s': Kernel, clock: nat, m: nat)
    requires Sized(s) && Sized(s1) && Sized(s') && m in s.mutexes && s.mutexes[m].depth > 0
    requires MutexStep(s, s1, m) && ScheduleStep(s1, s', clock)
    ensures MutexStep(s, s', m)
  {
    forall p | 0 <= p < MAX_PROCS
      ensures WaitsFor(s'.procs[p], OnMutex(m)) <==> WaitsFor(s1.procs[p], OnMutex(m))
    {
      assert Rescheduled(s1.procs[p], s'.procs[p], s'.current == Some(p), clock);
    }
  }

  lemma {:induction false} PushAllMutex(s: Kernel, notified: seq<nat>, msg: Bytes)
    requires Sized(s)
    ensures var s' := PushAll(s, notified, msg);
      && Sized(s') && s'.mutexes == s.mutexes && s'.last == s.last
      && forall p :: 0 <= p < MAX_PROCS && !(s.procs[p].state.Waiting? && s.procs[p].wait.OnMessage?) ==>
           s'.procs[p] == s.procs[p]
    decreases |notified|
  {
    if notified != [] { PushAllMutex(PushTo(s, notified[0], msg).0, notified[1..], msg); }
  }

  /** A process that blocked in lock leaves the wait only as the owner, at depth one. */
  lemma BlockedBecomesOwner(s: Kernel, e: Entry, p: nat, m: nat)
    requires Inv(s) && CanEnter(s, e) && p < MAX_PROCS && WaitsFor(s.procs[p], OnMutex(m))
    requires !WaitsFor(Enter(s, e).procs[p], OnMutex(m))
    ensures m in Enter(s, e).mutexes && Enter(s, e).mutexes[m] == Mutex(1, p)
    ensures Alive(Enter(s, e).procs[p])
    ensures NextOwner(s.procs, m, s.current) == Some(p)
    ensures m in s.mutexes && s.mutexes[m].depth == 1 && s.current == Some(s.mutexes[m].holder)
  {
    EntryMutexStep(s, e, m);
    WaiterStaysAlive(s, e, p);
  }

  lemma WaiterStaysAlive(s: Kernel, e: Entry, p: nat)
    requires Inv(s) && CanEnter(s, e) && p < MAX_PROCS && s.procs[p].state.Waiting?
    ensures Alive(Enter(s, e).procs[p])
  {
    var s1, s' := EntrySplits(s, e);
    assert Reschedules(s, e) ==> Rescheduled(s1.procs[p], s'.procs[p], s'.current == Some(p), e.clock);
  }

  /** Handlers touch processes other than the caller only to wake or to create them. */
  ghost predicate OthersWoken(s: Kernel, s': Kernel)
    requires Sized(s) && Sized(s')
  {
    forall p :: 0 <= p < MAX_PROCS && s.current != Some(p) ==>
      || s'.procs[p] == s.procs[p]
      || (s.procs[p].state.Waiting? && s'.procs[p] == s.procs[p].(state := Runnable))
      || (s.procs[p].state.Empty? && s'.procs[p].state.Runnable?)
  }

  lemma HandleTable(s: Kernel, call: Call)
    requires Inv(s) && s.current.Some? && Enabled(s, call)
    ensures Sized(Handle(s, call).0) && OthersWoken(s, Handle(s, call).0)
  {
    match call
    case UnlockMutex(n) => if Holds(s, n, s.current.value) { UnlockOnceKeeps(s, n); }
    case Exit(code, visited, signal) => TerminateWakes(s, Exited, code % 256, visited, signal);
    case Clone => FreePidIsEmpty(s.procs, 0);
    case _ =>
  }

  lemma HandledTable(s: Kernel, e: Entry)
    requires Inv(s) && CanEnter(s, e)
    ensures OthersWoken(s, Handled(s, e)) && Handled(s, e).last == s.last
    ensures e.Interrupt? ==> Wakes(s.procs, Handled(s, e).procs)
  {
    match e
    case Syscall(call, _) => HandleTable(s, call); HandleLast(s, call);
    case Fault(reason, visited, signal, _) =>
      TerminateWakes(s, Killed, reason, visited, signal);
      TerminateSound(s, Killed, reason, visited, signal);
    case Interrupt(notified, msg, _) => PushAllSound(s, notified, msg); PushAllMutex(s, notified, msg);
  }

  lemma HandleLast(s: Kernel, call: Call)
    requires Inv(s) && s.current.Some? && Enabled(s, call)
    ensures Handle(s, call).0.last == s.last
  {
    HandleSound(s, call);
  }

  /** Termination marks the current process and wakes others; it does nothing else to the table. */
  lemma TerminateWakes(s: Kernel, end: RunState, code: nat, visited: seq<nat>, signal: Bytes)
    requires Inv(s) && s.current.Some? && WellFormed(signal) && (end.Exited? || end.Killed?)
    ensures var p := s.current.value;
      Wakes(s.procs[p := s.procs[p].(state := end, exitCode := code)], Terminate(s, end, code, visited, signal).procs)
  {
    var p := s.current.value;
    var s0 := s.(procs := s.procs[p := s.procs[p].(state := end, exitCode := code)]);
    assert Calmer(s.procs, s0.procs);
    CalmerKeeps(s, s0);
    CleanupSound(s0, p, visited, signal);
  }

  /** One step of a run: the holder stays, or it is running and gives up its last level. */
  lemma HolderStep(states: seq<Kernel>, entries: seq<Entry>, n: nat, clock: nat, k: nat, m: nat)
    requires IsRun(states, entries, n, clock) && k < |entries| && m in states[k].mutexes
    requires states[k].mutexes[m].depth > 0
    ensures m in states[k + 1].mutexes
    ensures var a, b := states[k].mutexes[m], states[k + 1].mutexes[m];
      || (b.depth > 0 && b.holder == a.holder)
      || (a.depth == 1 && states[k].current == Some(a.holder) && b == AfterUnlock(states[k], m))
  {
    var s, e, s' := RunStep(states, entries, n, clock, k);
    EntryMutexStep(s, e, m);
  }

  /** Over whole runs: between two different holders, the first one gave up its last level itself. */
  lemma {:induction false} HolderReleases(states: seq<Kernel>, entries: seq<Entry>, n: nat, clock: nat, i: nat,
                                          j: nat, m: nat)
    returns (k: nat)
    requires IsRun(states, entries, n, clock) && i < j < |states|
    requires m in states[i].mutexes && states[i].mutexes[m].depth > 0
    requires m !in states[j].mutexes || states[j].mutexes[m].depth == 0
             || states[j].mutexes[m].holder != states[i].mutexes[m].holder
    ensures i <= k < j && m in states[k].mutexes
    ensures states[k].mutexes[m] == Mutex(1, states[i].mutexes[m].holder)
    ensures states[k].current == Some(states[i].mutexes[m].holder)
    ensures m in states[k + 1].mutexes && states[k + 1].mutexes[m] == AfterUnlock(states[k], m)
    decreases j - i
  {
    HolderStep(states, entries, n, clock, i, m);
    var a, b := states[i].mutexes[m], states[i + 1].mutexes[m];
    if b.depth == 0 || b.holder != a.holder {
      k := i;
    } else {
      k := HolderReleases(states, entries, n, clock, i + 1, j, m);
    }
  }

  // --- The process table ---

  /** Exited and killed processes never change again. */
  lemma DeadStays(s: Kernel, e: Entry, p: nat)
    requires Inv(s) && CanEnter(s, e) && p < MAX_PROCS && (s.procs[p].state.Exited? || s.procs[p].state.Killed?)
    ensures |Enter(s, e).procs| == MAX_PROCS && Enter(s, e).procs[p] == s.procs[p]
  {
    var s1, s' := EntrySplits(s, e);
    assert Reschedules(s, e) ==> Rescheduled(s1.procs[p], s'.procs[p], s'.current == Some(p), e.clock);
  }

  /** One step of a run, from a state in which the invariant holds. */
  lemma RunStep(states: seq<Kernel>, entries: seq<Entry>, n: nat, clock: nat, k: nat)
    returns (s: Kernel, e: Entry, s': Kernel)
    requires IsRun(states, entries, n, clock) && k < |entries|
    ensures s == states[k] && e == entries[k] && s' == states[k + 1]
    ensures Inv(s) && CanEnter(s, e) && s' == Enter(s, e)
  {
    s, e, s' := states[k], entries[k], states[k + 1];
    assert IsStep(states, entries, k);
    RunInv(states, entries, n, clock, k);
  }

  lemma DeadStep(states: seq<Kernel>, entries: seq<Entry>, n: nat, clock: nat, k: nat, p: nat)
    requires IsRun(states, entries, n, clock) && k < |entries| && p < MAX_PROCS
    requires states[k].procs[p].state.Exited? || states[k].procs[p].state.Killed?
    ensures states[k + 1].procs[p] == states[k].procs[p]
  {
    var s, e, s' := RunStep(states, entries, n, clock, k);
    DeadStays(s, e, p);
  }

  lemma {:induction false} DeadForever(states: seq<Kernel>, entries: seq<Entry>, n: nat, clock: nat, i: nat, j: nat,
                                       p: nat)
    requires IsRun(states, entries, n, clock) && i <= j < |states| && p < MAX_PROCS
    requires states[i].procs[p].state.Exited? || states[i].procs[p].state.Killed?
    ensures states[j].procs[p] == states[i].procs[p]
    decreases j - i
  {
    if i < j {
      DeadStep(states, entries, n, clock, i, p);
      DeadForever(states, entries, n, clock, i + 1, j, p);
    }
  }

  /** A sleeper goes on only when it is picked, at a clock reading that reached its deadline. */
  lemma SleeperWakesOnTime(s: Kernel, e: Entry, p: nat, deadline: nat)
    requires Inv(s) && CanEnter(s, e) && p < MAX_PROCS && WaitsFor(s.procs[p], OnTime(deadline))
    requires !WaitsFor(Enter(s, e).procs[p], OnTime(deadline))
    ensures deadline <= e.clock && Reschedules(s, e) && Enter(s, e).current == Some(p)
  {
    var s1, s' := EntrySplits(s, e);
    Undisturbed(s, e, p, OnTime(deadline));
    assert Reschedules(s, e) ==> Rescheduled(s1.procs[p], s'.procs[p], s'.current == Some(p), e.clock);
  }

  /**
    No handler ends the wait: it is for time to pass, which is the scheduler's
    business, or for a queue that is gone.
   */
  predicate NobodyWakes(s: Kernel, w: Wait) {
    w.OnTime? || (w.OnMessage? && w.q !in s.queues)
  }

  lemma Undisturbed(s: Kernel, e: Entry, p: nat, w: Wait)
    requires Inv(s) && CanEnter(s, e) && p < MAX_PROCS && WaitsFor(s.procs[p], w) && NobodyWakes(s, w)
    ensures Handled(s, e).procs[p] == s.procs[p]
  {
    assert s.current != Some(p);
    match e
    case Syscall(call, _) => UndisturbedByCall(s, call, p, w);
    case Fault(reason, visited, signal, _) => UndisturbedByEnd(s, Killed, reason, visited, signal, p, w);
    case Interrupt(notified, msg, _) => UndisturbedByMessages(s, notified, msg, p, w);
  }

  lemma {:induction false} UndisturbedByMessages(s: Kernel, notified: seq<nat>, msg: Bytes, p: nat, w: Wait)
    requires Sized(s) && p < MAX_PROCS && WaitsFor(s.procs[p], w) && NobodyWakes(s, w)
    ensures PushAll(s, notified, msg).procs[p] == s.procs[p]
    decreases |notified|
  {
    if notified != [] { UndisturbedByMessages(PushTo(s, notified[0], msg).0, notified[1..], msg, p, w); }
  }

  lemma {:induction false} UndisturbedByUnlock(s: Kernel, pid: nat, visited: seq<nat>, p: nat, w: Wait)
    requires Sized(s) && p < MAX_PROCS && WaitsFor(s.procs[p], w) && NobodyWakes(s, w)
    ensures UnlockVisited(s, pid, visited).procs[p] == s.procs[p]
    ensures UnlockVisited(s, pid, visited).queues == s.queues
    decreases |visited|
  {
    if visited != [] {
      var s1 := if Holds(s, visited[0], pid) then UnlockOnce(s, visited[0]) else s;
      UndisturbedByUnlock(s1, pid, visited[1..], p, w);
    }
  }

  lemma UndisturbedByEnd(s: Kernel, end: RunState, code: nat, visited: seq<nat>, signal: Bytes, p: nat, w: Wait)
    requires Sized(s) && s.current.Some? && p < MAX_PROCS && s.current != Some(p)
    requires WaitsFor(s.procs[p], w) && NobodyWakes(s, w)
    ensures |Terminate(s, end, code, visited, signal).procs| == MAX_PROCS
    ensures Terminate(s, end, code, visited, signal).procs[p] == s.procs[p]
  {
    UndisturbedByUnlock(Marked(s, end, code), s.current.value, visited, p, w);
  }

  lemma UndisturbedByCall(s: Kernel, call: Call, p: nat, w: Wait)
    requires Inv(s) && s.current.Some? && Enabled(s, call)
    requires p < MAX_PROCS && s.current != Some(p) && WaitsFor(s.procs[p], w) && NobodyWakes(s, w)
    ensures |Handle(s, call).0.procs| == MAX_PROCS && Handle(s, call).0.procs[p] == s.procs[p]
  {
    match call
    case Exit(code, visited, signal) => UndisturbedByEnd(s, Exited, code % 256, visited, signal, p, w);
    case Clone => FreePidIsEmpty(s.procs, 0);
    case _ =>
  }

  /** A sleep of `ns` from `now` lasts until `now + ns`, exactly when that time still fits in 64 bits. */
  lemma SleepLastsUnlessClockOverflows(s: Kernel, ns: nat, now: nat)
    requires Inv(s) && s.current.Some? && 0 < ns < 0x1_0000_0000_0000_0000 && now < 0x1_0000_0000_0000_0000
    ensures var s' := Handle(s, Sleep(ns, now)).0;
      && s'.procs[s.current.value].state.Waiting? && s'.procs[s.current.value].wait.OnTime?
      && (s'.procs[s.current.value].wait.deadline >= now + ns <==> now + ns < 0x1_0000_0000_0000_0000)
  {
    var p := s.current.value;
    var s' := Handle(s, Sleep(ns, now)).0;
    assert s'.procs[p] == s.procs[p].(state := Waiting, wait := OnTime((now + ns) % 0x1_0000_0000_0000_0000));
  }

  lemma SleeperWakesInRun(states: seq<Kernel>, entries: seq<Entry>, n: nat, clock: nat, k: nat, p: nat, deadline: nat)
    requires IsRun(states, entries, n, clock) && k < |entries| && p < MAX_PROCS
    requires WaitsFor(states[k].procs[p], OnTime(deadline))
    ensures WaitsFor(states[k + 1].procs[p], OnTime(deadline))
         || (deadline <= entries[k].clock && states[k + 1].current == Some(p))
  {
    var s, e, s' := RunStep(states, entries, n, clock, k);
    if !WaitsFor(s'.procs[p], OnTime(deadline)) { SleeperWakesOnTime(s, e, p, deadline); }
  }

  lemma RunningInRun(states: seq<Kernel>, entries: seq<Entry>, n: nat, clock: nat, j: nat, p: nat)
    requires IsRun(states, entries, n, clock) && j < |states| && p < MAX_PROCS && states[j].current == Some(p)
    ensures states[j].procs[p].state.Running?
  {
    RunInv(states, entries, n, clock, j);
  }

  /** Over whole runs: whoever sleeps runs again only through a decision at or after the deadline. */
  lemma {:induction false} SleeperRunsLater(states: seq<Kernel>, entries: seq<Entry>, n: nat, clock: nat, i: nat,
                                            j: nat, p: nat, deadline: nat)
    returns (k: nat)
    requires IsRun(states, entries, n, clock) && i <= j < |states| && p < MAX_PROCS
    requires WaitsFor(states[i].procs[p], OnTime(deadline)) && states[j].current == Some(p)
    ensures i <= k < j && deadline <= entries[k].clock && states[k + 1].current == Some(p)
    ensures forall l :: i <= l <= k ==> WaitsFor(states[l].procs[p], OnTime(deadline))
    decreases j - i
  {
    RunningInRun(states, entries, n, clock, j, p);
    SleeperWakesInRun(states, entries, n, clock, i, p, deadline);
    if WaitsFor(states[i + 1].procs[p], OnTime(deadline)) {
      k := SleeperRunsLater(states, entries, n, clock, i + 1, j, p, deadline);
    } else {
      k := i;
    }
  }

  lemma SleepBlocks(s: Kernel, ns: nat, now: nat)
    requires Sized(s) && s.current.Some? && 0 < ns && now + ns < 0x1_0000_0000_0000_0000
    ensures var s1 := Handle(s, Sleep(ns, now)).0;
      Sized(s1) && WaitsFor(s1.procs[s.current.value], OnTime(now + ns)) && !CurrentRuns(s1)
  {
    assert (now + ns) % 0x1_0000_0000_0000_0000 == now + ns;
  }

  lemma SleepStep(s: Kernel, e: Entry, ns: nat, now: nat)
    requires Inv(s) && CanEnter(s, e) && e.Syscall? && e.call == Sleep(ns, now)
    requires 0 < ns && now + ns < 0x1_0000_0000_0000_0000
    ensures var p, s' := s.current.value, Enter(s, e);
      && Sized(s')
      && if s'.current == s.current then now + ns <= e.clock else WaitsFor(s'.procs[p], OnTime(now + ns))
  {
    SleepBlocks(s, ns, now);
    var s1, s' := EntrySplits(s, e);
    var p := s.current.value;
    SleeperPicked(s1.procs[p], s'.procs[p], s'.current == Some(p), now + ns, e.clock);
  }

  lemma SleeperPicked(p: Process, p': Process, chosen: bool, deadline: nat, clock: nat)
    requires Rescheduled(p, p', chosen, clock) && WaitsFor(p, OnTime(deadline))
    ensures if chosen then deadline <= clock else WaitsFor(p', OnTime(deadline))
  {
  }

  /**
    A process that asks at `now` to sleep for `ns` runs again only through a
    decision at a clock of `now + ns` or more.
   */
  lemma SleepLasts(states: seq<Kernel>, entries: seq<Entry>, n: nat, clock: nat, i: nat, j: nat, ns: nat, now: nat)
    returns (k: nat)
    requires IsRun(states, entries, n, clock) && i < j < |states|
    requires entries[i].Syscall? && entries[i].call == Sleep(ns, now)
    requires 0 < ns && now + ns < 0x1_0000_0000_0000_0000 && states[j].current == states[i].current
    ensures i <= k < j && now + ns <= entries[k].clock && states[k + 1].current == states[i].current
    ensures forall l :: i < l <= k ==> states[l].procs[states[i].current.value].state.Waiting?
  {
    var s, e, s' := RunStep(states, entries, n, clock, i);
    SleepStep(s, e, ns, now);
    if s'.current == s.current {
      k := i;
    } else {
      k := SleeperRunsLater(states, entries, n, clock, i + 1, j, s.current.value, now + ns);
    }
  }

  // --- Bounded waiting ---

  lemma DistanceShrinks(from: nat, q: nat, p: nat)
    requires from < MAX_PROCS && q < MAX_PROCS && p < MAX_PROCS && q != p
    requires Distance(from, q) <= Distance(from, p)
    ensures Distance(q, p) == Distance(from, p) - Distance(from, q)
  {
  }

  /** A scheduling step picks a process that can run, or someone who was ahead of it in the cycle. */
  lemma ScheduleNextCloser(s: Kernel, clock: nat, p: nat)
    requires Sound(s) && p < MAX_PROCS && s.current != Some(p) && Ready(s.procs[p], clock)
    ensures var s' := ScheduleNext(s, clock);
      && s'.current.Some? && s'.current.value < MAX_PROCS && s'.last == s'.current
      && (s'.current == Some(p) || Distance(s'.current.value, p) < Distance(Position(s.last), p))
  {
    var procs, from := Preempt(s), Position(s.last);
    NextInTurnNearest(procs, clock, s.last, p);
    var q := NextInTurn(procs, clock, s.last).value;
    if q != p { DistanceShrinks(from, q, p); }
  }

  /** A process that could run and is not picked in this entry is closer to its turn whenever one was taken. */
  lemma EntryBringsCloser(s: Kernel, e: Entry, p: nat)
    requires Inv(s) && CanEnter(s, e) && p < MAX_PROCS && Ready(s.procs[p], e.clock)
    requires Sized(Enter(s, e)) && Enter(s, e).current != Some(p)
    ensures if Reschedules(s, e) then Distance(Position(Enter(s, e).last), p) < Distance(Position(s.last), p)
            else Enter(s, e).last == s.last
  {
    var s1, s' := EntrySplits(s, e);
    assert s.current != Some(p) && Ready(s1.procs[p], e.clock);
    if Reschedules(s, e) {
      assert s' == ScheduleNext(s1, e.clock);
      ScheduleNextCloser(s1, e.clock, p);
    }
  }

  /** How often the processor was handed out in the run between states `i` and `j`. */
  ghost function Turns(states: seq<Kernel>, entries: seq<Entry>, n: nat, clock: nat, i: nat, j: nat): nat
    requires IsRun(states, entries, n, clock) && i <= j < |states|
    decreases j - i
  {
    if i == j then 0
    else (if Reschedules(states[i], entries[i]) then 1 else 0) + Turns(states, entries, n, clock, i + 1, j)
  }

  lemma CloserInRun(states: seq<Kernel>, entries: seq<Entry>, n: nat, clock: nat, k: nat, p: nat)
    requires IsRun(states, entries, n, clock) && k < |entries| && p < MAX_PROCS
    requires Ready(states[k].procs[p], entries[k].clock) && states[k + 1].current != Some(p)
    ensures Distance(Position(states[k + 1].last), p) + (if Reschedules(states[k], entries[k]) then 1 else 0)
         <= Distance(Position(states[k].last), p)
  {
    var s, e, s' := RunStep(states, entries, n, clock, k);
    EntryBringsCloser(s, e, p);
  }

  /**
    While a process could run, being runnable or a sleeper whose time has come,
    and is not picked, fewer than MAX_PROCS turns go to others.
   */
  lemma {:induction false} BoundedWaiting(states: seq<Kernel>, entries: seq<Entry>, n: nat, clock: nat, i: nat,
                                          j: nat, p: nat)
    requires IsRun(states, entries, n, clock) && i <= j < |states| && p < MAX_PROCS
    requires forall k :: i <= k < j ==> Ready(states[k].procs[p], entries[k].clock)
    requires forall k :: i < k <= j ==> states[k].current != Some(p)
    ensures Turns(states, entries, n, clock, i, j) < Distance(Position(states[i].last), p) <= MAX_PROCS
    decreases j - i
  {
    if i < j {
      CloserInRun(states, entries, n, clock, i, p);
      BoundedWaiting(states, entries, n, clock, i + 1, j, p);
    }
  }

  // --- Message delivery ---

  function Copies(notified: seq<nat>, q: nat, msg: Bytes): seq<Bytes> {
    if notified == [] then []
    else (if notified[0] == q then [msg] else []) + Copies(notified[1..], q, msg)
  }

  /** The SIGCHLD message a dying process leaves in queue `q`: its parent's, if that is alive. */
  function Obituary(s: Kernel, signal: Bytes, q: nat): seq<Bytes>
    requires Sized(s) && s.current.Some?
  {
    var parent := s.procs[s.current.value].parent;
    if parent.Some? && parent.value < MAX_PROCS && parent != s.current && Alive(s.procs[parent.value])
       && s.procs[parent.value].mq == q
    then [signal] else []
  }

  /** The messages an entry adds to queue `q`. */
  function Arrivals(s: Kernel, e: Entry, q: nat): seq<Bytes>
    requires Sized(s) && CanEnter(s, e)
  {
    match e
    case Syscall(Send(to, pid, msg), _) => if Target(s, to, pid) == q then [Stamped(msg, s.current.value)] else []
    case Syscall(Exit(_, _, signal), _) => Obituary(s, signal, q)
    case Fault(_, _, signal, _) => Obituary(s, signal, q)
    case Interrupt(notified, msg, _) => Copies(notified, q, msg)
    case _ => []
  }

  /** The messages an entry takes out of queue `q`: the head, when a poll has room for it. */
  function Departures(s: Kernel, e: Entry, q: nat): seq<Bytes>
    requires Sized(s) && CanEnter(s, e)
  {
    match e
    case Syscall(Poll(from, _, room), _) =>
      var own := if from == 0 then s.procs[s.current.value].mq else from;
      if own == q && q in s.queues && Takes(s.queues[q], room) then [s.queues[q][0]] else []
    case _ => []
  }

  lemma {:induction false} PushAllAppends(s: Kernel, notified: seq<nat>, msg: Bytes, q: nat)
    requires q in s.queues
    ensures q in PushAll(s, notified, msg).queues
    ensures PushAll(s, notified, msg).queues[q] == s.queues[q] + Copies(notified, q, msg)
    decreases |notified|
  {
    if notified != [] { PushAllAppends(PushTo(s, notified[0], msg).0, notified[1..], msg, q); }
  }

  lemma TerminateAppends(s: Kernel, end: RunState, code: nat, visited: seq<nat>, signal: Bytes, q: nat)
    requires Inv(s) && s.current.Some? && (end.Exited? || end.Killed?) && q in s.queues
    requires q in Terminate(s, end, code, visited, signal).queues
    ensures Terminate(s, end, code, visited, signal).queues[q] == s.queues[q] + Obituary(s, signal, q)
  {
    var p := s.current.value;
    var s0 := s.(procs := s.procs[p := s.procs[p].(state := end, exitCode := code)]);
    assert Calmer(s.procs, s0.procs);
    CalmerKeeps(s, s0);
    UnlockVisitedKeeps(s0, p, visited);
  }

  /** Nothing is lost, made up or reordered: the queue before plus arrivals is departures plus the queue after. */
  lemma HandledDelivers(s: Kernel, e: Entry, q: nat)
    requires Inv(s) && CanEnter(s, e) && q in s.queues && q in Handled(s, e).queues
    ensures s.queues[q] + Arrivals(s, e, q) == Departures(s, e, q) + Handled(s, e).queues[q]
  {
    match e
    case Syscall(call, _) => CallDelivers(s, e, q);
    case Fault(reason, visited, signal, _) => TerminateAppends(s, Killed, reason, visited, signal, q);
    case Interrupt(notified, msg, _) => PushAllAppends(s, notified, msg, q);
  }

  lemma CallDelivers(s: Kernel, e: Entry, q: nat)
    requires Inv(s) && CanEnter(s, e) && e.Syscall? && q in s.queues && q in Handle(s, e.call).0.queues
    ensures s.queues[q] + Arrivals(s, e, q) == Departures(s, e, q) + Handle(s, e.call).0.queues[q]
  {
    assert s.queues[q] + [] == s.queues[q] == [] + s.queues[q];
    match e.call
    case UnlockMutex(m) => if Holds(s, m, s.current.value) { UnlockOnceKeeps(s, m); }
    case Poll(from, wait, room) => PollDelivers(s, e, q);
    case Exit(code, visited, signal) => TerminateAppends(s, Exited, code % 256, visited, signal, q);
    case Clone => FreePidIsEmpty(s.procs, 0);
    case _ =>
  }

  lemma PollDelivers(s: Kernel, e: Entry, q: nat)
    requires Inv(s) && CanEnter(s, e) && e.Syscall? && e.call.Poll?
    requires q in s.queues && q in Handle(s, e.call).0.queues
    ensures s.queues[q] + Arrivals(s, e, q) == Departures(s, e, q) + Handle(s, e.call).0.queues[q]
  {
    var from := if e.call.q == 0 then s.procs[s.current.value].mq else e.call.q;
    var (s', r) := PollQueue(s, from, e.call.wait, e.call.room);
    assert Handle(s, e.call).0 == s';
    assert s.queues[q] + [] == s.queues[q] == [] + s.queues[q];
    if q == from && Takes(s.queues[q], e.call.room) {
      assert s.queues[q] == [s.queues[q][0]] + s.queues[q][1..];
    } else {
      assert s'.queues[q] == s.queues[q];
    }
  }

  lemma EntryDelivers(s: Kernel, e: Entry, q: nat)
    requires Inv(s) && CanEnter(s, e) && q in s.queues && q in Enter(s, e).queues
    ensures s.queues[q] + Arrivals(s, e, q) == Departures(s, e, q) + Enter(s, e).queues[q]
  {
    var s1, s' := EntrySplits(s, e);
    HandledDelivers(s, e, q);
  }

  ghost function Sent(states: seq<Kernel>, entries: seq<Entry>, n: nat, clock: nat, i: nat, j: nat, q: nat): seq<Bytes>
    requires IsRun(states, entries, n, clock) && i <= j < |states|
    decreases j - i
  {
    if i == j then [] else Arrivals(states[i], entries[i], q) + Sent(states, entries, n, clock, i + 1, j, q)
  }

  ghost function Received(states: seq<Kernel>, entries: seq<Entry>, n: nat, clock: nat, i: nat, j: nat,
                          q: nat): seq<Bytes>
    requires IsRun(states, entries, n, clock) && i <= j < |states|
    decreases j - i
  {
    if i == j then [] else Departures(states[i], entries[i], q) + Received(states, entries, n, clock, i + 1, j, q)
  }

  lemma StepDelivers(states: seq<Kernel>, entries: seq<Entry>, n: nat, clock: nat, k: nat, q: nat)
    requires IsRun(states, entries, n, clock) && k < |entries|
    requires q in states[k].queues && q in states[k + 1].queues
    ensures states[k].queues[q] + Arrivals(states[k], entries[k], q)
         == Departures(states[k], entries[k], q) + states[k + 1].queues[q]
  {
    var s, e, s' := RunStep(states, entries, n, clock, k);
    EntryDelivers(s, e, q);
  }

  /** First in, first out over any stretch of any run in which the queue lives. */
  lemma {:induction false} FifoDelivery(states: seq<Kernel>, entries: seq<Entry>, n: nat, clock: nat, i: nat, j: nat,
                                        q: nat)
    requires IsRun(states, entries, n, clock) && i <= j < |states|
    requires forall k :: i <= k <= j ==> q in states[k].queues
    ensures states[i].queues[q] + Sent(states, entries, n, clock, i, j, q)
         == Received(states, entries, n, clock, i, j, q) + states[j].queues[q]
    decreases j - i
  {
    if i < j {
      StepDelivers(states, entries, n, clock, i, q);
      FifoDelivery(states, entries, n, clock, i + 1, j, q);
      ChainDeliveries(states[i].queues[q], Arrivals(states[i], entries[i], q), Departures(states[i], entries[i], q),
                      states[i + 1].queues[q], Sent(states, entries, n, clock, i + 1, j, q),
                      Received(states, entries, n, clock, i + 1, j, q), states[j].queues[q]);
    }
  }

  lemma ChainDeliveries(x: seq<Bytes>, a: seq<Bytes>, d: seq<Bytes>, y: seq<Bytes>, a': seq<Bytes>, d': seq<Bytes>,
                        z: seq<Bytes>)
    requires x + a == d + y && y + a' == d' + z
    ensures x + (a + a') == (d + d') + z
  {
    assert x + (a + a') == (x + a) + a';
    assert (d + y) + a' == d + (y + a');
    assert d + (d' + z) == (d + d') + z;
  }

  /** A poll hands out the head exactly when it returns 0; on any other reply no queue changes. */
  lemma PollTakesExactlyOnSuccess(s: Kernel, q: nat, wait: bool, room: nat)
    requires Inv(s) && s.current.Some?
    ensures var (s', r) := PollQueue(s, q, wait, room);
      && (r.error == Some(0) <==> q in s.queues && s.queues[q] != [] && |s.queues[q][0]| <= room)
      && (r.error == Some(0) ==> q in s'.queues && s.queues[q] == [r.msg] + s'.queues[q] && r.value == |r.msg|)
      && (r.error != Some(0) ==> s'.queues == s.queues)
      && (r.error == Some(EAGAIN) <==> q in s.queues && s.queues[q] == [] && wait)
      && (r.error == Some(EAGAIN) ==> WaitsFor(s'.procs[s.current.value], OnMessage(q)))
      && (r.error == Some(EMSGSIZE) ==> r.value == |s.queues[q][0]| > room)
  {
    if q in s.queues && Takes(s.queues[q], room) {
      assert s.queues[q] == [s.queues[q][0]] + s.queues[q][1..];
    }
  }
}
