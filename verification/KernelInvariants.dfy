/** What every kernel entry keeps, and what holds in every reachable state. */
module KernelInvariants {
  import opened Basics
  import opened Messages
  import opened KernelState

  /** Whoever waits for a mutex waits for somebody else to release it. */
  ghost predicate NoLostMutexWakeup(s: Kernel)
    requires Sized(s)
  {
    forall p, m :: 0 <= p < MAX_PROCS && WaitsFor(s.procs[p], OnMutex(m)) ==>
      m in s.mutexes && s.mutexes[m].depth > 0 && s.mutexes[m].holder != p
  }

  /** Whoever waits for a message in a live queue waits at an empty queue. */
  ghost predicate NoLostMessageWakeup(s: Kernel)
    requires Sized(s)
  {
    forall p, q :: 0 <= p < MAX_PROCS && q in s.queues && WaitsFor(s.procs[p], OnMessage(q)) ==> s.queues[q] == []
  }

  ghost predicate IdsBounded(s: Kernel) {
    && s.nextMutex < 0x1_0000_0000_0000_0000 && s.nextQueue < 0x1_0000_0000_0000_0000 && 0 !in s.queues
    && (s.nextMutex != 0 ==> forall m :: m in s.mutexes ==> m < s.nextMutex)
    && (s.nextQueue != 0 ==> forall q :: q in s.queues ==> q < s.nextQueue)
  }

  /** Live processes own distinct live queues, and no dead or future process owns one of them. */
  ghost predicate QueuesOwned(s: Kernel)
    requires Sized(s)
  {
    && (forall p :: 0 <= p < MAX_PROCS && Alive(s.procs[p]) ==> s.procs[p].mq in s.queues)
    && (forall p, r :: 0 <= p < MAX_PROCS && 0 <= r < MAX_PROCS && p != r && Alive(s.procs[p]) && Alive(s.procs[r]) ==>
          s.procs[p].mq != s.procs[r].mq)
  }

  ghost predicate MessagesWellFormed(s: Kernel) {
    forall q, i :: q in s.queues && 0 <= i < |s.queues[q]| ==> WellFormed(s.queues[q][i])
  }

  /** At most one process is running, and it is the current one. */
  ghost predicate OnlyCurrentRuns(s: Kernel)
    requires Sized(s)
  {
    forall p :: 0 <= p < MAX_PROCS && s.procs[p].state.Running? ==> s.current == Some(p)
  }

  /** Holds at every point inside the kernel. */
  ghost predicate Sound(s: Kernel) {
    && Sized(s)
    && NoLostMutexWakeup(s) && NoLostMessageWakeup(s)
    && IdsBounded(s) && QueuesOwned(s) && MessagesWellFormed(s)
    && OnlyCurrentRuns(s)
    && (s.current.Some? ==> s.last == s.current)
  }

  /** Holds whenever the kernel has picked who runs: it idles only when nobody can run. */
  ghost predicate Settled(s: Kernel)
    requires Sized(s)
  {
    match s.current
    case Some(p) => s.procs[p].state.Running?
    case None => forall p :: 0 <= p < MAX_PROCS ==> !s.procs[p].state.Runnable?
  }

  ghost predicate Inv(s: Kernel) {
    Sound(s) && Settled(s)
  }

  // --- Scheduling ---

  /** How many steps after `from` a scan looks at `p`. */
  function Distance(from: nat, p: nat): (d: nat)
    requires from < MAX_PROCS && p < MAX_PROCS
    ensures 1 <= d <= MAX_PROCS && Slot(from + d) == p
  {
    if p > from then p - from else p + 4096 - from
  }

  lemma SlotDistance(from: nat, at: nat)
    requires from < MAX_PROCS && from < at <= from + MAX_PROCS
    ensures Distance(from, Slot(at)) == at - from
  {
  }

  /** The scan stops at the nearest process that can run, or finds that there is none. */
  lemma {:induction false} FirstReadyNearest(procs: seq<Process>, clock: nat, from: nat, at: nat, p: nat)
    requires |procs| == MAX_PROCS && from < MAX_PROCS && p < MAX_PROCS
    requires from < at <= from + Distance(from, p) && Ready(procs[p], clock)
    ensures FirstReady(procs, clock, at, from + MAX_PROCS).Some?
    ensures Distance(from, FirstReady(procs, clock, at, from + MAX_PROCS).value) <= Distance(from, p)
    decreases from + MAX_PROCS + 1 - at
  {
    if Ready(procs[Slot(at)], clock) {
      SlotDistance(from, at);
    } else {
      FirstReadyNearest(procs, clock, from, at + 1, p);
    }
  }

  /** Round robin picks the process that comes first in cyclic order after the last one. */
  lemma NextInTurnNearest(procs: seq<Process>, clock: nat, last: Option<nat>, p: nat)
    requires |procs| == MAX_PROCS && p < MAX_PROCS && Ready(procs[p], clock) && (last.Some? ==> last.value < MAX_PROCS)
    ensures NextInTurn(procs, clock, last).Some?
    ensures Distance(Position(last), NextInTurn(procs, clock, last).value) <= Distance(Position(last), p)
  {
    FirstReadyNearest(procs, clock, Position(last), Position(last) + 1, p);
  }

  /** Nobody came to life, changed queues or started to wait. */
  ghost predicate Calmer(procs: seq<Process>, procs': seq<Process>) {
    && |procs'| == |procs|
    && (forall p :: 0 <= p < |procs| && Alive(procs'[p]) ==> Alive(procs[p]) && procs'[p].mq == procs[p].mq)
    && (forall p :: 0 <= p < |procs| && procs'[p].state.Waiting? ==>
          procs[p].state.Waiting? && procs'[p].wait == procs[p].wait)
  }

  lemma CalmerKeeps(s: Kernel, s': Kernel)
    requires Sized(s) && Sized(s') && Calmer(s.procs, s'.procs)
    requires s'.mutexes == s.mutexes && s'.queues == s.queues
    ensures NoLostMutexWakeup(s) ==> NoLostMutexWakeup(s')
    ensures NoLostMessageWakeup(s) ==> NoLostMessageWakeup(s')
    ensures QueuesOwned(s) ==> QueuesOwned(s')
  {
    forall p, w | 0 <= p < MAX_PROCS && WaitsFor(s'.procs[p], w)
      ensures WaitsFor(s.procs[p], w)
    {
    }
  }

  lemma ScheduleNextSound(s: Kernel, clock: nat)
    requires Sound(s)
    ensures Inv(ScheduleNext(s, clock))
  {
    var procs := Preempt(s);
    var s' := ScheduleNext(s, clock);
    var r := NextInTurn(procs, clock, s.last);
    if r.None? {
      forall p | 0 <= p < MAX_PROCS
        ensures !procs[p].state.Runnable?
      {
        if procs[p].state.Runnable? { NextInTurnNearest(procs, clock, s.last, p); }
      }
    }
    assert Calmer(s.procs, s'.procs);
    CalmerKeeps(s, s');
  }

  lemma ScheduleIfNeededSound(s: Kernel, clock: nat)
    requires Sound(s)
    requires CurrentRuns(s) ==> s.procs[s.current.value].state.Running?
    ensures Inv(ScheduleIfNeeded(s, clock))
  {
    if !CurrentRuns(s) { ScheduleNextSound(s, clock); }
  }

  // --- Wake-ups ---

  /** Processes are only woken: everybody else, and everything else about them, is unchanged. */
  ghost predicate Wakes(procs: seq<Process>, procs': seq<Process>) {
    && |procs'| == |procs|
    && forall p :: 0 <= p < |procs| ==>
         procs'[p] == procs[p] || (procs[p].state.Waiting? && procs'[p] == procs[p].(state := Runnable))
  }

  lemma WakesTransitive(a: seq<Process>, b: seq<Process>, c: seq<Process>)
    requires Wakes(a, b) && Wakes(b, c)
    ensures Wakes(a, c)
  {
  }

  /** How many steps from `from`, itself included, a scan looks at `p`. */
  function DistanceFrom(from: nat, p: nat): (d: nat)
    requires from < MAX_PROCS && p < MAX_PROCS
    ensures d < MAX_PROCS && Slot(from + d) == p
  {
    if p >= from then p - from else p + 4096 - from
  }

  lemma SlotDistanceFrom(from: nat, at: nat)
    requires from < MAX_PROCS && from <= at < from + MAX_PROCS
    ensures DistanceFrom(from, Slot(at)) == at - from
  {
  }

  lemma {:induction false} FirstWaiterNearest(procs: seq<Process>, m: nat, from: nat, at: nat, p: nat)
    requires |procs| == MAX_PROCS && from < MAX_PROCS && p < MAX_PROCS
    requires from <= at <= from + DistanceFrom(from, p) && WaitsFor(procs[p], OnMutex(m))
    ensures FirstWaiter(procs, m, at, from + MAX_PROCS).Some?
    ensures DistanceFrom(from, FirstWaiter(procs, m, at, from + MAX_PROCS).value) <= DistanceFrom(from, p)
    decreases from + MAX_PROCS - at
  {
    if WaitsFor(procs[Slot(at)], OnMutex(m)) {
      SlotDistanceFrom(from, at);
    } else {
      FirstWaiterNearest(procs, m, from, at + 1, p);
    }
  }

  /** A released mutex goes to the waiter that comes first in cyclic order from the releaser. */
  lemma NextOwnerNearest(procs: seq<Process>, m: nat, current: Option<nat>, p: nat)
    requires |procs| == MAX_PROCS && p < MAX_PROCS && WaitsFor(procs[p], OnMutex(m))
    requires current.Some? ==> current.value < MAX_PROCS
    ensures NextOwner(procs, m, current).Some?
    ensures DistanceFrom(Position(current), NextOwner(procs, m, current).value) <= DistanceFrom(Position(current), p)
  {
    FirstWaiterNearest(procs, m, Position(current), Position(current), p);
  }

  /** All waits are justified, except that mutex `m` was just released and may have waiters. */
  ghost predicate NoLostMutexWakeupBut(s: Kernel, m: nat)
    requires Sized(s)
  {
    && m in s.mutexes
    && forall p, n :: 0 <= p < MAX_PROCS && n != m && WaitsFor(s.procs[p], OnMutex(n)) ==>
         n in s.mutexes && s.mutexes[n].depth > 0 && s.mutexes[n].holder != p
  }

  lemma HandoffKeeps(s: Kernel, m: nat)
    requires Sized(s) && NoLostMutexWakeupBut(s, m)
    ensures Sized(Handoff(s, m)) && NoLostMutexWakeup(Handoff(s, m))
    ensures Wakes(s.procs, Handoff(s, m).procs)
  {
    var s' := Handoff(s, m);
    forall p, n | 0 <= p < MAX_PROCS && WaitsFor(s'.procs[p], OnMutex(n))
      ensures n in s'.mutexes && s'.mutexes[n].depth > 0 && s'.mutexes[n].holder != p
    {
      assert WaitsFor(s.procs[p], OnMutex(n));
      if n == m { NextOwnerNearest(s.procs, m, s.current, p); }
    }
  }

  /** One unlock keeps every wait justified, and touches only mutex `m` and at most one process. */
  lemma UnlockOnceKeeps(s: Kernel, m: nat)
    requires Sized(s) && NoLostMutexWakeup(s) && m in s.mutexes && s.mutexes[m].depth > 0
    ensures var s' := UnlockOnce(s, m);
      && Sized(s') && NoLostMutexWakeup(s') && Wakes(s.procs, s'.procs)
      && s'.mutexes.Keys == s.mutexes.Keys && s' == s.(procs := s'.procs, mutexes := s'.mutexes)
      && forall n :: n in s.mutexes && n != m ==> s'.mutexes[n] == s.mutexes[n]
  {
    var depth := s.mutexes[m].depth - 1;
    var s1 := s.(mutexes := s.mutexes[m := Mutex(depth, s.mutexes[m].holder)]);
    if depth == 0 {
      assert NoLostMutexWakeupBut(s1, m);
      HandoffKeeps(s1, m);
    }
  }

  lemma {:induction false} UnlockVisitedKeeps(s: Kernel, pid: nat, visited: seq<nat>)
    requires Sized(s) && NoLostMutexWakeup(s)
    ensures var s' := UnlockVisited(s, pid, visited);
      && NoLostMutexWakeup(s') && Wakes(s.procs, s'.procs)
      && s'.mutexes.Keys == s.mutexes.Keys && s' == s.(procs := s'.procs, mutexes := s'.mutexes)
    decreases |visited|
  {
    if visited != [] {
      var s1 := if Holds(s, visited[0], pid) then UnlockOnce(s, visited[0]) else s;
      if Holds(s, visited[0], pid) { UnlockOnceKeeps(s, visited[0]); }
      UnlockVisitedKeeps(s1, pid, visited[1..]);
      WakesTransitive(s.procs, s1.procs, UnlockVisited(s, pid, visited).procs);
    }
  }

  // --- Every handler keeps the kernel sound ---

  /** Waking processes keeps everything but the justification of mutex waits, which the caller supplies. */
  lemma WakingSound(s: Kernel, s': Kernel)
    requires Sound(s) && Sized(s') && NoLostMutexWakeup(s') && Wakes(s.procs, s'.procs)
    requires s' == s.(procs := s'.procs, mutexes := s'.mutexes) && s'.mutexes.Keys == s.mutexes.Keys
    ensures Sound(s')
  {
    assert Calmer(s.procs, s'.procs);
    CalmerKeeps(s, s'.(mutexes := s.mutexes));
  }

  lemma PushToSound(s: Kernel, q: nat, m: Bytes)
    requires Sound(s) && WellFormed(m)
    ensures Sound(PushTo(s, q, m).0) && Wakes(s.procs, PushTo(s, q, m).0.procs)
    ensures PushTo(s, q, m).0.queues.Keys == s.queues.Keys
  {
    if q in s.queues {
      var s1 := s.(queues := s.queues[q := s.queues[q] + [m]]);
      var s' := WakeReceivers(s1, q);
      assert Calmer(s.procs, s'.procs);
      CalmerKeeps(s, s'.(queues := s.queues));
      assert forall p :: 0 <= p < MAX_PROCS ==> !WaitsFor(s'.procs[p], OnMessage(q));
    }
  }

  lemma BlockSound(s: Kernel, w: Wait)
    requires Sound(s) && s.current.Some? && s.procs[s.current.value].state.Running?
    requires w.OnMutex? ==> w.m in s.mutexes && s.mutexes[w.m].depth > 0 && s.mutexes[w.m].holder != s.current.value
    requires w.OnMessage? ==> w.q in s.queues ==> s.queues[w.q] == []
    ensures Sound(Block(s, w))
  {
    var s' := Block(s, w);
    forall p, v | 0 <= p < MAX_PROCS && WaitsFor(s'.procs[p], v)
      ensures WaitsFor(s.procs[p], v) || (p == s.current.value && v == w)
    {
    }
  }

  /** The caller is still current, and either runs on or cannot run at all. */
  ghost predicate CallerSettled(s: Kernel, s': Kernel)
    requires Sized(s) && s.current.Some?
  {
    Sound(s') && s'.current == s.current && !s'.procs[s.current.value].state.Runnable?
  }

  lemma LockSound(s: Kernel, m: nat, trylock: bool)
    requires Inv(s) && s.current.Some?
    ensures CallerSettled(s, Lock(s, m, trylock).0)
  {
    if m in s.mutexes && s.mutexes[m].depth > 0 && s.mutexes[m].holder != s.current.value && !trylock {
      BlockSound(s, OnMutex(m));
    }
  }

  lemma PollSound(s: Kernel, q: nat, wait: bool, room: nat)
    requires Inv(s) && s.current.Some?
    ensures CallerSettled(s, PollQueue(s, q, wait, room).0)
  {
    if q in s.queues && s.queues[q] == [] && wait {
      BlockSound(s, OnMessage(q));
    } else if q in s.queues && Takes(s.queues[q], room) {
      var s' := PollQueue(s, q, wait, room).0;
      assert forall i :: 0 <= i < |s'.queues[q]| ==> s'.queues[q][i] == s.queues[q][i + 1];
    }
  }

  lemma SetupSound(s: Kernel, pid: nat, parent: Option<nat>)
    requires Sound(s) && pid < MAX_PROCS && s.procs[pid].state.Empty? && s.nextQueue != 0
    ensures Sound(SetupProcess(s, pid, parent))
  {
    var s' := SetupProcess(s, pid, parent);
    forall p, w | 0 <= p < MAX_PROCS && WaitsFor(s'.procs[p], w)
      ensures WaitsFor(s.procs[p], w)
    {
    }
    assert s.nextQueue !in s.queues;
  }

  lemma UnlockSound(s: Kernel, m: nat)
    requires Sound(s) && m in s.mutexes && s.mutexes[m].depth > 0
    ensures Sound(UnlockOnce(s, m))
  {
    UnlockOnceKeeps(s, m);
    WakingSound(s, UnlockOnce(s, m));
  }

  /** No live process shares the queue of `pid`. */
  ghost predicate Sole(s: Kernel, pid: nat)
    requires Sized(s) && pid < MAX_PROCS
  {
    !Alive(s.procs[pid]) && forall r :: 0 <= r < MAX_PROCS && Alive(s.procs[r]) ==> s.procs[r].mq != s.procs[pid].mq
  }

  lemma CleanupSound(s: Kernel, pid: nat, visited: seq<nat>, signal: Bytes)
    requires Sound(s) && pid < MAX_PROCS && Sole(s, pid) && WellFormed(signal)
    ensures Sound(Cleanup(s, pid, visited, signal))
    ensures Wakes(s.procs, Cleanup(s, pid, visited, signal).procs)
  {
    var s1 := UnlockVisited(s, pid, visited);
    UnlockVisitedKeeps(s, pid, visited);
    WakingSound(s, s1);
    var parent := s.procs[pid].parent;
    var signalled := parent.Some? && parent.value < |s1.procs| && Alive(s1.procs[parent.value]);
    var s2 := if signalled then PushTo(s1, s1.procs[parent.value].mq, signal).0 else s1;
    if signalled { PushToSound(s1, s1.procs[parent.value].mq, signal); }
    assert Wakes(s1.procs, s2.procs) && Sound(s2);
    WakesTransitive(s.procs, s1.procs, s2.procs);
    WithoutQueue(s2, s.procs[pid].mq);
  }

  lemma WithoutQueue(s: Kernel, q: nat)
    requires Sound(s)
    requires forall r :: 0 <= r < MAX_PROCS && Alive(s.procs[r]) ==> s.procs[r].mq != q
    ensures Sound(s.(queues := s.queues - {q}))
  {
  }

  lemma TerminateSound(s: Kernel, end: RunState, code: nat, visited: seq<nat>, signal: Bytes)
    requires Sound(s) && s.current.Some? && s.procs[s.current.value].state.Running?
    requires (end.Exited? || end.Killed?) && WellFormed(signal)
    ensures var s' := Terminate(s, end, code, visited, signal);
      Sound(s') && s'.procs[s.current.value].state == end && s'.current == s.current
  {
    var p := s.current.value;
    var s1 := s.(procs := s.procs[p := s.procs[p].(state := end, exitCode := code)]);
    assert Calmer(s.procs, s1.procs);
    CalmerKeeps(s, s1);
    CleanupSound(s1, p, visited, signal);
    UnlockVisitedKeeps(s1, p, visited);
  }

  lemma {:induction false} FreePidIsEmpty(procs: seq<Process>, i: nat)
    ensures var r := FreePid(procs, i); r.Some? ==> r.value < |procs| && procs[r.value].state.Empty?
    decreases |procs| - i
  {
    if i < |procs| && !procs[i].state.Empty? { FreePidIsEmpty(procs, i + 1); }
  }

  lemma StampedWellFormed(m: Bytes, pid: nat)
    requires WellFormed(m) && pid < MAX_PROCS
    ensures WellFormed(Stamped(m, pid))
  {
    assert forall i :: 0 <= i < 8 ==> Stamped(m, pid)[i] == m[i];
  }

  lemma CreateSound(s: Kernel)
    requires Inv(s) && s.current.Some? && s.nextMutex != 0
    ensures CallerSettled(s, Handle(s, CreateMutex).0)
  {
  }

  lemma DestroySound(s: Kernel, m: nat)
    requires Inv(s) && s.current.Some?
    ensures CallerSettled(s, Handle(s, DestroyMutex(m)).0)
  {
  }

  lemma UnlockCallSound(s: Kernel, m: nat)
    requires Inv(s) && s.current.Some?
    ensures CallerSettled(s, Unlock(s, m).0)
  {
    if m in s.mutexes && s.mutexes[m].depth > 0 && s.mutexes[m].holder == s.current.value {
      UnlockSound(s, m);
      UnlockOnceKeeps(s, m);
    }
  }

  lemma SleepSound(s: Kernel, ns: nat, now: nat)
    requires Inv(s) && s.current.Some?
    ensures CallerSettled(s, Handle(s, Sleep(ns, now)).0)
  {
    BlockSound(s, OnTime(if ns == 0 then 0 else (now + ns) % 0x1_0000_0000_0000_0000));
  }

  lemma SendSound(s: Kernel, q: nat, pid: Option<nat>, msg: Bytes)
    requires Inv(s) && s.current.Some? && Enabled(s, Send(q, pid, msg))
    ensures CallerSettled(s, Handle(s, Send(q, pid, msg)).0)
  {
    StampedWellFormed(msg, s.current.value);
    if Target(s, q, pid) != 0 { PushToSound(s, Target(s, q, pid), Stamped(msg, s.current.value)); }
  }

  lemma CloneSound(s: Kernel)
    requires Inv(s) && s.current.Some? && Enabled(s, Clone)
    ensures CallerSettled(s, Handle(s, Clone).0)
  {
    FreePidIsEmpty(s.procs, 0);
    SetupSound(s, FreePid(s.procs, 0).value, Some(s.current.value));
  }

  /** Every system call keeps the kernel sound. */
  lemma HandleSound(s: Kernel, call: Call)
    requires Inv(s) && s.current.Some? && Enabled(s, call)
    ensures CallerSettled(s, Handle(s, call).0)
  {
    var p := s.current.value;
    match call
    case CreateMutex => if s.nextMutex != 0 { CreateSound(s); }
    case DestroyMutex(m) => DestroySound(s, m);
    case LockMutex(m, trylock) => LockSound(s, m, trylock);
    case UnlockMutex(m) => UnlockCallSound(s, m);
    case Sleep(ns, now) => SleepSound(s, ns, now);
    case Poll(q, wait, room) => PollSound(s, if q == 0 then s.procs[p].mq else q, wait, room);
    case Send(q, pid, msg) => SendSound(s, q, pid, msg);
    case Exit(code, visited, signal) => TerminateSound(s, Exited, code % 256, visited, signal);
    case Clone => CloneSound(s);
  }

  lemma {:induction false} PushAllSound(s: Kernel, notified: seq<nat>, msg: Bytes)
    requires Sound(s) && WellFormed(msg)
    ensures Sound(PushAll(s, notified, msg)) && Wakes(s.procs, PushAll(s, notified, msg).procs)
    ensures PushAll(s, notified, msg).current == s.current
    decreases |notified|
  {
    if notified != [] {
      var s1 := PushTo(s, notified[0], msg).0;
      PushToSound(s, notified[0], msg);
      PushAllSound(s1, notified[1..], msg);
      WakesTransitive(s.procs, s1.procs, PushAll(s, notified, msg).procs);
    }
  }

  lemma HandledSound(s: Kernel, e: Entry)
    requires Inv(s) && CanEnter(s, e)
    ensures Sound(Handled(s, e)) && Handled(s, e).current == s.current
    ensures !e.Interrupt? ==> !Handled(s, e).procs[s.current.value].state.Runnable?
  {
    match e
    case Syscall(call, _) => HandleSound(s, call);
    case Fault(reason, visited, signal, _) => TerminateSound(s, Killed, reason, visited, signal);
    case Interrupt(notified, msg, _) => PushAllSound(s, notified, msg);
  }

  lemma EnterKeepsInv(s: Kernel, e: Entry)
    requires Inv(s) && CanEnter(s, e)
    ensures Inv(Enter(s, e))
  {
    HandledSound(s, e);
    if e.Interrupt? { ScheduleNextSound(Handled(s, e), e.clock); }
    else { ScheduleIfNeededSound(Handled(s, e), e.clock); }
  }

  /** Telling a list of queues, from `i` on: the next one first. */
  lemma PushAllNext(s: Kernel, notified: seq<nat>, i: nat, msg: Bytes)
    requires i < |notified|
    ensures PushAll(s, notified[i..], msg) == PushAll(PushTo(s, notified[i], msg).0, notified[i + 1..], msg)
  {
    assert notified[i..][0] == notified[i] && notified[i..][1..] == notified[i + 1..];
  }

  /** So far the first `n` places of the table are taken. */
  ghost predicate Booted(s: Kernel, n: nat) {
    Sound(s) && s.nextQueue == n + 1 && forall p :: n <= p < MAX_PROCS ==> s.procs[p].state.Empty?
  }

  lemma BootNext(b: Kernel, n: nat)
    requires n < MAX_PROCS && Booted(b, n)
    ensures Booted(SetupProcess(b, n, None), n + 1)
  {
    SetupSound(b, n, None);
  }

  lemma {:induction false} BootSound(n: nat)
    requires n <= MAX_PROCS
    ensures Booted(Boot(n), n)
  {
    if n == 0 {
      EmptyTableSound();
    } else {
      BootSound(n - 1);
      BootNext(Boot(n - 1), n - 1);
    }
  }

  lemma EmptyTableSound()
    ensures Sound(Boot(0))
  {
    assert forall p :: 0 <= p < MAX_PROCS ==> Boot(0).procs[p] == NOBODY;
  }

  /** The invariant holds in every state of every run. */
  lemma {:induction false} RunInv(states: seq<Kernel>, entries: seq<Entry>, n: nat, clock: nat, k: nat)
    requires IsRun(states, entries, n, clock) && k < |states|
    ensures Inv(states[k])
    decreases k
  {
    if k == 0 {
      BootSound(n);
      ScheduleNextSound(Boot(n), clock);
    } else {
      RunInv(states, entries, n, clock, k - 1);
      assert IsStep(states, entries, k - 1);
      EnterKeepsInv(states[k - 1], entries[k - 1]);
    }
  }
}
