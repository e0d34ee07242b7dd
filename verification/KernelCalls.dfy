/**
  What each system call does, in terms of the state before it: the reply, and
  everything that is different afterwards.
 */
module KernelCalls {
  import opened Basics
  import opened Messages
  import opened KernelState
  import opened KernelInvariants
  import opened KernelTheorems

  // --- Mutexes ---

  /** Process `p` waits for the mutex, and nobody else who does is nearer to `from` in cyclic order. */
  ghost predicate NearestWaiter(procs: seq<Process>, m: nat, from: nat, p: nat)
    requires |procs| == MAX_PROCS && from < MAX_PROCS
  {
    && p < MAX_PROCS && WaitsFor(procs[p], OnMutex(m))
    && forall q :: 0 <= q < MAX_PROCS && WaitsFor(procs[q], OnMutex(m)) ==>
         DistanceFrom(from, p) <= DistanceFrom(from, q)
  }

  ghost predicate NobodyWaits(procs: seq<Process>, m: nat) {
    forall q :: 0 <= q < |procs| ==> !WaitsFor(procs[q], OnMutex(m))
  }

  predicate HeldByOther(s: Kernel, m: nat)
    requires s.current.Some?
  {
    m in s.mutexes && s.mutexes[m].depth > 0 && s.mutexes[m].holder != s.current.value
  }

  /** The caller gave back the last level: the nearest waiter has the mutex and may run, or nobody has it. */
  ghost predicate Released(s: Kernel, s': Kernel, m: nat)
    requires Sized(s) && s.current.Some? && m in s.mutexes
  {
    if NobodyWaits(s.procs, m) then
      m in s'.mutexes && s'.mutexes[m].depth == 0 && s' == s.(mutexes := s.mutexes[m := s'.mutexes[m]])
    else
      exists p :: NearestWaiter(s.procs, m, s.current.value, p) && PassedTo(s, s', m, p)
  }

  predicate PassedTo(s: Kernel, s': Kernel, m: nat, p: nat)
    requires Sized(s) && p < MAX_PROCS
  {
    s' == s.(mutexes := s.mutexes[m := Mutex(1, p)], procs := s.procs[p := s.procs[p].(state := Runnable)])
  }

  /** Unlocking takes one level off a mutex of the caller's, and touches nothing otherwise. */
  lemma UnlockLaw(s: Kernel, m: nat)
    requires Sized(s) && s.current.Some?
    ensures var (s', r) := Handle(s, UnlockMutex(m));
      && (r.error == Some(EINVAL) <==> m !in s.mutexes)
      && (r.error == Some(EPERM) <==> HeldByOther(s, m))
      && (r.error == Some(0) <==> m in s.mutexes && !HeldByOther(s, m))
      && (!Holds(s, m, s.current.value) ==> s' == s)
      && (Holds(s, m, s.current.value) && s.mutexes[m].depth > 1 ==>
            s' == s.(mutexes := s.mutexes[m := Mutex(s.mutexes[m].depth - 1, s.current.value)]))
      && (Holds(s, m, s.current.value) && s.mutexes[m].depth == 1 ==> Released(s, s', m))
  {
    if Holds(s, m, s.current.value) && s.mutexes[m].depth == 1 { ReleaseLaw(s, m); }
  }

  lemma ReleaseLaw(s: Kernel, m: nat)
    requires Sized(s) && s.current.Some? && Holds(s, m, s.current.value) && s.mutexes[m].depth == 1
    ensures Released(s, UnlockOnce(s, m), m)
  {
    var next := NextOwner(s.procs, m, s.current);
    forall q | 0 <= q < MAX_PROCS && WaitsFor(s.procs[q], OnMutex(m))
      ensures next.Some? && DistanceFrom(s.current.value, next.value) <= DistanceFrom(s.current.value, q)
    {
      NextOwnerNearest(s.procs, m, s.current, q);
    }
    if next.Some? {
      assert NearestWaiter(s.procs, m, s.current.value, next.value);
      assert PassedTo(s, UnlockOnce(s, m), m, next.value);
    }
  }

  /** Locking adds a level for the caller, or makes it wait, or is refused. */
  lemma LockLaw(s: Kernel, m: nat, trylock: bool)
    requires Inv(s) && s.current.Some?
    ensures var (s', r) := Handle(s, LockMutex(m, trylock));
      var p := s.current.value;
      && (r.error == Some(EINVAL) <==> m !in s.mutexes)
      && (r.error == Some(EBUSY) <==> trylock && HeldByOther(s, m))
      && (r.error == Some(0) <==> m in s.mutexes && !(trylock && HeldByOther(s, m)))
      && (r.error != Some(0) ==> s' == s)
      && |s'.procs| == MAX_PROCS
      && (WaitsFor(s'.procs[p], OnMutex(m)) <==> !trylock && HeldByOther(s, m))
      && (!trylock && HeldByOther(s, m) ==>
            s' == s.(procs := s.procs[p := s.procs[p].(state := Waiting, wait := OnMutex(m))]))
      && (r.error == Some(0) && !s'.procs[p].state.Waiting? <==> GotLevel(s, s', m, p))
  {
    assert s.procs[s.current.value].state.Running?;
  }

  /** One level more of the mutex, the first of a free one, is the process's, and nothing else changed. */
  ghost predicate GotLevel(s: Kernel, s': Kernel, m: nat, p: nat) {
    && Holds(s', m, p) && m in s.mutexes
    && s'.mutexes[m].depth == s.mutexes[m].depth + 1
    && s' == s.(mutexes := s.mutexes[m := s'.mutexes[m]])
  }

  /** A created mutex is new and unlocked. */
  lemma CreateLaw(s: Kernel)
    requires Inv(s) && s.current.Some?
    ensures var (s', r) := Handle(s, CreateMutex);
      && (r.error == Some(ENOMEM) <==> s.nextMutex == 0) && (r.error == Some(0) <==> s.nextMutex != 0)
      && (r.error == Some(ENOMEM) ==> s' == s)
      && (r.error == Some(0) ==>
            && r.value != 0 && r.value !in s.mutexes && r.value in s'.mutexes && s'.mutexes[r.value].depth == 0
            && s' == s.(mutexes := s.mutexes[r.value := s'.mutexes[r.value]], nextMutex := s'.nextMutex))
  {
  }

  /** A destroyed mutex is gone; locked ones stay. */
  lemma DestroyLaw(s: Kernel, m: nat)
    requires Sized(s) && s.current.Some?
    ensures var (s', r) := Handle(s, DestroyMutex(m));
      && (r.error == Some(EINVAL) <==> m !in s.mutexes)
      && (r.error == Some(EBUSY) <==> m in s.mutexes && s.mutexes[m].depth > 0)
      && (r.error == Some(0) <==> m in s.mutexes && s.mutexes[m].depth == 0)
      && (r.error != Some(0) ==> s' == s)
      && (r.error == Some(0) ==>
            && s' == s.(mutexes := s'.mutexes) && s'.mutexes.Keys == s.mutexes.Keys - {m}
            && forall n :: n in s'.mutexes ==> s'.mutexes[n] == s.mutexes[n])
  {
  }

  /** The sleeper waits for the 64-bit sum of clock and request, or for no time at all. */
  lemma SleepLaw(s: Kernel, ns: nat, now: nat)
    requires Sized(s) && s.current.Some?
    ensures var (s', r) := Handle(s, Sleep(ns, now));
      var p := s.current.value;
      && r.error == None && |s'.procs| == MAX_PROCS && s'.procs[p].state.Waiting? && s'.procs[p].wait.OnTime?
      && s' == s.(procs := s.procs[p := s.procs[p].(state := Waiting, wait := s'.procs[p].wait)])
      && (ns == 0 ==> s'.procs[p].wait.deadline == 0)
      && (ns != 0 ==> SameModulo64(s'.procs[p].wait.deadline, now + ns))
  {
    var d := (now + ns) % 0x1_0000_0000_0000_0000;
    var k := (now + ns) / 0x1_0000_0000_0000_0000;
    assert now + ns == d + k * 0x1_0000_0000_0000_0000;
  }

  /** `d` is what 64 bits hold of `x`. */
  ghost predicate SameModulo64(d: nat, x: nat) {
    d < 0x1_0000_0000_0000_0000 && exists k: nat :: x == d + k * 0x1_0000_0000_0000_0000
  }

  // --- Messages ---

  /** Exactly those who wait for a message in the queue became runnable. */
  ghost predicate Wakened(procs: seq<Process>, procs': seq<Process>, q: nat) {
    && |procs'| == |procs|
    && forall p :: 0 <= p < |procs| ==>
         procs'[p] == if WaitsFor(procs[p], OnMessage(q)) then procs[p].(state := Runnable) else procs[p]
  }

  /** The message is the last of the queue, those who wait for it may run, and nothing else changed. */
  ghost predicate Delivered(s: Kernel, s': Kernel, q: nat, m: Bytes) {
    && q in s.queues && Wakened(s.procs, s'.procs, q)
    && s' == s.(procs := s'.procs, queues := s.queues[q := s.queues[q] + [m]])
  }

  lemma PushLaw(s: Kernel, q: nat, m: Bytes)
    ensures var (s', error) := PushTo(s, q, m);
      if q in s.queues then error == 0 && Delivered(s, s', q, m) else error == ENOENT && s' == s
  {
  }

  /** The message as sent, but for the sender's pid in its sender field. */
  predicate SignedBy(sent: Bytes, m: Bytes, pid: nat) {
    && |m| == |sent|
    && (forall i :: 0 <= i < |m| && !(16 <= i < 24) ==> m[i] == sent[i])
    && (|m| >= 24 ==> ReadSize(m, 16) == pid)
  }

  lemma StampedIsSigned(m: Bytes, pid: nat)
    requires pid < MAX_PROCS
    ensures SignedBy(m, Stamped(m, pid), pid)
  {
    if |m| >= 24 {
      var r := Stamped(m, pid);
      assert r[16] == pid % 256 && r[17] == pid / 256;
      assert forall i :: 18 <= i < 24 ==> r[i] == 0;
    }
  }

  /** The queue that a send is for: the one named, that of the process named, or the caller's own. */
  predicate IsFor(s: Kernel, q: nat, pid: Option<nat>, to: nat)
    requires Sized(s) && s.current.Some?
  {
    if q != 0 then to == q
    else if pid == None then to == s.procs[s.current.value].mq
    else pid.value < MAX_PROCS && !s.procs[pid.value].state.Empty? && to == s.procs[pid.value].mq
  }

  /** A message goes to the queue it is for, signed by the caller; where there is none, nothing happens. */
  lemma SendLaw(s: Kernel, q: nat, pid: Option<nat>, msg: Bytes, to: nat)
    requires Inv(s) && s.current.Some? && WellFormed(msg) && to != 0
    ensures var (s', r) := Handle(s, Send(q, pid, msg));
      && (IsFor(s, q, pid, to) && to in s.queues ==>
            r.error == Some(0) && exists m :: SignedBy(msg, m, s.current.value) && Delivered(s, s', to, m))
      && (IsFor(s, q, pid, to) && to !in s.queues ==> r.error == Some(ENOENT) && s' == s)
      && ((forall x :: IsFor(s, q, pid, x) ==> x == 0) ==> r.error == None && s' == s)
  {
    var target := Target(s, q, pid);
    assert IsFor(s, q, pid, to) ==> target == to;
    assert target != 0 ==> IsFor(s, q, pid, target);
    if target != 0 {
      var m := Stamped(msg, s.current.value);
      PushLaw(s, target, m);
      StampedIsSigned(msg, s.current.value);
      assert target in s.queues ==>
        SignedBy(msg, m, s.current.value) && Delivered(s, PushTo(s, target, m).0, target, m);
    }
  }

  /** A message for a live process arrives in its queue. */
  lemma SendToProcess(s: Kernel, p: nat, msg: Bytes)
    requires Inv(s) && s.current.Some? && WellFormed(msg) && p < MAX_PROCS && Alive(s.procs[p])
    ensures var (s', r) := Handle(s, Send(0, Some(p), msg));
      r.error == Some(0) && exists m :: SignedBy(msg, m, s.current.value) && Delivered(s, s', s.procs[p].mq, m)
  {
    SendLaw(s, 0, Some(p), msg, s.procs[p].mq);
  }

  /** A poll takes the head if it fits, tells its size if not, and waits or not if there is none. */
  lemma PollLaw(s: Kernel, from: nat, wait: bool, room: nat, q: nat)
    requires Inv(s) && s.current.Some? && q == (if from == 0 then s.procs[s.current.value].mq else from)
    ensures var (s', r) := Handle(s, Poll(from, wait, room));
      var p := s.current.value;
      && (r.error == Some(ENOENT) <==> q !in s.queues)
      && (r.error == Some(ENOMSG) <==> q in s.queues && s.queues[q] == [] && !wait)
      && (r.error == Some(EAGAIN) <==> q in s.queues && s.queues[q] == [] && wait)
      && (r.error == Some(EMSGSIZE) <==> q in s.queues && s.queues[q] != [] && |s.queues[q][0]| > room)
      && (r.error == Some(0) <==> q in s.queues && s.queues[q] != [] && |s.queues[q][0]| <= room)
      && (r.error == Some(EAGAIN) ==>
            s' == s.(procs := s.procs[p := s.procs[p].(state := Waiting, wait := OnMessage(q))]))
      && (r.error == Some(0) ==>
            && r.value == |r.msg| && s'.queues == s.queues[q := s'.queues[q]] && s' == s.(queues := s'.queues)
            && s.queues[q] == [r.msg] + s'.queues[q])
      && (r.error == Some(EMSGSIZE) ==> r.value == |s.queues[q][0]|)
      && (r.error != Some(0) && r.error != Some(EAGAIN) ==> s' == s)
  {
  }

  /** The queues told are in the list. */
  ghost predicate ToldOf(s: Kernel, notified: seq<nat>, w: Wait) {
    w.OnMessage? && w.q in notified && w.q in s.queues
  }

  /** An interrupt wakes exactly those who wait at a queue that is told of it. */
  lemma {:induction false} InterruptWakes(s: Kernel, notified: seq<nat>, msg: Bytes)
    requires Sized(s)
    ensures var s' := PushAll(s, notified, msg);
      && s' == s.(procs := s'.procs, queues := s'.queues) && s'.queues.Keys == s.queues.Keys
      && |s'.procs| == MAX_PROCS
      && forall p :: 0 <= p < MAX_PROCS ==>
           s'.procs[p] == if s.procs[p].state.Waiting? && ToldOf(s, notified, s.procs[p].wait)
                          then s.procs[p].(state := Runnable) else s.procs[p]
    decreases |notified|
  {
    if notified != [] {
      var s1 := PushTo(s, notified[0], msg).0;
      PushLaw(s, notified[0], msg);
      InterruptWakes(s1, notified[1..], msg);
      assert notified == [notified[0]] + notified[1..];
    }
  }

  // --- Processes ---

  /** The parent of the caller that is told of its end: one that is alive and not the caller itself. */
  predicate TellsParent(s: Kernel, q: nat)
    requires Sized(s) && s.current.Some?
  {
    var parent := s.procs[s.current.value].parent;
    && parent.Some? && parent.value < MAX_PROCS && parent != s.current && Alive(s.procs[parent.value])
    && s.procs[parent.value].mq == q
  }

  /** The end of a process: its slot keeps how it ended, its queue is gone, and only its parent is told. */
  lemma EndLaw(s: Kernel, end: RunState, code: nat, visited: seq<nat>, signal: Bytes)
    requires Inv(s) && s.current.Some? && (end.Exited? || end.Killed?) && WellFormed(signal)
    ensures var s' := Terminate(s, end, code, visited, signal);
      var p := s.current.value;
      && |s'.procs| == MAX_PROCS && s'.procs[p] == s.procs[p].(state := end, exitCode := code)
      && s'.queues.Keys == s.queues.Keys - {s.procs[p].mq}
      && forall q :: q in s'.queues ==> s'.queues[q] == s.queues[q] + if TellsParent(s, q) then [signal] else []
  {
    var p := s.current.value;
    var s0 := Marked(s, end, code);
    assert Calmer(s.procs, s0.procs);
    CalmerKeeps(s, s0);
    UnlockVisitedKeeps(s0, p, visited);
    TerminateWakes(s, end, code, visited, signal);
  }

  lemma ExitLaw(s: Kernel, code: nat, visited: seq<nat>, signal: Bytes)
    requires Inv(s) && s.current.Some? && Enabled(s, Exit(code, visited, signal))
    ensures var (s', r) := Handle(s, Exit(code, visited, signal));
      var p := s.current.value;
      && r.error == None && |s'.procs| == MAX_PROCS
      && s'.procs[p].state == Exited && s'.procs[p].exitCode < 256 && (code - s'.procs[p].exitCode) % 256 == 0
      && s'.procs[p].parent == s.procs[p].parent && s.procs[p].mq !in s'.queues
  {
    EndLaw(s, Exited, code % 256, visited, signal);
  }

  lemma FaultLaw(s: Kernel, e: Entry)
    requires Inv(s) && CanEnter(s, e) && e.Fault?
    ensures var s', p := Handled(s, e), s.current.value;
      && s'.procs[p].state == Killed && s'.procs[p].exitCode == e.reason
      && s'.procs[p].parent == s.procs[p].parent && s.procs[p].mq !in s'.queues
  {
    EndLaw(s, Killed, e.reason, e.visited, e.signal);
  }

  /** Whoever waits on the clock or at a queue that is not told sleeps on; those at the parent's queue are woken. */
  lemma EndWakes(s: Kernel, end: RunState, code: nat, visited: seq<nat>, signal: Bytes, p: nat)
    requires Inv(s) && s.current.Some? && (end.Exited? || end.Killed?) && WellFormed(signal)
    requires p < MAX_PROCS && s.procs[p].state.Waiting? && !s.procs[p].wait.OnMutex?
    ensures var s' := Terminate(s, end, code, visited, signal);
      && |s'.procs| == MAX_PROCS
      && s'.procs[p] == if s.procs[p].wait.OnMessage? && TellsParent(s, s.procs[p].wait.q)
                        then s.procs[p].(state := Runnable) else s.procs[p]
  {
    var c := s.current.value;
    var s0 := Marked(s, end, code);
    assert Calmer(s.procs, s0.procs);
    CalmerKeeps(s, s0);
    UnlockVisitedKeeps(s0, c, visited);
    OtherWaitsUnlocked(s0, c, visited, p);
  }

  lemma {:induction false} OtherWaitsUnlocked(s: Kernel, pid: nat, visited: seq<nat>, p: nat)
    requires Sized(s) && p < MAX_PROCS && s.procs[p].state.Waiting? && !s.procs[p].wait.OnMutex?
    ensures UnlockVisited(s, pid, visited).procs[p] == s.procs[p]
    decreases |visited|
  {
    if visited != [] {
      var s1 := if Holds(s, visited[0], pid) then UnlockOnce(s, visited[0]) else s;
      OtherWaitsUnlocked(s1, pid, visited[1..], p);
    }
  }

  /** A clone is a runnable child of the caller, in the lowest free slot and with a new, empty queue. */
  lemma CloneLaw(s: Kernel)
    requires Inv(s) && s.current.Some? && Enabled(s, Clone)
    ensures var (s', r) := Handle(s, Clone);
      var pid := r.value;
      && pid < MAX_PROCS && s.procs[pid].state.Empty? && (forall p :: 0 <= p < pid ==> !s.procs[p].state.Empty?)
      && |s'.procs| == MAX_PROCS && s'.procs[pid].state.Runnable? && s'.procs[pid].parent == s.current
      && s'.procs[pid].mq != 0 && s'.procs[pid].mq !in s.queues
      && s' == s.(procs := s.procs[pid := s'.procs[pid]], queues := s.queues[s'.procs[pid].mq := []],
                  nextQueue := s'.nextQueue)
  {
    FreePidLowest(s.procs, 0);
  }

  lemma {:induction false} FreePidLowest(procs: seq<Process>, i: nat)
    requires FreePid(procs, i).Some?
    ensures var pid := FreePid(procs, i).value;
      && i <= pid < |procs| && procs[pid].state.Empty?
      && forall p :: i <= p < pid ==> !procs[p].state.Empty?
    decreases |procs| - i
  {
    if i < |procs| && !procs[i].state.Empty? { FreePidLowest(procs, i + 1); }
  }

  // --- Scheduling ---

  /** Who could run if the current process were asked to make way. */
  predicate CouldRun(s: Kernel, p: nat, clock: nat)
    requires Sized(s) && p < MAX_PROCS
  {
    Ready(s.procs[p], clock) || (s.current == Some(p) && s.procs[p].state.Running?)
  }

  /** The nearest who could run, counted from behind the last one that ran, itself at the very end. */
  ghost predicate NextUp(s: Kernel, clock: nat, p: nat)
    requires Sized(s)
  {
    && p < MAX_PROCS && CouldRun(s, p, clock)
    && forall q :: 0 <= q < MAX_PROCS && CouldRun(s, q, clock) ==>
         Distance(Position(s.last), p) <= Distance(Position(s.last), q)
  }

  /** The scheduler hands the processor to the next in turn, or to nobody if nobody could run. */
  lemma ScheduleLaw(s: Kernel, clock: nat)
    requires Sound(s)
    ensures var s' := ScheduleNext(s, clock);
      && Sized(s') && s' == s.(procs := s'.procs, current := s'.current, last := s'.last)
      && (s'.current == None <==> forall p :: 0 <= p < MAX_PROCS ==> !CouldRun(s, p, clock))
      && (s'.current == None ==> s'.last == s.last)
      && (s'.current.Some? ==> NextUp(s, clock, s'.current.value) && s'.last == s'.current)
      && forall p :: 0 <= p < MAX_PROCS ==>
           s'.procs[p] == if s'.current == Some(p) then s.procs[p].(state := Running)
                          else if s.procs[p].state.Running? then s.procs[p].(state := Runnable) else s.procs[p]
  {
    var procs := Preempt(s);
    forall p | 0 <= p < MAX_PROCS
      ensures Ready(procs[p], clock) <==> CouldRun(s, p, clock)
    {
    }
    forall q | 0 <= q < MAX_PROCS && CouldRun(s, q, clock)
      ensures NextInTurn(procs, clock, s.last).Some?
      ensures Distance(Position(s.last), NextInTurn(procs, clock, s.last).value) <= Distance(Position(s.last), q)
    {
      NextInTurnNearest(procs, clock, s.last, q);
    }
  }

  // --- Ids over whole runs ---

  /** The id has been given to a mutex, or there are none left to give. */
  predicate MutexIdSpent(s: Kernel, m: nat) {
    s.nextMutex == 0 || m < s.nextMutex
  }

  /** New mutexes come under the next id only, and ids are only counted up. */
  ghost predicate MutexesMove(s: Kernel, s': Kernel) {
    || (s'.nextMutex == s.nextMutex && s'.mutexes.Keys <= s.mutexes.Keys)
    || (s.nextMutex != 0 && s'.nextMutex == NextId(s.nextMutex) && s'.mutexes.Keys <= s.mutexes.Keys + {s.nextMutex})
  }

  lemma TerminateMutexes(s: Kernel, end: RunState, code: nat, visited: seq<nat>, signal: Bytes)
    requires Inv(s) && s.current.Some? && (end.Exited? || end.Killed?)
    ensures MutexesMove(s, Terminate(s, end, code, visited, signal))
  {
    var s0 := Marked(s, end, code);
    assert Calmer(s.procs, s0.procs);
    CalmerKeeps(s, s0);
    UnlockVisitedKeeps(s0, s.current.value, visited);
  }

  lemma CallMutexes(s: Kernel, call: Call)
    requires Inv(s) && s.current.Some? && Enabled(s, call)
    ensures MutexesMove(s, Handle(s, call).0)
  {
    match call
    case Exit(code, visited, signal) => TerminateMutexes(s, Exited, code % 256, visited, signal);
    case UnlockMutex(m) => if Holds(s, m, s.current.value) { UnlockOnceKeeps(s, m); }
    case _ =>
  }

  lemma EntryMutexes(s: Kernel, e: Entry)
    requires Inv(s) && CanEnter(s, e)
    ensures MutexesMove(s, Enter(s, e))
  {
    var s1, s' := EntrySplits(s, e);
    match e
    case Syscall(call, _) => CallMutexes(s, call);
    case Fault(reason, visited, signal, _) => TerminateMutexes(s, Killed, reason, visited, signal);
    case Interrupt(notified, msg, _) => InterruptWakes(s, notified, msg);
  }

  lemma MutexIdStep(states: seq<Kernel>, entries: seq<Entry>, n: nat, clock: nat, k: nat, m: nat)
    requires IsRun(states, entries, n, clock) && k < |entries|
    ensures MutexIdSpent(states[k], m) ==> MutexIdSpent(states[k + 1], m)
    ensures MutexIdSpent(states[k], m) && m !in states[k].mutexes ==> m !in states[k + 1].mutexes
  {
    var s, e, s' := RunStep(states, entries, n, clock, k);
    EntryMutexes(s, e);
  }

  lemma {:induction false} MutexIdStaysSpent(states: seq<Kernel>, entries: seq<Entry>, n: nat, clock: nat,
                                             i: nat, j: nat, m: nat)
    requires IsRun(states, entries, n, clock) && i <= j < |states| && MutexIdSpent(states[i], m)
    ensures MutexIdSpent(states[j], m) && (m !in states[i].mutexes ==> m !in states[j].mutexes)
    decreases j - i
  {
    if i < j {
      MutexIdStep(states, entries, n, clock, i, m);
      MutexIdStaysSpent(states, entries, n, clock, i + 1, j, m);
    }
  }

  lemma MutexHasSpentId(states: seq<Kernel>, entries: seq<Entry>, n: nat, clock: nat, i: nat, m: nat)
    requires IsRun(states, entries, n, clock) && i < |states| && m in states[i].mutexes
    ensures MutexIdSpent(states[i], m)
  {
    RunInv(states, entries, n, clock, i);
  }

  /** A mutex that is gone is gone for good: its id never names another one. */
  lemma MutexIdsNotReused(states: seq<Kernel>, entries: seq<Entry>, n: nat, clock: nat, i: nat, j: nat, k: nat, m: nat)
    requires IsRun(states, entries, n, clock) && i <= j <= k < |states|
    requires m in states[i].mutexes && m !in states[j].mutexes
    ensures m !in states[k].mutexes
  {
    MutexHasSpentId(states, entries, n, clock, i, m);
    MutexIdStaysSpent(states, entries, n, clock, i, j, m);
    MutexIdStaysSpent(states, entries, n, clock, j, k, m);
  }

  /** A created mutex has an id that no mutex ever had before. */
  lemma CreatedIdIsNew(states: seq<Kernel>, entries: seq<Entry>, n: nat, clock: nat, i: nat, k: nat)
    requires IsRun(states, entries, n, clock) && i <= k < |entries|
    requires entries[k].Syscall? && entries[k].call == CreateMutex
    ensures var r := Handle(states[k], CreateMutex).1; r.error == Some(0) ==> r.value !in states[i].mutexes
  {
    var m := states[k].nextMutex;
    if m != 0 && m in states[i].mutexes {
      MutexHasSpentId(states, entries, n, clock, i, m);
      MutexIdStaysSpent(states, entries, n, clock, i, k, m);
    }
  }
}
