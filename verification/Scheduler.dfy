/**
  The kernel's blocking primitives as the source runs them: a fixed process
  table, a table of mutexes and a table of message queues, changed in place.
  Every operation is proved to do what KernelState says of the abstract state.
 */
module Scheduler {
  import opened Basics
  import opened Messages
  import opened MessageQueues
  import opened KernelState
  import KI = KernelInvariants

  /** `sizeof(struct Message)`: four header fields and the largest member of the payload union. */
  const MESSAGE_HEADER_SIZE: nat := 60

  class Machine {
    const processes: array<Process>
    var current: Option<nat>
    var lastScheduled: Option<nat>
    var mutexes: map<nat, Mutex>
    var nextMutex: nat
    var queues: map<nat, MessageQueue>
    var nextQueue: nat
    ghost var contents: map<nat, seq<Bytes>>

    /** Each queue is an object of its own, without limits, and `contents` is what they hold. */
    ghost predicate QueuesOk()
      reads this`queues, this`contents, queues.Values
    {
      && contents.Keys == queues.Keys
      && (forall q :: q in queues ==>
            queues[q].Valid() && queues[q].Limit() == Limits(0, 0) && queues[q].Contents() == contents[q])
      && (forall q, r :: q in queues && r in queues && q != r ==> queues[q] != queues[r])
      && (forall q :: q in queues ==> queues[q] as object != this && queues[q] as object != processes)
    }

    ghost predicate Valid()
      reads this, processes, queues.Values
    {
      && processes.Length == MAX_PROCS
      && (current.Some? ==> current.value < MAX_PROCS)
      && (lastScheduled.Some? ==> lastScheduled.value < MAX_PROCS)
      && QueuesOk()
    }

    ghost function Abs(): Kernel
      reads this, processes
    {
      Kernel(processes[..], current, lastScheduled, mutexes, nextMutex, contents, nextQueue)
    }

    constructor ()
      ensures Valid() && Abs() == Boot(0)
    {
      processes := new Process[MAX_PROCS](i => NOBODY);
      current, lastScheduled, mutexes, nextMutex, queues, contents, nextQueue := None, None, map[], 1, map[], map[], 1;
      new;
      assert processes[..] == Boot(0).procs;
    }

    /** The scan of `schedule_next`: sleepers whose time has come count as runnable; the clock is read at most once. */
    method PickNext(clock: nat)
      requires processes.Length == MAX_PROCS && (lastScheduled.Some? ==> lastScheduled.value < MAX_PROCS)
      modifies this`current, processes
      ensures var r := NextInTurn(old(processes[..]), clock, lastScheduled);
        if r.Some? then current == r && processes[..] == SetState(old(processes[..]), r.value, Runnable)
        else current == old(current) && processes[..] == old(processes[..])
    {
      ghost var procs, from := processes[..], Position(lastScheduled);
      var timestamp := 0;
      var i := 1;
      while i <= MAX_PROCS
        invariant 1 <= i <= MAX_PROCS + 1
        invariant timestamp == 0 || timestamp == clock
        invariant processes[..] == procs && current == old(current)
        invariant NextInTurn(procs, clock, lastScheduled) == FirstReady(procs, clock, from + i, from + MAX_PROCS)
      {
        var pid := Slot(Position(lastScheduled) + i);
        var p := processes[pid];
        if p.state.Waiting? && p.wait.OnTime? {
          if p.wait.deadline != 0 && timestamp == 0 { timestamp := clock; }
          if p.wait.deadline <= timestamp { processes[pid] := p.(state := Runnable); }
        }
        if processes[pid].state.Runnable? {
          current := Some(pid);
          return;
        }
        i := i + 1;
      }
    }

    /** Round robin: the first process after the last scheduled one that can run, or nobody. */
    method ScheduleNext(clock: nat)
      requires Valid()
      modifies this`current, this`lastScheduled, processes
      ensures Valid() && Abs() == KernelState.ScheduleNext(old(Abs()), clock)
    {
      PreemptCurrent();
      RunNext(clock);
    }

    method PreemptCurrent()
      requires Valid()
      modifies processes
      ensures processes[..] == Preempt(old(Abs())) && !CurrentIsRunning(Abs())
    {
      if current.Some? && processes[current.value].state.Running? {
        processes[current.value] := processes[current.value].(state := Runnable);
      }
    }

    method RunNext(clock: nat)
      requires Valid() && !CurrentIsRunning(Abs())
      modifies this`current, this`lastScheduled, processes
      ensures Valid()
      ensures var procs := old(processes[..]);
        match NextInTurn(procs, clock, old(lastScheduled))
        case None => current == None && lastScheduled == old(lastScheduled) && processes[..] == procs
        case Some(p) => current == lastScheduled == Some(p) && processes[..] == SetState(procs, p, Running)
    {
      ghost var procs := processes[..];
      NobodyReady(procs, clock, lastScheduled, current);
      PickNext(clock);
      var idle := IdleIfNeeded();
      if idle { return; }
      StartCurrent(procs);
    }

    method StartCurrent(ghost procs: seq<Process>)
      requires Valid() && current.Some? && |procs| == MAX_PROCS
      requires processes[..] == SetState(procs, current.value, Runnable)
      modifies this`lastScheduled, processes
      ensures Valid() && lastScheduled == current && processes[..] == SetState(procs, current.value, Running)
    {
      lastScheduled := current;
      processes[current.value] := processes[current.value].(state := Running);
    }

    method IdleIfNeeded() returns (idle: bool)
      requires processes.Length == MAX_PROCS && (current.Some? ==> current.value < MAX_PROCS)
      modifies this`current
      ensures idle <==> !(old(current).Some? && CanGoOn(processes[old(current).value]))
      ensures current == if idle then None else old(current)
    {
      if current.None? || (!processes[current.value].state.Runnable? && !processes[current.value].state.Running?) {
        current := None;
        return true;
      }
      return false;
    }

    method ScheduleIfNeeded(clock: nat)
      requires Valid()
      modifies this`current, this`lastScheduled, processes
      ensures Valid() && Abs() == KernelState.ScheduleIfNeeded(old(Abs()), clock)
    {
      if current.None? || !CanGoOn(processes[current.value]) { ScheduleNext(clock); }
    }

    method WaitFor(w: Wait)
      requires Valid() && current.Some?
      modifies processes
      ensures Valid() && Abs() == Block(old(Abs()), w)
    {
      var p := current.value;
      processes[p] := processes[p].(state := Waiting, wait := w);
    }

    // --- Mutexes ---

    /** The source halts when the mutex does not exist. */
    method MutexLock(m: nat, holder: nat) returns (locked: bool)
      requires m in mutexes
      modifies this`mutexes
      ensures locked <==> old(mutexes)[m].depth == 0 || old(mutexes)[m].holder == holder
      ensures mutexes == if locked then old(mutexes)[m := Mutex(old(mutexes)[m].depth + 1, holder)] else old(mutexes)
    {
      var data := mutexes[m];
      if data.depth > 0 && data.holder != holder { return false; }
      mutexes := mutexes[m := Mutex(data.depth + 1, holder)];
      return true;
    }

    /** `scheduler_waitable_done` for a mutex that was just released: whoever gets the lock may run. */
    method MutexDone(m: nat)
      requires Valid() && m in mutexes && mutexes[m].depth == 0
      modifies this`mutexes, processes
      ensures Valid() && Abs() == Handoff(old(Abs()), m)
    {
      ghost var procs, from := processes[..], Position(current);
      var i := 0;
      while i < MAX_PROCS
        invariant 0 <= i <= MAX_PROCS && m in mutexes
        invariant if mutexes[m].depth == 0
                  then mutexes == old(mutexes) && processes[..] == procs
                       && NextOwner(procs, m, current) == FirstWaiter(procs, m, from + i, from + MAX_PROCS)
                  else NextOwner(procs, m, current) == Some(mutexes[m].holder)
                       && mutexes == old(mutexes)[m := Mutex(1, mutexes[m].holder)]
                       && processes[..] == SetState(procs, mutexes[m].holder, Runnable)
      {
        var pid := Slot(Position(current) + i);
        var p := processes[pid];
        if WaitsFor(p, OnMutex(m)) {
          var locked := MutexLock(m, pid);
          if locked { processes[pid] := p.(state := Runnable); }
        }
        i := i + 1;
      }
    }

    /** `scheduler_waitable_done` for a queue: every process that waits for it may run. */
    method MessageDone(q: nat)
      requires Valid()
      modifies processes
      ensures Valid() && Abs() == WakeReceivers(old(Abs()), q)
    {
      ghost var procs, from := processes[..], Position(current);
      var i := 0;
      while i < MAX_PROCS
        invariant 0 <= i <= MAX_PROCS
        invariant forall p :: 0 <= p < MAX_PROCS ==>
                    processes[p] == if KI.DistanceFrom(from, p) < i then Woken(procs[p], OnMessage(q)) else procs[p]
      {
        var pid := Slot(Position(current) + i);
        var p := processes[pid];
        KI.SlotDistanceFrom(from, from + i);
        if WaitsFor(p, OnMessage(q)) { processes[pid] := p.(state := Runnable); }
        i := i + 1;
      }
      assert processes[..] == WakeReceivers(old(Abs()), q).procs;
    }

    method MutexUnlock(m: nat, holder: nat) returns (ok: bool)
      requires Valid()
      requires m in mutexes && mutexes[m].depth > 0 ==> mutexes[m].holder == holder
      modifies this`mutexes, processes
      ensures Valid()
      ensures ok <==> m in old(mutexes) && old(mutexes)[m].depth > 0
      ensures Abs() == if ok then UnlockOnce(old(Abs()), m) else old(Abs())
    {
      if m !in mutexes { return false; }
      var data := mutexes[m];
      if data.depth == 0 { return false; }
      mutexes := mutexes[m := Mutex(data.depth - 1, data.holder)];
      if data.depth == 1 { MutexDone(m); }
      return true;
    }

    /** `mutex_unlock_holder`, given the ids its traversal visits. */
    method UnlockHolder(pid: nat, visited: seq<nat>)
      requires Valid()
      modifies this`mutexes, processes
      ensures Valid() && Abs() == UnlockVisited(old(Abs()), pid, visited)
    {
      var i := 0;
      while i < |visited|
        invariant 0 <= i <= |visited| && Valid()
        invariant UnlockVisited(Abs(), pid, visited[i..]) == UnlockVisited(old(Abs()), pid, visited)
      {
        var m := visited[i];
        assert visited[i..][0] == m && visited[i..][1..] == visited[i + 1..];
        if m in mutexes && mutexes[m].depth > 0 && mutexes[m].holder == pid {
          var ok := MutexUnlock(m, pid);
        }
        i := i + 1;
      }
    }

    method CreateMutex() returns (reply: Reply)
      requires Valid() && current.Some?
      modifies this`mutexes, this`nextMutex
      ensures Valid() && (Abs(), reply) == Handle(old(Abs()), Call.CreateMutex)
    {
      if nextMutex == 0 { return Failed(ENOMEM); }
      var id := nextMutex;
      mutexes := mutexes[id := Mutex(0, 0)];
      nextMutex := NextId(nextMutex);
      return Reply(Some(0), id, []);
    }

    method DestroyMutex(m: nat) returns (reply: Reply)
      requires Valid() && current.Some?
      modifies this`mutexes
      ensures Valid() && (Abs(), reply) == Handle(old(Abs()), Call.DestroyMutex(m))
    {
      if m !in mutexes { return Failed(EINVAL); }
      if mutexes[m].depth > 0 { return Failed(EBUSY); }
      mutexes := mutexes - {m};
      return OK;
    }

    method LockMutex(m: nat, trylock: bool) returns (reply: Reply)
      requires Valid() && current.Some?
      modifies this`mutexes, processes
      ensures Valid() && (Abs(), reply) == Handle(old(Abs()), Call.LockMutex(m, trylock))
    {
      if m !in mutexes { return Failed(EINVAL); }
      if mutexes[m].depth > 0 && mutexes[m].holder != current.value {
        if trylock { return Failed(EBUSY); }
        WaitFor(OnMutex(m));
        return OK;
      }
      var locked := MutexLock(m, current.value);
      assert locked;
      return OK;
    }

    method UnlockMutex(m: nat) returns (reply: Reply)
      requires Valid() && current.Some?
      modifies this`mutexes, processes
      ensures Valid() && (Abs(), reply) == Handle(old(Abs()), Call.UnlockMutex(m))
    {
      if m !in mutexes { return Failed(EINVAL); }
      if mutexes[m].depth == 0 { return OK; }
      if mutexes[m].holder != current.value { return Failed(EPERM); }
      var ok := MutexUnlock(m, current.value);
      return OK;
    }

    method Sleep(ns: nat, now: nat) returns (reply: Reply)
      requires Valid() && current.Some?
      modifies processes
      ensures Valid() && (Abs(), reply) == Handle(old(Abs()), Call.Sleep(ns, now))
    {
      var deadline := 0;
      if ns != 0 { deadline := (now + ns) % 0x1_0000_0000_0000_0000; }
      WaitFor(OnTime(deadline));
      return Reply(None, 0, []);
    }

    // --- Message queues ---

    method MqCreate() returns (id: nat)
      requires Valid() && nextQueue != 0
      modifies this`queues, this`contents, this`nextQueue
      ensures Valid() && id == old(nextQueue)
      ensures Abs() == old(Abs()).(queues := old(contents)[id := []], nextQueue := NextId(id))
    {
      id := nextQueue;
      var mq := new MessageQueue();
      queues := queues[id := mq];
      contents := contents[id := []];
      nextQueue := NextId(nextQueue);
    }

    method MqDestroy(q: nat)
      requires Valid()
      modifies this`queues, this`contents
      ensures Valid() && Abs() == old(Abs()).(queues := old(contents) - {q})
    {
      queues := queues - {q};
      contents := contents - {q};
    }

    method MqPush(q: nat, m: Bytes) returns (error: nat)
      requires Valid() && WellFormed(m)
      modifies this`contents, processes, queues.Values
      ensures Valid() && (Abs(), error) == PushTo(old(Abs()), q, m)
    {
      if q !in queues { return ENOENT; }
      PushQueue(q, m);
      MessageDone(q);
      return 0;
    }

    method PushQueue(q: nat, m: Bytes)
      requires QueuesOk() && q in queues && WellFormed(m)
      modifies this`contents, queues[q]
      ensures QueuesOk() && contents == old(contents)[q := old(contents)[q] + [m]]
    {
      var error := queues[q].Push(m);
      contents := contents[q := contents[q] + [m]];
      QueueChanged(q);
    }

    /** One queue changed, and `contents` with it. */
    twostate lemma QueueChanged(q: nat)
      requires old(QueuesOk()) && q in queues && queues == old(queues) && contents.Keys == queues.Keys
      requires queues[q].Valid() && queues[q].Limit() == Limits(0, 0) && queues[q].Contents() == contents[q]
      requires forall r :: r in queues && r != q ==> unchanged(queues[r]) && contents[r] == old(contents)[r]
      ensures QueuesOk()
    {
    }

    method MqPeek(q: nat, room: nat) returns (error: nat, msg: Bytes, size: nat)
      requires Valid()
      ensures q !in contents ==> error == ENOENT
      ensures q in contents && contents[q] == [] ==> error == ENOMSG
      ensures q in contents && contents[q] != [] ==>
        size == |contents[q][0]| && (if size <= room then error == 0 && msg == contents[q][0] else error == EMSGSIZE)
    {
      if q !in queues { return ENOENT, [], room; }
      error, msg, size := queues[q].Peek(room);
    }

    method MqPop(q: nat, room: nat) returns (error: nat, msg: Bytes, size: nat)
      requires Valid() && q in contents && contents[q] != []
      modifies this`contents, queues.Values
      ensures Valid()
      ensures size == |old(contents)[q][0]|
      ensures if size <= room then error == 0 && msg == old(contents)[q][0] else error == EMSGSIZE
      ensures Abs() == if error != 0 then old(Abs())
                       else old(Abs()).(queues := old(contents)[q := old(contents)[q][1..]])
    {
      error, msg, size := PopQueue(q, room);
    }

    method PopQueue(q: nat, room: nat) returns (error: nat, msg: Bytes, size: nat)
      requires QueuesOk() && q in queues && contents[q] != []
      modifies this`contents, queues[q]
      ensures QueuesOk() && size == |old(contents)[q][0]|
      ensures if size <= room then error == 0 && msg == old(contents)[q][0] else error == EMSGSIZE
      ensures contents == if error == 0 then old(contents)[q := old(contents)[q][1..]] else old(contents)
    {
      error, msg, size := queues[q].Pop(room);
      if error == 0 {
        contents := contents[q := contents[q][1..]];
      }
      QueueChanged(q);
    }

    /** A first look with room for a bare message header, then the real thing. */
    method Poll(mq: nat, wait: bool, room: nat) returns (reply: Reply)
      requires Valid() && current.Some?
      modifies this`contents, processes, queues.Values
      ensures Valid() && (Abs(), reply) == Handle(old(Abs()), Call.Poll(mq, wait, room))
    {
      reply := PollFrom(if mq == 0 then processes[current.value].mq else mq, wait, room);
    }

    method PollFrom(q: nat, wait: bool, room: nat) returns (reply: Reply)
      requires Valid() && current.Some?
      modifies this`contents, processes, queues.Values
      ensures Valid() && (Abs(), reply) == PollQueue(old(Abs()), q, wait, room)
    {
      var error, peeked, size := MqPeek(q, MESSAGE_HEADER_SIZE);
      if error == ENOMSG && wait {
        WaitFor(OnMessage(q));
        return Failed(EAGAIN);
      }
      if error == EMSGSIZE {
        if size > room { return Reply(Some(EMSGSIZE), size, []); }
        error := 0;
      }
      if error != 0 { return Failed(error); }
      var msg;
      error, msg, size := MqPop(q, room);
      return Reply(Some(error), size, if error == 0 then msg else []);
    }

    method Send(mq: nat, pid: Option<nat>, msg: Bytes) returns (reply: Reply)
      requires Valid() && current.Some? && WellFormed(msg)
      modifies this`contents, processes, queues.Values
      ensures Valid() && (Abs(), reply) == Handle(old(Abs()), Call.Send(mq, pid, msg))
    {
      var stamped := Stamped(msg, current.value);
      var q := mq;
      if q == 0 {
        if pid.Some? {
          if pid.value < MAX_PROCS && !processes[pid.value].state.Empty? { q := processes[pid.value].mq; }
        } else {
          q := processes[current.value].mq;
        }
      }
      if q == 0 { return Reply(None, 0, []); }
      KI.StampedWellFormed(msg, current.value);
      var error := MqPush(q, stamped);
      return Failed(error);
    }

    method Notify(notified: seq<nat>, msg: Bytes)
      requires Valid() && WellFormed(msg)
      modifies this`contents, processes, queues.Values
      ensures Valid() && Abs() == PushAll(old(Abs()), notified, msg)
    {
      var i := 0;
      while i < |notified|
        invariant 0 <= i <= |notified| && Valid() && queues == old(queues)
        invariant PushAll(Abs(), notified[i..], msg) == PushAll(old(Abs()), notified, msg)
      {
        KI.PushAllNext(Abs(), notified, i, msg);
        var error := MqPush(notified[i], msg);
        i := i + 1;
      }
    }

    // --- Processes ---

    method ProcessCleanup(pid: nat, visited: seq<nat>, signal: Bytes)
      requires Valid() && pid < MAX_PROCS && WellFormed(signal)
      modifies this`mutexes, this`queues, this`contents, processes, queues.Values
      ensures Valid() && Abs() == Cleanup(old(Abs()), pid, visited, signal)
    {
      var mq, parent := processes[pid].mq, processes[pid].parent;
      UnlockHolder(pid, visited);
      if parent.Some? && parent.value < MAX_PROCS && Alive(processes[parent.value]) {
        var error := MqPush(processes[parent.value].mq, signal);
      }
      MqDestroy(mq);
    }

    method Exit(code: nat, visited: seq<nat>, signal: Bytes) returns (reply: Reply)
      requires Valid() && current.Some? && Ascending(visited) && WellFormed(signal)
      modifies this`mutexes, this`queues, this`contents, processes, queues.Values
      ensures Valid() && (Abs(), reply) == Handle(old(Abs()), Call.Exit(code, visited, signal))
    {
      var p := current.value;
      processes[p] := processes[p].(state := Exited, exitCode := code % 256);
      ProcessCleanup(p, visited, signal);
      return Reply(None, 0, []);
    }

    method KillCurrent(reason: nat, visited: seq<nat>, signal: Bytes)
      requires Valid() && current.Some? && WellFormed(signal)
      modifies this`mutexes, this`queues, this`contents, processes, queues.Values
      ensures Valid() && Abs() == Terminate(old(Abs()), Killed, reason, visited, signal)
    {
      var p := current.value;
      processes[p] := processes[p].(state := Killed, exitCode := reason);
      ProcessCleanup(p, visited, signal);
    }

    method FindFreePid() returns (pid: Option<nat>)
      ensures pid == FreePid(processes[..], 0)
    {
      var i := 0;
      while i < processes.Length
        invariant 0 <= i <= processes.Length
        invariant FreePid(processes[..], 0) == FreePid(processes[..], i)
      {
        if processes[i].state.Empty? { return Some(i); }
        i := i + 1;
      }
      return None;
    }

    /** `setup_process`, with the parent its callers fill in. The source halts when no pid or no queue id is left. */
    method StartProcess(parent: Option<nat>) returns (pid: nat)
      requires Valid() && FreePid(processes[..], 0).Some? && nextQueue != 0
      modifies this`queues, this`contents, this`nextQueue, processes
      ensures Valid() && pid < MAX_PROCS && old(processes[pid]).state.Empty?
      ensures Some(pid) == FreePid(old(processes[..]), 0)
      ensures Abs() == SetupProcess(old(Abs()), pid, parent)
    {
      var free := FindFreePid();
      pid := free.value;
      KI.FreePidIsEmpty(processes[..], 0);
      processes[pid] := processes[pid].(state := Runnable);
      var id := MqCreate();
      processes[pid] := processes[pid].(mq := id, parent := parent);
      assert processes[..] == SetupProcess(old(Abs()), pid, parent).procs;
    }

    method Clone() returns (reply: Reply)
      requires Valid() && current.Some? && Enabled(Abs(), Call.Clone)
      modifies this`queues, this`contents, this`nextQueue, processes
      ensures Valid() && (Abs(), reply) == Handle(old(Abs()), Call.Clone)
    {
      var pid := StartProcess(current);
      return Reply(None, pid, []);
    }

    /** The system call table. */
    method Dispatch(call: Call) returns (reply: Reply)
      requires Valid() && current.Some? && Enabled(Abs(), call)
      modifies this, processes, queues.Values
      ensures Valid() && (Abs(), reply) == Handle(old(Abs()), call)
    {
      match call
      case CreateMutex => reply := CreateMutex();
      case DestroyMutex(m) => reply := DestroyMutex(m);
      case LockMutex(m, trylock) => reply := LockMutex(m, trylock);
      case UnlockMutex(m) => reply := UnlockMutex(m);
      case Sleep(ns, now) => reply := Sleep(ns, now);
      case Poll(q, wait, room) => reply := Poll(q, wait, room);
      case Send(q, pid, msg) => reply := Send(q, pid, msg);
      case Exit(code, visited, signal) => reply := Exit(code, visited, signal);
      case Clone => reply := Clone();
    }

    /** One kernel entry: the handler, and then whoever is to run next. */
    method Enter(e: Entry)
      requires Valid() && CanEnter(Abs(), e)
      modifies this, processes, queues.Values
      ensures Valid() && Abs() == KernelState.Enter(old(Abs()), e)
    {
      match e
      case Syscall(call, clock) =>
        var _ := Dispatch(call);
        ScheduleIfNeeded(clock);
      case Fault(reason, visited, signal, clock) =>
        KillCurrent(reason, visited, signal);
        ScheduleIfNeeded(clock);
      case Interrupt(notified, msg, clock) =>
        Notify(notified, msg);
        ScheduleNext(clock);
    }
  }

  predicate CurrentIsRunning(s: Kernel)
    requires Sized(s)
  {
    s.current.Some? && s.procs[s.current.value].state.Running?
  }

  predicate CanGoOn(p: Process) {
    p.state.Runnable? || p.state.Running?
  }

  /** When the whole scan finds nobody, the current process cannot go on either. */
  lemma NobodyReady(procs: seq<Process>, clock: nat, last: Option<nat>, current: Option<nat>)
    requires |procs| == MAX_PROCS && (last.Some? ==> last.value < MAX_PROCS)
    requires (current.Some? ==> current.value < MAX_PROCS)
    ensures NextInTurn(procs, clock, last).None? ==> current.Some? ==> !procs[current.value].state.Runnable?
  {
    if current.Some? && procs[current.value].state.Runnable? {
      KI.NextInTurnNearest(procs, clock, last, current.value);
    }
  }
}
