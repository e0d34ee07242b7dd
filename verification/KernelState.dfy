/**
  The state that the scheduler, the mutexes and the message queues share, and
  what every kernel entry makes of it.

  Process ids are array indices. The current and the last scheduled process are
  `None` where the source holds its invalid pid, 2^64 - 1, which is congruent to
  4095 modulo the table size.
 */
module KernelState {
  import opened Basics
  import opened Messages

  const MAX_PROCS: nat := 4096
  const EPERM: nat := 1
  const EBUSY: nat := 16
  const EINVAL: nat := 22

  datatype RunState = Empty | Waiting | Runnable | Running | Exited | Killed

  datatype Wait = OnMutex(m: nat) | OnMessage(q: nat) | OnTime(deadline: nat)

  datatype Process = Process(state: RunState, wait: Wait, parent: Option<nat>, mq: nat, exitCode: nat)

  /** `depth` counts nested locks; the holder is meaningless at depth zero. */
  datatype Mutex = Mutex(depth: nat, holder: nat)

  datatype Kernel = Kernel(procs: seq<Process>, current: Option<nat>, last: Option<nat>,
                           mutexes: map<nat, Mutex>, nextMutex: nat,
                           queues: map<nat, seq<Bytes>>, nextQueue: nat)

  const NOBODY := Process(Empty, OnTime(0), None, 0, 0)

  /** Ids are 64-bit and never reused: after 2^64 - 1 comes 0, which means that none are left. */
  function NextId(id: nat): nat {
    (id + 1) % 0x1_0000_0000_0000_0000
  }

  predicate Alive(p: Process) {
    p.state.Waiting? || p.state.Runnable? || p.state.Running?
  }

  predicate WaitsFor(p: Process, w: Wait) {
    p.state.Waiting? && p.wait == w
  }

  // --- Cyclic order ---

  /** Where a scan that starts after `o` starts. */
  function Position(o: Option<nat>): nat {
    match o case None => MAX_PROCS - 1 case Some(p) => p
  }

  /** Scans count upwards from where they start; the pid is the count modulo the table size. */
  function Slot(at: nat): (pid: nat)
    ensures pid < MAX_PROCS
  {
    at % 4096
  }

  // --- Scheduling ---

  predicate Ready(p: Process, clock: nat) {
    p.state.Runnable? || (p.state.Waiting? && p.wait.OnTime? && p.wait.deadline <= clock)
  }

  /** The first process of a scan from `at` to `end` that can run. */
  function FirstReady(procs: seq<Process>, clock: nat, at: nat, end: nat): (r: Option<nat>)
    requires |procs| == MAX_PROCS
    ensures r.Some? ==> r.value < MAX_PROCS && Ready(procs[r.value], clock)
    decreases end + 1 - at
  {
    if at > end then None
    else if Ready(procs[Slot(at)], clock) then Some(Slot(at))
    else FirstReady(procs, clock, at + 1, end)
  }

  /** Round robin looks at everybody else first, and at the last scheduled process in the end. */
  function NextInTurn(procs: seq<Process>, clock: nat, last: Option<nat>): (r: Option<nat>)
    requires |procs| == MAX_PROCS
    ensures r.Some? ==> r.value < MAX_PROCS && Ready(procs[r.value], clock)
  {
    FirstReady(procs, clock, Position(last) + 1, Position(last) + MAX_PROCS)
  }

  function SetState(procs: seq<Process>, p: nat, st: RunState): seq<Process>
    requires p < |procs|
  {
    procs[p := procs[p].(state := st)]
  }

  function Preempt(s: Kernel): seq<Process>
    requires s.current.Some? ==> s.current.value < |s.procs|
  {
    if s.current.Some? && s.procs[s.current.value].state.Running?
    then SetState(s.procs, s.current.value, Runnable)
    else s.procs
  }

  predicate Sized(s: Kernel) {
    && |s.procs| == MAX_PROCS
    && (s.current.Some? ==> s.current.value < MAX_PROCS)
    && (s.last.Some? ==> s.last.value < MAX_PROCS)
  }

  function ScheduleNext(s: Kernel, clock: nat): Kernel
    requires Sized(s)
  {
    var procs := Preempt(s);
    match NextInTurn(procs, clock, s.last)
    case None => s.(procs := procs, current := None)
    case Some(p) => s.(procs := SetState(procs, p, Running), current := Some(p), last := Some(p))
  }

  predicate CurrentRuns(s: Kernel)
    requires Sized(s)
  {
    s.current.Some? && (s.procs[s.current.value].state.Running? || s.procs[s.current.value].state.Runnable?)
  }

  function ScheduleIfNeeded(s: Kernel, clock: nat): Kernel
    requires Sized(s)
  {
    if CurrentRuns(s) then s else ScheduleNext(s, clock)
  }

  // --- Wake-ups ---

  /** The first process of a scan from `at` to `end` that waits for the mutex. */
  function FirstWaiter(procs: seq<Process>, m: nat, at: nat, end: nat): (r: Option<nat>)
    requires |procs| == MAX_PROCS
    ensures r.Some? ==> r.value < MAX_PROCS && WaitsFor(procs[r.value], OnMutex(m))
    decreases end - at
  {
    if at >= end then None
    else if WaitsFor(procs[Slot(at)], OnMutex(m)) then Some(Slot(at))
    else FirstWaiter(procs, m, at + 1, end)
  }

  /** Waiters are served in cyclic order from the releasing process. */
  function NextOwner(procs: seq<Process>, m: nat, current: Option<nat>): (r: Option<nat>)
    requires |procs| == MAX_PROCS
    ensures r.Some? ==> r.value < MAX_PROCS && WaitsFor(procs[r.value], OnMutex(m))
  {
    FirstWaiter(procs, m, Position(current), Position(current) + MAX_PROCS)
  }

  /** The mutex was released for good: it passes straight to the first waiter. */
  function Handoff(s: Kernel, m: nat): Kernel
    requires Sized(s)
  {
    match NextOwner(s.procs, m, s.current)
    case None => s
    case Some(w) => s.(procs := SetState(s.procs, w, Runnable), mutexes := s.mutexes[m := Mutex(1, w)])
  }

  function Woken(p: Process, w: Wait): Process {
    if WaitsFor(p, w) then p.(state := Runnable) else p
  }

  /** Everybody who waits for a message in the queue may run. */
  function WakeReceivers(s: Kernel, q: nat): Kernel {
    s.(procs := seq(|s.procs|, i requires 0 <= i < |s.procs| => Woken(s.procs[i], OnMessage(q))))
  }

  function PushTo(s: Kernel, q: nat, m: Bytes): (Kernel, nat) {
    if q !in s.queues then (s, ENOENT)
    else (WakeReceivers(s.(queues := s.queues[q := s.queues[q] + [m]]), q), 0)
  }

  function Block(s: Kernel, w: Wait): Kernel
    requires Sized(s) && s.current.Some?
  {
    var p := s.current.value;
    s.(procs := s.procs[p := s.procs[p].(state := Waiting, wait := w)])
  }

  // --- Mutexes ---

  function UnlockOnce(s: Kernel, m: nat): Kernel
    requires Sized(s) && m in s.mutexes && s.mutexes[m].depth > 0
  {
    var depth := s.mutexes[m].depth - 1;
    var s1 := s.(mutexes := s.mutexes[m := Mutex(depth, s.mutexes[m].holder)]);
    if depth == 0 then Handoff(s1, m) else s1
  }

  predicate Holds(s: Kernel, m: nat, pid: nat) {
    m in s.mutexes && s.mutexes[m].depth > 0 && s.mutexes[m].holder == pid
  }

  /** One unlock for each visited mutex that the process holds. */
  function UnlockVisited(s: Kernel, pid: nat, visited: seq<nat>): (s': Kernel)
    requires Sized(s)
    ensures Sized(s')
    decreases |visited|
  {
    if visited == [] then s
    else
      var s1 := if Holds(s, visited[0], pid) then UnlockOnce(s, visited[0]) else s;
      UnlockVisited(s1, pid, visited[1..])
  }

  // --- Kernel entries ---

  datatype Call =
    | CreateMutex
    | DestroyMutex(m: nat)
    | LockMutex(m: nat, trylock: bool)
    | UnlockMutex(m: nat)
    | Sleep(ns: nat, now: nat)
    | Poll(q: nat, wait: bool, room: nat)
    | Send(q: nat, pid: Option<nat>, msg: Bytes)
    | Exit(code: nat, visited: seq<nat>, signal: Bytes)
    | Clone

  /** `error` is `None` where the handler writes no error; `value` is an id or a size. */
  datatype Reply = Reply(error: Option<nat>, value: nat, msg: Bytes)

  function Failed(e: nat): Reply {
    Reply(Some(e), 0, [])
  }

  const OK := Reply(Some(0), 0, [])

  function Lock(s: Kernel, m: nat, trylock: bool): (Kernel, Reply)
    requires Sized(s) && s.current.Some?
  {
    if m !in s.mutexes then (s, Failed(EINVAL))
    else if s.mutexes[m].depth > 0 && s.mutexes[m].holder != s.current.value then
      if trylock then (s, Failed(EBUSY)) else (Block(s, OnMutex(m)), OK)
    else (s.(mutexes := s.mutexes[m := Mutex(s.mutexes[m].depth + 1, s.current.value)]), OK)
  }

  function Unlock(s: Kernel, m: nat): (Kernel, Reply)
    requires Sized(s) && s.current.Some?
  {
    if m !in s.mutexes then (s, Failed(EINVAL))
    else if s.mutexes[m].depth == 0 then (s, OK)
    else if s.mutexes[m].holder != s.current.value then (s, Failed(EPERM))
    else (UnlockOnce(s, m), OK)
  }

  function PollQueue(s: Kernel, q: nat, wait: bool, room: nat): (Kernel, Reply)
    requires Sized(s) && s.current.Some?
  {
    if q !in s.queues then (s, Failed(ENOENT))
    else if s.queues[q] == [] then
      if wait then (Block(s, OnMessage(q)), Failed(EAGAIN)) else (s, Failed(ENOMSG))
    else if Takes(s.queues[q], room) then
      (s.(queues := s.queues[q := s.queues[q][1..]]), Reply(Some(0), |s.queues[q][0]|, s.queues[q][0]))
    else (s, Reply(Some(EMSGSIZE), |s.queues[q][0]|, []))
  }

  /** The queue a send goes to; 0 when the receiver does not exist. */
  function Target(s: Kernel, q: nat, pid: Option<nat>): nat
    requires Sized(s) && s.current.Some?
  {
    if q != 0 then q
    else match pid
      case None => s.procs[s.current.value].mq
      case Some(p) => if p < MAX_PROCS && !s.procs[p].state.Empty? then s.procs[p].mq else 0
  }

  /** The sender field, bytes 16 to 23, is overwritten with the sender's pid. */
  function Stamped(m: Bytes, pid: nat): (r: Bytes)
    requires pid < MAX_PROCS
    ensures |r| == |m| && forall i :: 0 <= i < |m| && !(16 <= i < 24) ==> r[i] == m[i]
  {
    seq(|m|, i requires 0 <= i < |m| =>
      if i == 16 then pid % 256 else if i == 17 then pid / 256 else if 16 <= i < 24 then 0 else m[i])
  }

  function Cleanup(s: Kernel, pid: nat, visited: seq<nat>, signal: Bytes): Kernel
    requires Sized(s) && pid < MAX_PROCS
  {
    var s1 := UnlockVisited(s, pid, visited);
    var parent := s.procs[pid].parent;
    var s2 := if parent.Some? && parent.value < |s1.procs| && Alive(s1.procs[parent.value])
              then PushTo(s1, s1.procs[parent.value].mq, signal).0 else s1;
    s2.(queues := s2.queues - {s.procs[pid].mq})
  }

  function Terminate(s: Kernel, end: RunState, code: nat, visited: seq<nat>, signal: Bytes): Kernel
    requires Sized(s) && s.current.Some?
  {
    var p := s.current.value;
    Cleanup(s.(procs := s.procs[p := s.procs[p].(state := end, exitCode := code)]), p, visited, signal)
  }

  /** The lowest free pid. */
  function FreePid(procs: seq<Process>, i: nat): Option<nat>
    decreases |procs| - i
  {
    if i >= |procs| then None else if procs[i].state.Empty? then Some(i) else FreePid(procs, i + 1)
  }

  function SetupProcess(s: Kernel, pid: nat, parent: Option<nat>): Kernel
    requires Sized(s) && pid < MAX_PROCS
  {
    var p := s.procs[pid].(state := Runnable, parent := parent, mq := s.nextQueue);
    s.(procs := s.procs[pid := p], queues := s.queues[s.nextQueue := []], nextQueue := NextId(s.nextQueue))
  }

  /** Where the source would halt the machine there is no next state. */
  predicate Enabled(s: Kernel, call: Call)
    requires Sized(s)
  {
    match call
    case Send(_, _, msg) => WellFormed(msg)
    case Exit(_, visited, signal) => Ascending(visited) && WellFormed(signal)
    case Clone => FreePid(s.procs, 0).Some? && s.nextQueue != 0
    case _ => true
  }

  predicate Ascending(visited: seq<nat>) {
    forall i, j :: 0 <= i < j < |visited| ==> visited[i] < visited[j]
  }

  function Handle(s: Kernel, call: Call): (Kernel, Reply)
    requires Sized(s) && s.current.Some? && Enabled(s, call)
  {
    var p := s.current.value;
    match call
    case CreateMutex =>
      if s.nextMutex == 0 then (s, Failed(ENOMEM))
      else (s.(mutexes := s.mutexes[s.nextMutex := Mutex(0, 0)], nextMutex := NextId(s.nextMutex)),
            Reply(Some(0), s.nextMutex, []))
    case DestroyMutex(m) =>
      if m !in s.mutexes then (s, Failed(EINVAL))
      else if s.mutexes[m].depth > 0 then (s, Failed(EBUSY))
      else (s.(mutexes := s.mutexes - {m}), OK)
    case LockMutex(m, trylock) => Lock(s, m, trylock)
    case UnlockMutex(m) => Unlock(s, m)
    case Sleep(ns, now) =>
      (Block(s, OnTime(if ns == 0 then 0 else (now + ns) % 0x1_0000_0000_0000_0000)), Reply(None, 0, []))
    case Poll(q, wait, room) => PollQueue(s, if q == 0 then s.procs[p].mq else q, wait, room)
    case Send(q, pid, msg) =>
      var target := Target(s, q, pid);
      if target == 0 then (s, Reply(None, 0, []))
      else var (s', e) := PushTo(s, target, Stamped(msg, p)); (s', Failed(e))
    case Exit(code, visited, signal) => (Terminate(s, Exited, code % 256, visited, signal), Reply(None, 0, []))
    case Clone =>
      var pid := FreePid(s.procs, 0).value;
      if pid < MAX_PROCS then (SetupProcess(s, pid, Some(p)), Reply(None, pid, [])) else (s, OK)
  }

  datatype Entry =
    | Syscall(call: Call, clock: nat)
    | Fault(reason: nat, visited: seq<nat>, signal: Bytes, clock: nat)
    | Interrupt(notified: seq<nat>, msg: Bytes, clock: nat)

  function PushAll(s: Kernel, notified: seq<nat>, msg: Bytes): (s': Kernel)
    ensures Sized(s) ==> Sized(s')
    decreases |notified|
  {
    if notified == [] then s else PushAll(PushTo(s, notified[0], msg).0, notified[1..], msg)
  }

  /** The state a handler leaves behind, before the kernel decides who runs next. */
  function Handled(s: Kernel, e: Entry): (s': Kernel)
    requires Sized(s) && CanEnter(s, e)
    ensures Sized(s')
  {
    match e
    case Syscall(call, _) => Handle(s, call).0
    case Fault(reason, visited, signal, _) => Terminate(s, Killed, reason, visited, signal)
    case Interrupt(notified, msg, _) => PushAll(s, notified, msg)
  }

  /** Only a running process calls or faults; interrupts arrive at any time. */
  predicate CanEnter(s: Kernel, e: Entry)
    requires Sized(s)
  {
    match e
    case Syscall(call, _) => s.current.Some? && Enabled(s, call)
    case Fault(reason, visited, signal, _) => s.current.Some? && Ascending(visited) && WellFormed(signal)
    case Interrupt(_, msg, _) => WellFormed(msg)
  }

  /**
    A system call or fault gives up the processor only if the process can go on no
    longer; an interrupt always does.
   */
  predicate Reschedules(s: Kernel, e: Entry)
    requires Sized(s) && CanEnter(s, e)
  {
    e.Interrupt? || !CurrentRuns(Handled(s, e))
  }

  function Enter(s: Kernel, e: Entry): Kernel
    requires Sized(s) && CanEnter(s, e)
  {
    if e.Interrupt? then ScheduleNext(Handled(s, e), e.clock) else ScheduleIfNeeded(Handled(s, e), e.clock)
  }

  // --- Runs ---

  /** The table after the boot code has started the first `n` tasks. */
  function Boot(n: nat): (s: Kernel)
    requires n <= MAX_PROCS
    ensures |s.procs| == MAX_PROCS && s.current == s.last == None
  {
    if n == 0 then Kernel(seq(4096, i => NOBODY), None, None, map[], 1, map[], 1)
    else SetupProcess(Boot(n - 1), n - 1, None)
  }

  ghost predicate IsRun(states: seq<Kernel>, entries: seq<Entry>, n: nat, clock: nat) {
    && |states| == |entries| + 1
    && n <= MAX_PROCS && states[0] == ScheduleNext(Boot(n), clock)
    && (forall k :: 0 <= k < |states| ==> Sized(states[k]))
    && (forall k {:trigger entries[k]} :: 0 <= k < |entries| ==> CanEnter(states[k], entries[k]))
    && (forall k :: 0 <= k < |entries| ==> IsStep(states, entries, k))
  }

  predicate IsStep(states: seq<Kernel>, entries: seq<Entry>, k: nat) {
    && k < |entries| && k + 1 < |states| && Sized(states[k]) && CanEnter(states[k], entries[k])
    && states[k + 1] == Enter(states[k], entries[k])
  }
}
