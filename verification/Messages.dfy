/** Messages as bytes, and what a message queue promises about them. */
module Messages {
  import opened Basics

  type Bytes = seq<byte>

  const ENOENT: nat := 2
  const EAGAIN: nat := 11
  const ENOMEM: nat := 12
  const ENOMSG: nat := 42
  const EMSGSIZE: nat := 90

  /** The little-endian size field that starts every message. */
  function ReadSize(b: Bytes, p: nat): nat
    requires p + 8 <= |b|
  {
    b[p] as int + 0x100 * b[p + 1] as int + 0x1_0000 * b[p + 2] as int + 0x100_0000 * b[p + 3] as int
    + 0x1_0000_0000 * b[p + 4] as int + 0x100_0000_0000 * b[p + 5] as int
    + 0x1_0000_0000_0000 * b[p + 6] as int + 0x100_0000_0000_0000 * b[p + 7] as int
  }

  /** A message says how long it is, size field included. */
  predicate WellFormed(m: Bytes) {
    |m| >= 8 && ReadSize(m, 0) == |m|
  }

  function Flatten<T>(xs: seq<seq<T>>): seq<T> {
    if xs == [] then [] else xs[0] + Flatten(xs[1..])
  }

  lemma {:induction false} FlattenAppend<T>(xs: seq<seq<T>>, ys: seq<seq<T>>)
    ensures Flatten(xs + ys) == Flatten(xs) + Flatten(ys)
    decreases |xs|
  {
    if xs == [] {
      assert xs + ys == ys;
    } else {
      assert (xs + ys)[1..] == xs[1..] + ys;
      FlattenAppend(xs[1..], ys);
    }
  }

  lemma FlattenSnoc<T>(xs: seq<seq<T>>, x: seq<T>)
    ensures Flatten(xs + [x]) == Flatten(xs) + x
  {
    FlattenAppend(xs, [x]);
    assert Flatten([x]) == x + Flatten<T>([]) == x;
  }

  /** Zero means unlimited. */
  datatype Limits = Limits(items: nat, bytes: nat)

  predicate Accepts(l: Limits, q: seq<Bytes>, m: Bytes) {
    && (l.bytes != 0 ==> |Flatten(q)| + |m| < l.bytes)
    && (l.items != 0 ==> |q| < l.items)
  }

  // --- Runs of a queue, as a sequence of messages ---

  datatype Op = Push(m: Bytes) | Peek(room: nat) | Pop(room: nat)

  /** Whether a receiver with `room` bytes can take the next message. */
  predicate Takes(q: seq<Bytes>, room: nat) {
    q != [] && |q[0]| <= room
  }

  function After(l: Limits, q: seq<Bytes>, op: Op): seq<Bytes> {
    match op
    case Push(m) => if Accepts(l, q, m) then q + [m] else q
    case Peek(_) => q
    case Pop(room) => if Takes(q, room) then q[1..] else q
  }

  function Run(l: Limits, q: seq<Bytes>, ops: seq<Op>): seq<Bytes> {
    if ops == [] then q else After(l, Run(l, q, ops[..|ops| - 1]), ops[|ops| - 1])
  }

  function Accepted(l: Limits, q: seq<Bytes>, ops: seq<Op>): seq<Bytes> {
    if ops == [] then []
    else
      var before, last := ops[..|ops| - 1], ops[|ops| - 1];
      Accepted(l, q, before) + if last.Push? && Accepts(l, Run(l, q, before), last.m) then [last.m] else []
  }

  function Popped(l: Limits, q: seq<Bytes>, ops: seq<Op>): seq<Bytes> {
    if ops == [] then []
    else
      var before, last := ops[..|ops| - 1], ops[|ops| - 1];
      var at := Run(l, q, before);
      Popped(l, q, before) + if last.Pop? && Takes(at, last.room) then [at[0]] else []
  }

  /** First in, first out: what was popped, and then what is left, is what was there, and then what was accepted. */
  lemma {:induction false} PoppedThenQueuedIsAccepted(l: Limits, q: seq<Bytes>, ops: seq<Op>)
    ensures Popped(l, q, ops) + Run(l, q, ops) == q + Accepted(l, q, ops)
    decreases |ops|
  {
    if ops == [] {
      assert Popped(l, q, ops) + q == q + Accepted(l, q, ops);
    } else {
      var before, last := ops[..|ops| - 1], ops[|ops| - 1];
      PoppedThenQueuedIsAccepted(l, q, before);
      var at := Run(l, q, before);
      assert Popped(l, q, before) + [] == Popped(l, q, before) && Accepted(l, q, before) + [] == Accepted(l, q, before);
      if last.Pop? && Takes(at, last.room) {
        assert at == [at[0]] + at[1..];
        assert Popped(l, q, before) + at == Popped(l, q, before) + [at[0]] + at[1..];
      } else if last.Push? && Accepts(l, at, last.m) {
        assert Popped(l, q, before) + (at + [last.m]) == q + Accepted(l, q, before) + [last.m];
        assert q + Accepted(l, q, before) + [last.m] == q + (Accepted(l, q, before) + [last.m]);
      }
    }
  }

  /** The queue is within the limits: not too many messages, and less than so many bytes. */
  predicate Within(l: Limits, q: seq<Bytes>) {
    (l.items != 0 ==> |q| <= l.items) && (l.bytes != 0 ==> |Flatten(q)| < l.bytes)
  }

  /** A message is accepted exactly when the queue is within its limits with it. */
  lemma AcceptedIffWithin(l: Limits, q: seq<Bytes>, m: Bytes)
    ensures After(l, q, Push(m)) == if Within(l, q + [m]) then q + [m] else q
  {
    FlattenSnoc(q, m);
  }

  /** The configured limits hold after every run. */
  lemma {:induction false} LimitsHold(l: Limits, ops: seq<Op>)
    ensures Within(l, Run(l, [], ops))
    decreases |ops|
  {
    if ops != [] {
      var before, last := ops[..|ops| - 1], ops[|ops| - 1];
      LimitsHold(l, before);
      if last.Push? { FlattenSnoc(Run(l, [], before), last.m); }
    }
  }
}
