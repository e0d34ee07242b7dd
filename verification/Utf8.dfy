/**
  The terminal's UTF-8: a decoder that carries an unfinished sequence from one
  chunk of bytes to the next, and the encoder. Sequences have up to six bytes,
  as in section 2 of RFC 2279.
 */
module Utf8 {
  import opened Basics

  const INVALID: nat := 0xFFFD

  // --- Encoding ---

  function SeqLen(cp: nat): (n: nat)
    ensures 1 <= n <= 6
  {
    if cp < 0x80 then 1
    else if cp < 0x800 then 2
    else if cp < 0x1_0000 then 3
    else if cp < 0x20_0000 then 4
    else if cp < 0x400_0000 then 5
    else 6
  }

  /** The marker bits of the first byte of a sequence of `n` bytes. */
  function Lead(n: nat): nat
    requires 1 <= n <= 6
  {
    if n == 1 then 0 else if n == 2 then 0xC0 else if n == 3 then 0xE0
    else if n == 4 then 0xF0 else if n == 5 then 0xF8 else 0xFC
  }

  /** How many values the other bits of the first byte have. */
  function Payload(n: nat): (p: nat)
    requires 1 <= n <= 6
    ensures p > 0 && Lead(n) + p <= 256
  {
    if n == 1 then 128 else if n == 2 then 32 else if n == 3 then 16
    else if n == 4 then 8 else if n == 5 then 4 else 2
  }

  /** The first `k` bytes of a sequence of `n` bytes, when they carry the value `v`. */
  function Bytes(n: nat, k: nat, v: nat): (s: seq<byte>)
    requires 1 <= k <= n <= 6
    ensures |s| == k
    decreases k
  {
    if k == 1 then [Lead(n) + v % Payload(n)] else Bytes(n, k - 1, v / 64) + [0x80 + v % 64]
  }

  function Encode(cp: nat): seq<byte> {
    Bytes(SeqLen(cp), SeqLen(cp), cp)
  }

  function EncodeAll(cps: seq<nat>): seq<byte> {
    if cps == [] then [] else EncodeAll(cps[..|cps| - 1]) + Encode(cps[|cps| - 1])
  }

  /** One more than the greatest value that `k` of `n` bytes can carry. */
  function Limit(n: nat, k: nat): nat
    requires 1 <= k <= n <= 6
    decreases k
  {
    if k == 1 then Payload(n) else 64 * Limit(n, k - 1)
  }

  /** The least value that needs `n` bytes. */
  function Least(n: nat): nat
    requires 1 <= n <= 6
  {
    if n == 1 then 0 else if n == 2 then 0x80 else if n == 3 then 0x800
    else if n == 4 then 0x1_0000 else if n == 5 then 0x20_0000 else 0x400_0000
  }

  lemma LimitIs(n: nat)
    requires 1 <= n <= 6
    ensures Limit(n, n) == (if n < 6 then Least(n + 1) else 0x8000_0000)
  {
    if n == 1 {
    } else if n == 2 {
      assert Limit(2, 1) == 32;
    } else if n == 3 {
      assert Limit(3, 2) == 64 * Limit(3, 1);
    } else if n == 4 {
      assert Limit(4, 3) == 64 * Limit(4, 2) && Limit(4, 2) == 64 * Limit(4, 1);
    } else if n == 5 {
      assert Limit(5, 4) == 64 * Limit(5, 3) && Limit(5, 3) == 64 * Limit(5, 2) && Limit(5, 2) == 64 * Limit(5, 1);
    } else {
      assert Limit(6, 5) == 64 * Limit(6, 4) && Limit(6, 4) == 64 * Limit(6, 3);
      assert Limit(6, 3) == 64 * Limit(6, 2) && Limit(6, 2) == 64 * Limit(6, 1);
    }
  }

  /** Writes the bytes back to front, as many as the code point needs. */
  method FillUtf8(codepoint: nat, str: array<byte>) returns (nbytes: nat)
    requires str.Length >= 6
    modifies str
    ensures nbytes == SeqLen(codepoint) && str[..nbytes] == Encode(codepoint)
    ensures str[nbytes..] == old(str[nbytes..])
  {
    nbytes := SeqLen(codepoint);
    var b, v: nat := nbytes, codepoint;
    while b > 1
      invariant 1 <= b <= nbytes
      invariant Bytes(nbytes, b, v) + str[b..nbytes] == Encode(codepoint)
      invariant str[nbytes..] == old(str[nbytes..])
    {
      ghost var done := str[b..nbytes];
      b := b - 1;
      str[b] := 0x80 + v % 64;
      assert str[b..nbytes] == [0x80 + v % 64] + done;
      assert Bytes(nbytes, b, v / 64) + ([0x80 + v % 64] + done) == Bytes(nbytes, b + 1, v) + done;
      v := v / 64;
    }
    str[0] := Lead(nbytes) + v % Payload(nbytes);
    assert str[..nbytes] == [str[0]] + str[1..nbytes];
  }

  // --- Decoding ---

  /** Bytes still missing, bytes in all, and the value so far, of an unfinished sequence. */
  datatype State = State(remaining: nat, total: nat, cp: nat)

  /** Control characters end the decoder's run; every other byte is decoded. */
  predicate Plain(b: byte) {
    b >= 0x20 && b != 0x7F
  }

  predicate AllPlain(bytes: seq<byte>) {
    forall i :: 0 <= i < |bytes| ==> Plain(bytes[i])
  }

  /** Surrogates and the two values that are no characters. */
  predicate Excluded(cp: nat) {
    0xD800 <= cp <= 0xDFFF || cp == 0xFFFE || cp == 0xFFFF
  }

  function Checked(total: nat, cp: nat): nat {
    if 2 <= total <= 6 && cp < Least(total) then INVALID
    else if Excluded(cp) then INVALID
    else cp
  }

  function Interrupted(st: State): seq<nat> {
    if st.remaining != 0 then [INVALID] else []
  }

  function LeadTotal(b: byte): (n: nat)
    requires 0xC0 <= b < 0xFE
    ensures 2 <= n <= 6 && Lead(n) <= b < Lead(n) + Payload(n)
  {
    if b < 0xE0 then 2 else if b < 0xF0 then 3 else if b < 0xF8 then 4 else if b < 0xFC then 5 else 6
  }

  /** What one byte does: the new state and the code points that it completes. */
  function Step(st: State, b: byte): (State, seq<nat>)
    requires Plain(b)
  {
    if b < 0x7F then (st.(remaining := 0), Interrupted(st) + [b])
    else if b < 0xC0 then
      if st.remaining == 0 then (st, [INVALID])
      else
        var cp := st.cp * 64 + (b - 0x80);
        if st.remaining > 1 then (State(st.remaining - 1, st.total, cp), [])
        else (State(0, st.total, Checked(st.total, cp)), [Checked(st.total, cp)])
    else if b < 0xFE then (State(LeadTotal(b) - 1, LeadTotal(b), b - Lead(LeadTotal(b))), Interrupted(st))
    else (st, [INVALID])
  }

  function Run(st: State, bytes: seq<byte>): (State, seq<nat>)
    requires AllPlain(bytes)
  {
    if bytes == [] then (st, [])
    else
      var (st1, out1) := Run(st, bytes[..|bytes| - 1]);
      var (st2, out2) := Step(st1, bytes[|bytes| - 1]);
      (st2, out1 + out2)
  }

  // --- Cutting the bytes ---

  /** One more byte after a run. */
  function Then(r: (State, seq<nat>), b: byte): (State, seq<nat>)
    requires Plain(b)
  {
    (Step(r.0, b).0, r.1 + Step(r.0, b).1)
  }

  lemma RunNext(st: State, bytes: seq<byte>, b: byte)
    requires AllPlain(bytes) && Plain(b)
    ensures AllPlain(bytes + [b]) && Run(st, bytes + [b]) == Then(Run(st, bytes), b)
  {
    assert (bytes + [b])[..|bytes|] == bytes;
  }

  /** The same run with something put out before it. */
  function Prefixed(before: seq<nat>, r: (State, seq<nat>)): (State, seq<nat>) {
    (r.0, before + r.1)
  }

  lemma ThenAfter(before: seq<nat>, r: (State, seq<nat>), b: byte)
    requires Plain(b)
    ensures Then(Prefixed(before, r), b) == Prefixed(before, Then(r, b))
  {
    assert before + r.1 + Step(r.0, b).1 == before + (r.1 + Step(r.0, b).1);
  }

  /** There was room for another code point before the last byte. */
  predicate NotFull(st: State, bytes: seq<byte>, room: int)
    requires AllPlain(bytes)
  {
    bytes == [] || |Run(st, bytes[..|bytes| - 1]).1| < room
  }

  lemma Associative<T>(a: seq<T>, b: seq<T>, c: seq<T>)
    ensures a + b + c == a + (b + c)
  {
  }

  lemma {:induction false} RunConcat(st: State, a: seq<byte>, b: seq<byte>)
    requires AllPlain(a) && AllPlain(b)
    ensures AllPlain(a + b) && Run(st, a + b) == Prefixed(Run(st, a).1, Run(Run(st, a).0, b))
  {
    if b == [] {
      assert a + b == a && Run(st, a).1 + [] == Run(st, a).1;
    } else {
      var front, last := b[..|b| - 1], b[|b| - 1];
      RunConcat(st, a, front);
      assert b == front + [last] && a + b == a + front + [last];
      ConcatNext(st, a, front, last);
    }
  }

  lemma ConcatNext(st: State, a: seq<byte>, front: seq<byte>, last: byte)
    requires AllPlain(a) && AllPlain(front) && Plain(last) && AllPlain(a + front)
    requires Run(st, a + front) == Prefixed(Run(st, a).1, Run(Run(st, a).0, front))
    ensures AllPlain(front + [last]) && AllPlain(a + front + [last])
    ensures Run(st, a + front + [last]) == Prefixed(Run(st, a).1, Run(Run(st, a).0, front + [last]))
  {
    RunNext(st, a + front, last);
    RunNext(Run(st, a).0, front, last);
    ThenAfter(Run(st, a).1, Run(Run(st, a).0, front), last);
  }

  function Joined(chunks: seq<seq<byte>>): seq<byte> {
    if chunks == [] then [] else Joined(chunks[..|chunks| - 1]) + chunks[|chunks| - 1]
  }

  /** Decoding one chunk after the other, with the state carried over. */
  function RunChunks(st: State, chunks: seq<seq<byte>>): (State, seq<nat>)
    requires forall i :: 0 <= i < |chunks| ==> AllPlain(chunks[i])
  {
    if chunks == [] then (st, [])
    else
      var (st1, out1) := RunChunks(st, chunks[..|chunks| - 1]);
      var (st2, out2) := Run(st1, chunks[|chunks| - 1]);
      (st2, out1 + out2)
  }

  /** Where the bytes are cut makes no difference. */
  lemma {:induction false} CutsDoNotMatter(st: State, chunks: seq<seq<byte>>)
    requires forall i :: 0 <= i < |chunks| ==> AllPlain(chunks[i])
    ensures AllPlain(Joined(chunks)) && RunChunks(st, chunks) == Run(st, Joined(chunks))
  {
    if chunks != [] {
      CutsDoNotMatter(st, chunks[..|chunks| - 1]);
      RunConcat(st, Joined(chunks[..|chunks| - 1]), chunks[|chunks| - 1]);
    }
  }

  // --- Round trips ---

  lemma RunOne(st: State, b: byte)
    requires Plain(b)
    ensures Run(st, [b]) == Step(st, b)
  {
    assert [b][..0] == [];
    assert Run(st, []) == (st, []);
    assert [] + Step(st, b).1 == Step(st, b).1;
  }

  lemma RunLead(st: State, n: nat, v: nat)
    requires st.remaining == 0 && 2 <= n <= 6 && v < Payload(n)
    ensures AllPlain(Bytes(n, 1, v)) && Run(st, Bytes(n, 1, v)) == (State(n - 1, n, v), [])
  {
    assert v % Payload(n) == v;
    assert LeadTotal(Lead(n) + v) == n;
    RunOne(st, Lead(n) + v);
  }

  lemma {:induction false} RunBytes(st: State, n: nat, k: nat, v: nat)
    requires st.remaining == 0 && 1 <= k < n <= 6 && v < Limit(n, k)
    ensures AllPlain(Bytes(n, k, v)) && Run(st, Bytes(n, k, v)) == (State(n - k, n, v), [])
    decreases k
  {
    var s := Bytes(n, k, v);
    if k == 1 {
      RunLead(st, n, v);
    } else {
      RunBytes(st, n, k - 1, v / 64);
      assert s[..k - 1] == Bytes(n, k - 1, v / 64);
    }
  }

  /** Code points that survive: no control characters, no excluded values, at most 31 bits. */
  predicate Encodable(cp: nat) {
    0x20 <= cp < 0x8000_0000 && cp != 0x7F && !Excluded(cp)
  }

  lemma SeqLenIs(cp: nat, n: nat)
    requires 1 <= n <= 6 && cp < 0x8000_0000
    ensures SeqLen(cp) == n <==> Least(n) <= cp < Limit(n, n)
  {
    LimitIs(n);
  }

  lemma RunEncode(st: State, cp: nat)
    requires st.remaining == 0 && cp < 0x8000_0000 && (cp >= 0x80 || Plain(cp))
    ensures AllPlain(Encode(cp)) && Run(st, Encode(cp)).0.remaining == 0
    ensures Run(st, Encode(cp)).1 == [if Excluded(cp) then INVALID else cp]
  {
    var n := SeqLen(cp);
    var s := Encode(cp);
    SeqLenIs(cp, n);
    if n == 1 {
      assert s[..0] == [];
    } else {
      assert s[..n - 1] == Bytes(n, n - 1, cp / 64);
      RunBytes(st, n, n - 1, cp / 64);
    }
  }

  /** Exactly the encodable code points come back from their bytes. */
  lemma RoundTripIff(st: State, cp: nat)
    requires st.remaining == 0 && cp < 0x8000_0000
    ensures AllPlain(Encode(cp)) && Run(st, Encode(cp)).1 == [cp] <==> Encodable(cp)
  {
    if cp >= 0x80 || Plain(cp) {
      RunEncode(st, cp);
    } else {
      assert Encode(cp) == [cp];
    }
  }

  lemma {:induction false} RunEncodeAll(st: State, cps: seq<nat>)
    requires st.remaining == 0 && forall i :: 0 <= i < |cps| ==> Encodable(cps[i])
    ensures AllPlain(EncodeAll(cps))
    ensures Run(st, EncodeAll(cps)).0.remaining == 0 && Run(st, EncodeAll(cps)).1 == cps
  {
    if cps != [] {
      var n := |cps| - 1;
      RunEncodeAll(st, cps[..n]);
      RunEncode(Run(st, EncodeAll(cps[..n])).0, cps[n]);
      RunConcat(st, EncodeAll(cps[..n]), Encode(cps[n]));
    }
  }

  /** Encoded code points come back however their bytes are cut into chunks. */
  lemma StreamRoundTrip(st: State, cps: seq<nat>, chunks: seq<seq<byte>>)
    requires st.remaining == 0 && (forall i :: 0 <= i < |cps| ==> Encodable(cps[i]))
    requires Joined(chunks) == EncodeAll(cps)
    ensures forall i :: 0 <= i < |chunks| ==> AllPlain(chunks[i])
    ensures RunChunks(st, chunks).0.remaining == 0 && RunChunks(st, chunks).1 == cps
  {
    RunEncodeAll(st, cps);
    PlainChunks(chunks);
    CutsDoNotMatter(st, chunks);
  }

  lemma {:induction false} PlainChunks(chunks: seq<seq<byte>>)
    requires AllPlain(Joined(chunks))
    ensures forall i :: 0 <= i < |chunks| ==> AllPlain(chunks[i])
  {
    if chunks != [] {
      var n := |chunks| - 1;
      var front := Joined(chunks[..n]);
      assert forall i :: 0 <= i < |front| ==> front[i] == Joined(chunks)[i];
      assert forall i :: 0 <= i < |chunks[n]| ==> chunks[n][i] == Joined(chunks)[|front| + i];
      PlainChunks(chunks[..n]);
      assert forall i :: 0 <= i < n ==> chunks[..n][i] == chunks[i];
    }
  }

  // --- Resynchronisation ---

  /** Nothing but `remaining` matters to what comes out while no sequence is pending. */
  lemma {:induction false} FreshAlike(st: State, st': State, bytes: seq<byte>)
    requires st.remaining == 0 == st'.remaining && AllPlain(bytes)
    ensures Run(st, bytes).1 == Run(st', bytes).1
    ensures var a, b := Run(st, bytes).0, Run(st', bytes).0; a == b || a.remaining == 0 == b.remaining
  {
    if bytes != [] {
      FreshAlike(st, st', bytes[..|bytes| - 1]);
      StepAlike(Run(st, bytes[..|bytes| - 1]).0, Run(st', bytes[..|bytes| - 1]).0, bytes[|bytes| - 1]);
    }
  }

  lemma StepAlike(st: State, st': State, b: byte)
    requires Plain(b) && (st == st' || st.remaining == 0 == st'.remaining)
    ensures Step(st, b).1 == Step(st', b).1
    ensures Step(st, b).0 == Step(st', b).0 || Step(st, b).0.remaining == 0 == Step(st', b).0.remaining
  {
  }

  /** A byte that cannot go on with a pending sequence. */
  predicate Breaks(b: byte) {
    0x20 <= b < 0x7F || 0xC0 <= b < 0xFE
  }

  /** Breaking off a pending sequence costs one replacement character and nothing else. */
  lemma BreakOff(st: State, idle: State, b: byte)
    requires st.remaining != 0 && idle.remaining == 0 && Breaks(b)
    ensures Step(st, b).1 == [INVALID] + Step(idle, b).1
    ensures Step(st, b).0 == Step(idle, b).0 || Step(st, b).0.remaining == 0 == Step(idle, b).0.remaining
  {
  }

  /** Bytes that begin anew decode as they would on their own, after one FFFD if a sequence was pending. */
  lemma Resynchronises(st: State, idle: State, bytes: seq<byte>)
    requires idle.remaining == 0 && AllPlain(bytes) && bytes != [] && Breaks(bytes[0])
    ensures Run(st, bytes).1 == (if st.remaining != 0 then [INVALID] else []) + Run(idle, bytes).1
    ensures var a, b := Run(st, bytes).0, Run(idle, bytes).0; a == b || a.remaining == 0 == b.remaining
  {
    if st.remaining == 0 {
      FreshAlike(st, idle, bytes);
    } else {
      var first, rest := bytes[..1], bytes[1..];
      assert bytes == first + rest && first == [bytes[0]];
      BreakOff(st, idle, bytes[0]);
      RunOne(st, bytes[0]);
      RunOne(idle, bytes[0]);
      RunConcat(st, first, rest);
      RunConcat(idle, first, rest);
      if Step(st, bytes[0]).0 != Step(idle, bytes[0]).0 {
        FreshAlike(Step(st, bytes[0]).0, Step(idle, bytes[0]).0, rest);
      }
      Associative([INVALID], Step(idle, bytes[0]).1, Run(Step(idle, bytes[0]).0, rest).1);
    }
  }

  lemma EncodedBreaks(cp: nat)
    requires Encodable(cp)
    ensures AllPlain(Encode(cp)) && Encode(cp) != [] && Breaks(Encode(cp)[0])
  {
    RunEncode(State(0, 0, 0), cp);
    FirstByte(SeqLen(cp), SeqLen(cp), cp);
  }

  lemma {:induction false} FirstByte(n: nat, k: nat, v: nat)
    requires 1 <= k <= n <= 6
    ensures Lead(n) <= Bytes(n, k, v)[0] < Lead(n) + Payload(n)
    decreases k
  {
    if k > 1 { FirstByte(n, k - 1, v / 64); }
  }

  /** From any state, a character's bytes give that character, after one FFFD if a sequence was pending. */
  lemma CharacterSurvives(st: State, cp: nat)
    requires Encodable(cp)
    ensures AllPlain(Encode(cp)) && Run(st, Encode(cp)).0.remaining == 0
    ensures Run(st, Encode(cp)).1 == (if st.remaining != 0 then [INVALID] else []) + [cp]
  {
    EncodedBreaks(cp);
    RunEncode(State(0, 0, 0), cp);
    Resynchronises(st, State(0, 0, 0), Encode(cp));
  }

  /** The same for a list: whatever came before, the broken sequence costs one FFFD and no character. */
  lemma TextSurvives(before: seq<byte>, st: State, cps: seq<nat>)
    requires AllPlain(before) && cps != [] && forall i :: 0 <= i < |cps| ==> Encodable(cps[i])
    ensures AllPlain(before + EncodeAll(cps)) && Run(st, before + EncodeAll(cps)).0.remaining == 0
    ensures Run(st, before + EncodeAll(cps)).1 ==
      Run(st, before).1 + (if Run(st, before).0.remaining != 0 then [INVALID] else []) + cps
  {
    var st1 := Run(st, before).0;
    var broken := if st1.remaining != 0 then [INVALID] else [];
    AllSurvive(st1, cps);
    RunConcat(st, before, EncodeAll(cps));
    Associative(Run(st, before).1, broken, cps);
  }

  lemma {:induction false} AllSurvive(st: State, cps: seq<nat>)
    requires cps != [] && forall i :: 0 <= i < |cps| ==> Encodable(cps[i])
    ensures AllPlain(EncodeAll(cps)) && Run(st, EncodeAll(cps)).0.remaining == 0
    ensures Run(st, EncodeAll(cps)).1 == (if st.remaining != 0 then [INVALID] else []) + cps
  {
    var n := |cps| - 1;
    var front, last := cps[..n], cps[n];
    if n == 0 {
      CharacterSurvives(st, last);
      assert EncodeAll(cps) == EncodeAll([]) + Encode(last) == Encode(last) && cps == [last];
    } else {
      AllSurvive(st, front);
      RunEncode(Run(st, EncodeAll(front)).0, last);
      RunConcat(st, EncodeAll(front), Encode(last));
      Associative(if st.remaining != 0 then [INVALID] else [], front, [last]);
      assert front + [last] == cps;
    }
  }

  /** A byte that is in no character costs one FFFD where it stands, and a pending sequence goes on behind it. */
  lemma StrayByte(st: State, a: seq<byte>, b: byte, c: seq<byte>)
    requires AllPlain(a) && b >= 0xFE && AllPlain(c)
    ensures AllPlain(a + [b] + c) && Run(st, a + [b] + c).0 == Run(st, a + c).0
    ensures Run(st, a + [b] + c).1 == Run(st, a).1 + [INVALID] + Run(Run(st, a).0, c).1
    ensures Run(st, a + c).1 == Run(st, a).1 + Run(Run(st, a).0, c).1
  {
    RunConcat(st, a, c);
    RunConcat(st, a, [b]);
    RunOne(Run(st, a).0, b);
    RunConcat(st, a + [b], c);
  }

  /** The bytes that an unfinished sequence consists of so far. */
  function Pending(st: State): seq<byte>
    requires Sound(st)
  {
    if st.remaining == 0 then [] else Bytes(st.total, st.total - st.remaining, st.cp)
  }

  predicate Sound(st: State) {
    st.remaining != 0 ==>
      st.remaining < st.total && 2 <= st.total <= 6 && st.cp < Limit(st.total, st.total - st.remaining)
  }

  /** Unless a replacement character came out, the bytes are the encoding of what came out and of what is pending. */
  predicate Reencodes(before: seq<byte>, st: State, out: seq<nat>) {
    Sound(st) && (INVALID !in out ==> before == EncodeAll(out) + Pending(st))
  }

  lemma BytesExtend(n: nat, k: nat, v: nat, b: byte)
    requires 1 <= k < n <= 6 && v < Limit(n, k) && 0x80 <= b < 0xC0
    ensures Bytes(n, k + 1, v * 64 + (b - 0x80)) == Bytes(n, k, v) + [b]
    ensures v * 64 + (b - 0x80) < Limit(n, k + 1)
  {
    var w := v * 64 + (b - 0x80);
    assert w / 64 == v && w % 64 == b - 0x80;
  }

  lemma CompletionReencodes(n: nat, cp: nat, s: seq<byte>)
    requires 2 <= n <= 6 && cp < Limit(n, n) && s == Bytes(n, n, cp) && Checked(n, cp) != INVALID
    ensures s == EncodeAll([Checked(n, cp)])
  {
    LimitIs(n);
    SeqLenIs(cp, n);
    EncodeOne(cp);
  }

  lemma MiddleReencodes(n: nat, r: nat, v: nat, b: byte)
    requires 2 <= n <= 6 && 1 < r < n && v < Limit(n, n - r) && 0x80 <= b < 0xC0
    ensures Reencodes(Bytes(n, n - r, v) + [b], State(r - 1, n, v * 64 + (b - 0x80)), [])
  {
    var k, w := n - r, v * 64 + (b - 0x80);
    BytesExtend(n, k, v, b);
    assert EncodeAll([]) + Bytes(n, k + 1, w) == Bytes(n, k, v) + [b];
  }

  lemma FinalReencodes(n: nat, v: nat, b: byte, total: nat)
    requires 2 <= n <= 6 && v < Limit(n, n - 1) && 0x80 <= b < 0xC0
    ensures var w := Checked(n, v * 64 + (b - 0x80)); Reencodes(Bytes(n, n - 1, v) + [b], State(0, total, w), [w])
  {
    var w := Checked(n, v * 64 + (b - 0x80));
    BytesExtend(n, n - 1, v, b);
    if w != INVALID {
      CompletionReencodes(n, v * 64 + (b - 0x80), Bytes(n, n - 1, v) + [b]);
      assert EncodeAll([w]) + Pending(State(0, total, w)) == EncodeAll([w]);
    }
  }

  lemma StepMiddle(st: State, b: byte)
    requires 0x80 <= b < 0xC0 && st.remaining > 1
    ensures Step(st, b) == (State(st.remaining - 1, st.total, st.cp * 64 + (b - 0x80)), [])
  {
  }

  lemma StepFinal(st: State, b: byte)
    requires 0x80 <= b < 0xC0 && st.remaining == 1
    ensures var w := Checked(st.total, st.cp * 64 + (b - 0x80)); Step(st, b) == (State(0, st.total, w), [w])
  {
  }

  lemma ContinuationReencodes(st: State, b: byte)
    requires Sound(st) && 0x80 <= b < 0xC0 && st.remaining != 0
    ensures Reencodes(Pending(st) + [b], Step(st, b).0, Step(st, b).1)
  {
    var (n, r, v) := (st.total, st.remaining, st.cp);
    assert Pending(st) == Bytes(n, n - r, v);
    if r == 1 {
      StepFinal(st, b);
      FinalReencodes(n, v, b, n);
    } else {
      StepMiddle(st, b);
      MiddleReencodes(n, r, v, b);
    }
  }

  lemma LeadBytes(b: byte)
    requires 0xC0 <= b < 0xFE
    ensures var n := LeadTotal(b);
      2 <= n <= 6 && 0 <= b - Lead(n) < Limit(n, 1) && Bytes(n, 1, b - Lead(n)) == [b]
  {
    var n := LeadTotal(b);
    assert 0 <= b - Lead(n) < Payload(n);
    assert (b - Lead(n)) % Payload(n) == b - Lead(n);
  }

  lemma LeadReencodes(st: State, b: byte)
    requires st.remaining == 0 && 0xC0 <= b < 0xFE
    ensures Reencodes([b], Step(st, b).0, Step(st, b).1)
  {
    LeadBytes(b);
    var n := LeadTotal(b);
    assert Step(st, b) == (State(n - 1, n, b - Lead(n)), []);
    assert EncodeAll([]) + [b] == [b];
  }

  lemma StepReencodes(st: State, b: byte)
    requires Sound(st) && Plain(b)
    ensures Reencodes(Pending(st) + [b], Step(st, b).0, Step(st, b).1)
  {
    if 0x80 <= b < 0xC0 && st.remaining != 0 {
      ContinuationReencodes(st, b);
    } else if b < 0x7F && st.remaining == 0 {
      EncodeOne(b);
      assert Step(st, b).1 == [b];
      assert [b] + [] == [] + [b];
    } else if 0xC0 <= b < 0xFE && st.remaining == 0 {
      LeadReencodes(st, b);
      assert [] + [b] == [b];
    }
  }

  lemma ReencodesNext(before: seq<byte>, st1: State, out1: seq<nat>, b: byte, st2: State, out2: seq<nat>)
    requires Reencodes(before, st1, out1) && Reencodes(Pending(st1) + [b], st2, out2)
    ensures Reencodes(before + [b], st2, out1 + out2)
  {
    EncodeAllConcat(out1, out2);
    Associative(EncodeAll(out1), Pending(st1), [b]);
    Associative(EncodeAll(out1), EncodeAll(out2), Pending(st2));
  }

  lemma EncodeOne(cp: nat)
    ensures EncodeAll([cp]) == Encode(cp)
  {
    assert [cp][..0] == [];
    assert EncodeAll([]) == [];
  }

  lemma {:induction false} EncodeAllConcat(a: seq<nat>, b: seq<nat>)
    ensures EncodeAll(a + b) == EncodeAll(a) + EncodeAll(b)
  {
    if b == [] {
      assert a + b == a;
    } else {
      var n := |b| - 1;
      assert (a + b)[..|a + b| - 1] == a + b[..n] && (a + b)[|a + b| - 1] == b[n];
      EncodeAllConcat(a, b[..n]);
      Associative(EncodeAll(a), EncodeAll(b[..n]), Encode(b[n]));
    }
  }

  /** Bytes that decode without a replacement character are the encoding of what they decode to. */
  lemma {:induction false} AcceptedIsEncoded(st: State, bytes: seq<byte>)
    requires st.remaining == 0 && AllPlain(bytes)
    ensures Reencodes(bytes, Run(st, bytes).0, Run(st, bytes).1)
  {
    if bytes == [] {
      assert EncodeAll([]) + Pending(st) == [];
    } else {
      var n := |bytes| - 1;
      AcceptedIsEncoded(st, bytes[..n]);
      var (st1, out1) := Run(st, bytes[..n]);
      StepReencodes(st1, bytes[n]);
      ReencodesNext(bytes[..n], st1, out1, bytes[n], Step(st1, bytes[n]).0, Step(st1, bytes[n]).1);
      assert bytes == bytes[..n] + [bytes[n]];
    }
  }

  // --- Room for the output ---

  /**
    One byte completes at most two code points, and two exactly when it is a plain
    character that breaks off a sequence.
   */
  lemma StepCompletes(st: State, b: byte)
    requires Plain(b)
    ensures |Step(st, b).1| <= 2
    ensures |Step(st, b).1| == 2 <==> b < 0x7F && st.remaining != 0
  {
  }

  function Waiting(st: State): nat {
    if st.remaining != 0 then 1 else 0
  }

  /** There is at most one code point for each byte, counting an unfinished sequence as one. */
  lemma {:induction false} RunCompletes(st: State, bytes: seq<byte>)
    requires AllPlain(bytes)
    ensures |Run(st, bytes).1| + Waiting(Run(st, bytes).0) <= |bytes| + Waiting(st)
  {
    if bytes != [] {
      RunCompletes(st, bytes[..|bytes| - 1]);
    }
  }

  /** The byte at `n` is decoded with room left, and leaves more than the room. */
  predicate OverrunsAt(st: State, bytes: seq<byte>, room: int, n: nat) {
    && n < |bytes| && AllPlain(bytes[..n + 1])
    && |Run(st, bytes[..n]).1| < room < |Run(st, bytes[..n + 1]).1|
  }

  /** Decoding these bytes writes past the room. */
  ghost predicate Overruns(st: State, bytes: seq<byte>, room: int) {
    exists n :: OverrunsAt(st, bytes, room, n)
  }

  /** It does exactly when a plain character breaks off a sequence while one slot is left. */
  lemma OverrunsAtIff(st: State, bytes: seq<byte>, room: int, n: nat)
    requires n < |bytes| && AllPlain(bytes[..n + 1])
    ensures AllPlain(bytes[..n])
    ensures OverrunsAt(st, bytes, room, n) <==>
      |Run(st, bytes[..n]).1| == room - 1 && Run(st, bytes[..n]).0.remaining != 0 && bytes[n] < 0x7F
  {
    var before := bytes[..n];
    assert bytes[..n + 1] == before + [bytes[n]] && bytes[..n + 1][n] == bytes[n];
    assert forall i :: 0 <= i < n ==> before[i] == bytes[..n + 1][i];
    RunNext(st, before, bytes[n]);
    StepCompletes(Run(st, before).0, bytes[n]);
  }

  /** A lead byte and a letter in one slot: the replacement character fills it, and the letter goes past it. */
  lemma OverrunExample(st: State)
    requires st.remaining == 0
    ensures Overruns(st, [0xC3, 0x41], 1)
  {
    var bytes: seq<byte> := [0xC3, 0x41];
    RunOne(st, 0xC3);
    assert bytes[..1] == [0xC3] && bytes[..2] == bytes;
    OverrunsAtIff(st, bytes, 1, 1);
  }

  /** `k` bytes that are never part of a character. */
  function Junk(k: nat): (s: seq<byte>)
    ensures |s| == k && AllPlain(s)
  {
    seq(k, _ => 0xFF)
  }

  lemma {:induction false} RunJunk(st: State, k: nat)
    ensures Run(st, Junk(k)).0 == st && |Run(st, Junk(k)).1| == k
  {
    if k > 0 {
      RunJunk(st, k - 1);
      assert Junk(k)[..k - 1] == Junk(k - 1);
    }
  }

  /** Some bytes that overrun the room, when a sequence is pending and the room is no more than the bytes. */
  lemma PendingOverruns(st: State, room: nat, bytes: seq<byte>)
    requires st.remaining != 0 && room >= 1 && Junk(room - 1) + [0x41] <= bytes
    ensures OverrunsAt(st, bytes, room, room - 1)
  {
    var n := room - 1;
    assert bytes[..n] == Junk(n) && bytes[n] == 0x41;
    assert forall i :: 0 <= i < n ==> bytes[i] == Junk(n)[i];
    RunJunk(st, n);
    OverrunsAtIff(st, bytes, room, n);
  }

  lemma RunLeadJunk(st: State, k: nat)
    requires st.remaining == 0
    ensures AllPlain([0xC3] + Junk(k))
    ensures Run(st, [0xC3] + Junk(k)).0.remaining != 0 && |Run(st, [0xC3] + Junk(k)).1| == k
  {
    RunOne(st, 0xC3);
    RunConcat(st, [0xC3], Junk(k));
    RunJunk(Run(st, [0xC3]).0, k);
  }

  lemma FreshOverruns(st: State, room: nat, bytes: seq<byte>)
    requires st.remaining == 0 && room >= 1 && [0xC3] + (Junk(room - 1) + [0x41]) <= bytes
    ensures OverrunsAt(st, bytes, room, room)
  {
    var before := [0xC3] + Junk(room - 1);
    assert bytes[..room] == before && bytes[room] == 0x41;
    RunLeadJunk(st, room - 1);
    assert forall i :: 0 <= i < room ==> bytes[i] == before[i];
    OverrunsAtIff(st, bytes, room, room);
  }

  /** Exactly when no bytes can overrun: there is room for all of them, and for the pending sequence. */
  lemma EnoughRoomIff(st: State, n: nat, room: nat)
    requires room >= 1
    ensures (forall bytes: seq<byte> :: |bytes| == n ==> !Overruns(st, bytes, room)) <==> room >= n + Waiting(st)
  {
    if room >= n + Waiting(st) {
      forall bytes: seq<byte>, i | |bytes| == n
        ensures !OverrunsAt(st, bytes, room, i)
      {
        if OverrunsAt(st, bytes, room, i) {
          RunCompletes(st, bytes[..i + 1]);
        }
      }
    } else if st.remaining != 0 {
      var bytes := Junk(room - 1) + [0x41] + Junk(n - room);
      assert Junk(room - 1) + [0x41] <= bytes;
      PendingOverruns(st, room, bytes);
      assert Overruns(st, bytes, room);
    } else {
      var bytes := [0xC3] + (Junk(room - 1) + [0x41]) + Junk(n - room - 1);
      assert [0xC3] + (Junk(room - 1) + [0x41]) <= bytes;
      FreshOverruns(st, room, bytes);
      assert Overruns(st, bytes, room);
    }
  }

  lemma {:induction false} RunGrows(st: State, bytes: seq<byte>, m: nat, n: nat)
    requires m <= n <= |bytes| && AllPlain(bytes[..n])
    ensures AllPlain(bytes[..m]) && |Run(st, bytes[..m]).1| <= |Run(st, bytes[..n]).1|
    decreases n - m
  {
    assert forall i :: 0 <= i < m ==> bytes[..m][i] == bytes[..n][i];
    if m < n {
      assert forall i :: 0 <= i < n - 1 ==> bytes[..n - 1][i] == bytes[..n][i];
      RunGrows(st, bytes, m, n - 1);
      assert bytes[..n][..n - 1] == bytes[..n - 1];
    }
  }

  lemma RoomBeforeOverrun(st: State, bytes: seq<byte>, room: int, m: nat, n: nat)
    requires m <= n && OverrunsAt(st, bytes, room, n)
    ensures m < |bytes| && AllPlain(bytes[..m]) && Plain(bytes[m]) && |Run(st, bytes[..m]).1| < room
  {
    RunGrows(st, bytes, m, n + 1);
    RunGrows(st, bytes, n, n + 1);
    RunGrows(st, bytes, m, n);
    assert bytes[..n + 1][m] == bytes[m];
  }

  lemma LastByteOverran(st: State, bytes: seq<byte>, room: int, m: nat)
    requires m <= |bytes| && AllPlain(bytes[..m]) && NotFull(st, bytes[..m], room) && room >= 0
    ensures |Run(st, bytes[..m]).1| <= room + 1
    ensures |Run(st, bytes[..m]).1| == room + 1 ==> Overruns(st, bytes, room)
  {
    if m > 0 {
      assert bytes[..m][..m - 1] == bytes[..m - 1] && bytes[..m] == bytes[..m - 1] + [bytes[m - 1]];
      StepCompletes(Run(st, bytes[..m - 1]).0, bytes[m - 1]);
      assert |Run(st, bytes[..m]).1| == room + 1 ==> OverrunsAt(st, bytes, room, m - 1);
    }
  }

  /** A decoder that stops after `m` bytes, for want of bytes or room, overran exactly if its bytes do at all. */
  lemma StoppedOverran(st: State, bytes: seq<byte>, room: int, m: nat)
    requires m <= |bytes| && AllPlain(bytes[..m]) && NotFull(st, bytes[..m], room) && room >= 0
    requires m == |bytes| || !Plain(bytes[m]) || |Run(st, bytes[..m]).1| >= room
    ensures |Run(st, bytes[..m]).1| <= room + 1
    ensures |Run(st, bytes[..m]).1| == room + 1 <==> Overruns(st, bytes, room)
  {
    LastByteOverran(st, bytes, room, m);
    if n: nat :| OverrunsAt(st, bytes, room, n) {
      if m <= n {
        RoomBeforeOverrun(st, bytes, room, m, n);
        assert false;
      } else {
        RunGrows(st, bytes, n + 1, m);
        if m > n + 1 { RunGrows(st, bytes, n + 1, m - 1); }
      }
    }
  }

  // --- The decoder ---

  /** The bytes, all of them decodable, lead from one state to another and to this output. */
  predicate Decodes(st: State, bytes: seq<byte>, st': State, out: seq<nat>) {
    AllPlain(bytes) && Run(st, bytes) == (st', out)
  }

  /** The first `n` bytes were decoded, and before the last of them there was room. */
  predicate DecodedTo(st: State, bytes: seq<byte>, n: nat, st': State, out: seq<nat>, room: int) {
    n <= |bytes| && Decodes(st, bytes[..n], st', out) && NotFull(st, bytes[..n], room)
  }

  lemma NextDecoded(st: State, bytes: seq<byte>, n: nat, st1: State, out: seq<nat>, room: int)
    requires n < |bytes| && Plain(bytes[n]) && DecodedTo(st, bytes, n, st1, out, room) && |out| < room
    ensures DecodedTo(st, bytes, n + 1, Step(st1, bytes[n]).0, out + Step(st1, bytes[n]).1, room)
    ensures |Step(st1, bytes[n]).1| <= 2
    ensures |Step(st1, bytes[n]).1| == 2 && |out| == room - 1 ==> Overruns(st, bytes, room)
  {
    var before, c := bytes[..n], bytes[n];
    RunNext(st, before, c);
    assert bytes[..n + 1] == before + [c] && (before + [c])[..n] == before;
    StepCompletes(st1, c);
    assert |Step(st1, c).1| == 2 && |out| == room - 1 ==> OverrunsAt(st, bytes, room, n);
  }

  lemma StoppedDecoded(st: State, bytes: seq<byte>, pos: nat, pos': nat, st': State, out: seq<nat>, room: nat)
    requires pos <= pos' <= |bytes| && DecodedTo(st, bytes[pos..], pos' - pos, st', out, room)
    requires pos' == |bytes| || !Plain(bytes[pos']) || |out| >= room
    ensures Decodes(st, bytes[pos..pos'], st', out) && NotFull(st, bytes[pos..pos'], room)
    ensures |out| <= room + 1 && (|out| == room + 1 <==> Overruns(st, bytes[pos..], room))
  {
    assert bytes[pos..][..pos' - pos] == bytes[pos..pos'];
    StoppedOverran(st, bytes[pos..], room, pos' - pos);
  }

  class Decoder {
    var bytesRemaining: nat
    var bytesTotal: nat
    var thisCp: nat

    function Current(): State
      reads this
    {
      State(bytesRemaining, bytesTotal, thisCp)
    }

    constructor ()
      ensures Current().remaining == 0
    {
      bytesRemaining, bytesTotal, thisCp := 0, 0, 0;
    }

    /**
      Decodes until the bytes end, a control character comes up or the output
      is full, and stops at the first of these. It may write one code point past
      `cplen`; the buffer must hold that one too unless the bytes do not overrun.
     */
    method Decode(cp: array<nat>, cpi: nat, cplen: nat, bytes: seq<byte>, pos: nat) returns (cpi': nat, pos': nat)
      requires pos <= |bytes| && cpi <= cplen <= cp.Length
      requires cplen < cp.Length || !Overruns(Current(), bytes[pos..], cplen - cpi)
      modifies this, cp
      ensures pos <= pos' <= |bytes| && cpi <= cpi' <= cp.Length && cpi' <= cplen + 1
      ensures Decodes(old(Current()), bytes[pos..pos'], Current(), cp[cpi..cpi'])
      ensures cp[..cpi] == old(cp[..cpi])
      ensures pos' == |bytes| || !Plain(bytes[pos']) || cpi' >= cplen
      ensures NotFull(old(Current()), bytes[pos..pos'], cplen - cpi)
      ensures cpi' == cplen + 1 <==> Overruns(old(Current()), bytes[pos..], cplen - cpi)
    {
      cpi', pos' := DecodeLoop(cp, cpi, cplen, bytes, pos, bytes[pos..]);
      StoppedDecoded(old(Current()), bytes, pos, pos', Current(), cp[cpi..cpi'], cplen - cpi);
    }

    method DecodeLoop(cp: array<nat>, cpi: nat, cplen: nat, bytes: seq<byte>, pos: nat, ghost all: seq<byte>)
      returns (cpi': nat, pos': nat)
      requires pos <= |bytes| && all == bytes[pos..] && cpi <= cplen <= cp.Length
      requires cplen < cp.Length || !Overruns(Current(), all, cplen - cpi)
      modifies this, cp
      ensures pos <= pos' <= |bytes| && cpi <= cpi' <= cp.Length && cp[..cpi] == old(cp[..cpi])
      ensures DecodedTo(old(Current()), all, pos' - pos, Current(), cp[cpi..cpi'], cplen - cpi)
      ensures pos' == |bytes| || !Plain(bytes[pos']) || cpi' >= cplen
    {
      cpi', pos' := cpi, pos;
      assert all[..0] == [] && cp[cpi..cpi] == [];
      while pos' < |bytes| && cpi' < cplen
        invariant pos <= pos' <= |bytes| && cpi <= cpi' <= cp.Length && cp[..cpi] == old(cp[..cpi])
        invariant DecodedTo(old(Current()), all, pos' - pos, Current(), cp[cpi..cpi'], cplen - cpi)
      {
        var c := bytes[pos'];
        if c < 0x20 || c == 0x7F { return; }
        cpi' := DecodeNext(cp, cpi', c, old(Current()), all, pos' - pos, cpi, cplen);
        pos' := pos' + 1;
      }
    }

    /** One round of the loop: `n` bytes were decoded to the output from `from` on. */
    method DecodeNext(cp: array<nat>, cpi: nat, c: byte, ghost st: State, ghost bytes: seq<byte>, ghost n: nat,
                      ghost from: nat, ghost cplen: nat)
      returns (cpi': nat)
      requires n < |bytes| && c == bytes[n] && Plain(c) && from <= cpi < cplen <= cp.Length
      requires DecodedTo(st, bytes, n, Current(), cp[from..cpi], cplen - from)
      requires cplen < cp.Length || !Overruns(st, bytes, cplen - from)
      modifies this, cp
      ensures cpi <= cpi' <= cp.Length && cp[..from] == old(cp[..from])
      ensures DecodedTo(st, bytes, n + 1, Current(), cp[from..cpi'], cplen - from)
    {
      NextDecoded(st, bytes, n, Current(), cp[from..cpi], cplen - from);
      ghost var prefix := cp[..cpi];
      assert cp[from..cpi] == prefix[from..] && cp[..from] == prefix[..from];
      cpi' := DecodeByte(cp, cpi, c);
      assert cp[from..cpi'] == cp[..cpi][from..] + cp[cpi..cpi'];
      assert cp[..from] == cp[..cpi][..from];
    }

    method DecodeByte(cp: array<nat>, cpi: nat, c: byte) returns (cpi': nat)
      requires Plain(c) && cpi + |Step(Current(), c).1| <= cp.Length
      modifies this, cp
      ensures cpi <= cpi' <= cp.Length && cp[..cpi] == old(cp[..cpi])
      ensures Current() == Step(old(Current()), c).0 && cp[cpi..cpi'] == Step(old(Current()), c).1
    {
      cpi' := cpi;
      if c < 0x7F {
        cpi' := Interrupt(cp, cpi');
        cp[cpi'], cpi' := c, cpi' + 1;
        bytesRemaining := 0;
      } else if c < 0xC0 {
        if bytesRemaining == 0 {
          cp[cpi'], cpi' := INVALID, cpi' + 1;
          return;
        }
        thisCp := thisCp * 64 + c % 64;
        bytesRemaining := bytesRemaining - 1;
        if bytesRemaining == 0 {
          Check();
          cp[cpi'], cpi' := thisCp, cpi' + 1;
        }
      } else if c < 0xFE {
        cpi' := Interrupt(cp, cpi');
        Begin(c);
      } else {
        cp[cpi'], cpi' := INVALID, cpi' + 1;
      }
    }

    /** Stands in for a sequence that is broken off. */
    method Interrupt(cp: array<nat>, cpi: nat) returns (cpi': nat)
      requires cpi + |Interrupted(Current())| <= cp.Length
      modifies cp
      ensures cpi <= cpi' <= cp.Length && cp[..cpi] == old(cp[..cpi]) && cp[cpi..cpi'] == Interrupted(Current())
    {
      cpi' := cpi;
      if bytesRemaining != 0 {
        cp[cpi'], cpi' := INVALID, cpi' + 1;
      }
    }

    method Begin(c: byte)
      requires 0xC0 <= c < 0xFE
      modifies this
      ensures Current() == State(LeadTotal(c) - 1, LeadTotal(c), c - Lead(LeadTotal(c)))
    {
      if c < 0xE0 {
        thisCp, bytesTotal, bytesRemaining := c % 32, 2, 1;
      } else if c < 0xF0 {
        thisCp, bytesTotal, bytesRemaining := c % 16, 3, 2;
      } else if c < 0xF8 {
        thisCp, bytesTotal, bytesRemaining := c % 8, 4, 3;
      } else if c < 0xFC {
        thisCp, bytesTotal, bytesRemaining := c % 4, 5, 4;
      } else {
        thisCp, bytesTotal, bytesRemaining := c % 2, 6, 5;
      }
    }

    /** Replaces overlong and excluded values. */
    method Check()
      modifies `thisCp
      ensures thisCp == Checked(bytesTotal, old(thisCp))
    {
      match bytesTotal {
        case 2 => if thisCp < 0x80 { thisCp := INVALID; }
        case 3 => if thisCp < 0x800 { thisCp := INVALID; }
        case 4 => if thisCp < 0x1_0000 { thisCp := INVALID; }
        case 5 => if thisCp < 0x20_0000 { thisCp := INVALID; }
        case 6 => if thisCp < 0x400_0000 { thisCp := INVALID; }
        case _ =>
      }
      if 0xD800 <= thisCp <= 0xDFFF || thisCp == 0xFFFE || thisCp == 0xFFFF {
        thisCp := INVALID;
      }
    }
  }
}
