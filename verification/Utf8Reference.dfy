/**
  A decoder without state: it cuts the bytes into characters, from the front,
  and looks ahead for the bytes that belong to each. The terminal's decoder
  gives the same output byte by byte.
 */
module Utf8Reference {
  import opened Basics
  import opened Utf8

  /** Bytes that occur in characters or in broken ones. */
  predicate Regular(bytes: seq<byte>) {
    AllPlain(bytes) && forall i :: 0 <= i < |bytes| ==> bytes[i] < 0xFE
  }

  predicate Continues(b: byte) {
    0x80 <= b < 0xC0
  }

  /** How many continuation bytes stand at the front, counted up to `n`. */
  function Following(bytes: seq<byte>, n: nat): (k: nat)
    ensures k <= n && k <= |bytes| && (forall i :: 0 <= i < k ==> Continues(bytes[i]))
    ensures k < n && k < |bytes| ==> !Continues(bytes[k])
  {
    if n == 0 || bytes == [] || !Continues(bytes[0]) then 0 else 1 + Following(bytes[1..], n - 1)
  }

  /** A first byte for a sequence of `n`, and continuation bytes. */
  predicate Sequence(s: seq<byte>, n: nat) {
    && 1 <= |s| <= n && 0xC0 <= s[0] < 0xFE && n == LeadTotal(s[0])
    && forall i :: 1 <= i < |s| ==> Continues(s[i])
  }

  /** The number that the payload bits of a sequence spell. */
  function Value(s: seq<byte>, n: nat): nat
    requires Sequence(s, n)
  {
    if |s| == 1 then s[0] - Lead(n) else Value(s[..|s| - 1], n) * 64 + (s[|s| - 1] - 0x80)
  }

  /** A code point in its shortest form, or the replacement character. */
  function Character(n: nat, v: nat): nat {
    if SeqLen(v) == n && !Excluded(v) then v else INVALID
  }

  /** The characters of the bytes; a sequence that the bytes end in is not finished yet. */
  function Characters(bytes: seq<byte>): seq<nat>
    requires Regular(bytes)
    decreases |bytes|
  {
    if bytes == [] then []
    else if bytes[0] < 0x7F then [bytes[0]] + Characters(bytes[1..])
    else if Continues(bytes[0]) then [INVALID] + Characters(bytes[1..])
    else
      var n := LeadTotal(bytes[0]);
      var k := 1 + Following(bytes[1..], n - 1);
      if k == n then [Character(n, Value(bytes[..n], n))] + Characters(bytes[n..])
      else if k == |bytes| then []
      else [INVALID] + Characters(bytes[k..])
  }

  lemma {:induction false} ValueInRange(s: seq<byte>, n: nat)
    requires Sequence(s, n)
    ensures Value(s, n) < Limit(n, |s|)
    decreases |s|
  {
    if |s| > 1 { ValueInRange(s[..|s| - 1], n); }
  }

  lemma {:induction false} RunUnfinished(st: State, s: seq<byte>, n: nat)
    requires st.remaining == 0 && Sequence(s, n) && |s| < n
    ensures AllPlain(s) && Run(st, s) == (State(n - |s|, n, Value(s, n)), [])
    decreases |s|
  {
    if |s| == 1 {
      assert s == [s[0]];
      RunOne(st, s[0]);
    } else {
      var front, last := s[..|s| - 1], s[|s| - 1];
      RunUnfinished(st, front, n);
      RunNext(st, front, last);
      assert s == front + [last];
    }
  }

  lemma RunFinished(st: State, s: seq<byte>, n: nat)
    requires st.remaining == 0 && Sequence(s, n) && |s| == n
    ensures AllPlain(s) && Run(st, s).0.remaining == 0 && Run(st, s).1 == [Character(n, Value(s, n))]
  {
    var front, last := s[..n - 1], s[n - 1];
    RunUnfinished(st, front, n);
    RunNext(st, front, last);
    assert s == front + [last];
    ValueInRange(s, n);
    ShortestForm(n, Value(s, n));
  }

  lemma ShortestForm(n: nat, v: nat)
    requires 2 <= n <= 6 && v < Limit(n, n)
    ensures Checked(n, v) == Character(n, v)
  {
    LimitIs(n);
  }

  lemma RegularParts(bytes: seq<byte>, k: nat)
    requires Regular(bytes) && k <= |bytes|
    ensures Regular(bytes[..k]) && Regular(bytes[k..])
  {
  }

  lemma FrontSequence(bytes: seq<byte>, k: nat)
    requires Regular(bytes) && bytes != [] && bytes[0] >= 0xC0
    requires k == 1 + Following(bytes[1..], LeadTotal(bytes[0]) - 1)
    ensures Sequence(bytes[..k], LeadTotal(bytes[0])) && (k < LeadTotal(bytes[0]) && k < |bytes| ==> Breaks(bytes[k]))
  {
    forall i | 1 <= i < k
      ensures Continues(bytes[..k][i])
    {
      assert Continues(bytes[1..][i - 1]);
    }
  }

  lemma FinishedFront(st: State, bytes: seq<byte>, n: nat)
    requires st.remaining == 0 && Regular(bytes) && bytes != [] && bytes[0] >= 0xC0 && n == LeadTotal(bytes[0])
    requires 1 + Following(bytes[1..], n - 1) == n
    ensures Regular(bytes[n..]) && AllPlain(bytes[..n]) && Sequence(bytes[..n], n)
    ensures Run(st, bytes[..n]).0.remaining == 0
    ensures Run(st, bytes).1 == [Character(n, Value(bytes[..n], n))] + Run(Run(st, bytes[..n]).0, bytes[n..]).1
  {
    FrontSequence(bytes, n);
    RegularParts(bytes, n);
    RunFinished(st, bytes[..n], n);
    CutAt(st, bytes, n);
  }

  lemma UnfinishedFront(st: State, bytes: seq<byte>, k: nat)
    requires st.remaining == 0 && Regular(bytes) && bytes != [] && bytes[0] >= 0xC0 && k < LeadTotal(bytes[0])
    requires 1 + Following(bytes[1..], LeadTotal(bytes[0]) - 1) == k
    ensures Regular(bytes[k..])
    ensures Run(st, bytes).1 == if k == |bytes| then [] else [INVALID] + Run(st, bytes[k..]).1
  {
    FrontSequence(bytes, k);
    RegularParts(bytes, k);
    RunUnfinished(st, bytes[..k], LeadTotal(bytes[0]));
    CutAt(st, bytes, k);
    BrokenOff(st, bytes, k);
  }

  /** The decoder that works byte by byte puts out the characters of the bytes. */
  lemma {:induction false} RunGivesCharacters(st: State, bytes: seq<byte>)
    requires st.remaining == 0 && Regular(bytes)
    ensures Run(st, bytes).1 == Characters(bytes)
    decreases |bytes|
  {
    if bytes != [] {
      if bytes[0] < 0xC0 {
        SingleByte(st, bytes);
        RunGivesCharacters(Run(st, bytes[..1]).0, bytes[1..]);
      } else {
        var n := LeadTotal(bytes[0]);
        var k := 1 + Following(bytes[1..], n - 1);
        if k == n {
          FinishedFront(st, bytes, n);
          RunGivesCharacters(Run(st, bytes[..n]).0, bytes[n..]);
        } else {
          UnfinishedFront(st, bytes, k);
          if k < |bytes| { RunGivesCharacters(st, bytes[k..]); }
        }
      }
    }
  }

  lemma CutAt(st: State, bytes: seq<byte>, k: nat)
    requires Regular(bytes) && k <= |bytes|
    ensures AllPlain(bytes[..k]) && AllPlain(bytes[k..])
    ensures Run(st, bytes).1 == Run(st, bytes[..k]).1 + Run(Run(st, bytes[..k]).0, bytes[k..]).1
  {
    RegularParts(bytes, k);
    assert bytes == bytes[..k] + bytes[k..];
    RunConcat(st, bytes[..k], bytes[k..]);
  }

  lemma SingleByte(st: State, bytes: seq<byte>)
    requires st.remaining == 0 && Regular(bytes) && bytes != [] && bytes[0] < 0xC0
    ensures Regular(bytes[1..]) && AllPlain(bytes[..1]) && Run(st, bytes[..1]).0.remaining == 0
    ensures Run(st, bytes).1 ==
      [if bytes[0] < 0x7F then bytes[0] else INVALID] + Run(Run(st, bytes[..1]).0, bytes[1..]).1
  {
    RegularParts(bytes, 1);
    CutAt(st, bytes, 1);
    assert bytes[..1] == [bytes[0]];
    RunOne(st, bytes[0]);
  }

  lemma BrokenOff(st: State, bytes: seq<byte>, k: nat)
    requires st.remaining == 0 && Regular(bytes) && k <= |bytes| && AllPlain(bytes[..k]) && AllPlain(bytes[k..])
    requires Run(st, bytes[..k]).0.remaining != 0 && (k < |bytes| ==> Breaks(bytes[k]))
    ensures Run(Run(st, bytes[..k]).0, bytes[k..]).1 == if k == |bytes| then [] else [INVALID] + Run(st, bytes[k..]).1
  {
    if k < |bytes| {
      Resynchronises(Run(st, bytes[..k]).0, st, bytes[k..]);
    } else {
      assert bytes[k..] == [];
    }
  }
}
