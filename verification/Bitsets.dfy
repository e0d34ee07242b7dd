/** Runs of unset bits, and the two bitset helpers that search and change them. */
module Bitsets {

  /** Bits `start` to `start + n - 1` exist and are unset. */
  predicate FreeRun(b: seq<bool>, start: nat, n: nat) {
    start + n <= |b| && forall i :: start <= i < start + n ==> !b[i]
  }

  /** The leftmost place where `n` unset bits begin. */
  ghost predicate FirstFit(b: seq<bool>, n: nat, r: nat) {
    FreeRun(b, r, n) && forall s: nat :: s < r ==> !FreeRun(b, s, n)
  }

  /** `m` is the length of the longest run of unset bits among the first `hi`. */
  ghost predicate LongestFree(b: seq<bool>, hi: nat, m: nat) {
    && (exists s: nat :: s + m <= hi && FreeRun(b, s, m))
    && (forall s: nat, k: nat :: s + k <= hi && FreeRun(b, s, k) ==> k <= m)
  }

  function WithRange(b: seq<bool>, start: nat, n: nat, value: bool): (r: seq<bool>)
    requires start + n <= |b|
    ensures |r| == |b|
    ensures forall i :: 0 <= i < |b| ==> r[i] == if start <= i < start + n then value else b[i]
  {
    seq(|b|, i requires 0 <= i < |b| => if start <= i < start + n then value else b[i])
  }

  /** A set bit inside a candidate rules out every start up to and including that bit. */
  lemma BlockedUpTo(b: seq<bool>, n: nat, candidate: nat, i: nat)
    requires i < n && candidate + i < |b| && b[candidate + i]
    requires forall s: nat :: s < candidate ==> !FreeRun(b, s, n)
    ensures forall s: nat :: s < candidate + i + 1 ==> !FreeRun(b, s, n)
  {
    forall s: nat | candidate <= s < candidate + i + 1
      ensures !FreeRun(b, s, n)
    {
      assert s + n <= |b| ==> s <= candidate + i < s + n;
    }
  }

  /** No run begins where the search looks. */
  ghost predicate NothingSeen(b: seq<bool>, n: nat) {
    forall s: nat :: s < |b| - n ==> !FreeRun(b, s, n)
  }

  /** Skips past every set bit it meets; starts at `|b| - n` or later are never tried. */
  method FindContinuousUnset(b: array<bool>, n: nat) returns (r: nat)
    requires n <= b.Length
    ensures r < b.Length - n ==> FirstFit(b[..], n, r)
    ensures r >= b.Length - n ==> r == b.Length + 1 && NothingSeen(b[..], n)
  {
    var candidate := 0;
    while candidate < b.Length - n
      invariant 0 <= candidate
      invariant forall s: nat :: s < candidate ==> !FreeRun(b[..], s, n)
    {
      var success := true;
      var i := 0;
      while i < n && success
        invariant 0 <= i <= n
        invariant success ==> FreeRun(b[..], candidate, i)
        invariant !success ==> i < n && b[candidate + i]
        decreases n - i, success
      {
        if b[candidate + i] { success := false; } else { i := i + 1; }
      }
      if success { return candidate; }
      BlockedUpTo(b[..], n, candidate, i);
      candidate := candidate + i + 1;
    }
    return b.Length + 1;
  }

  method SetRange(b: array<bool>, start: nat, n: nat, value: bool)
    requires start + n <= b.Length
    modifies b
    ensures b[..] == WithRange(old(b[..]), start, n, value)
  {
    for i := 0 to n
      invariant forall k :: 0 <= k < b.Length ==> b[k] == if start <= k < start + i then value else old(b[k])
    {
      b[start + i] := value;
    }
  }

  /** The search misses a fit exactly when the leftmost one ends at the very last bit. */
  lemma SearchMissesOnlyTheEnd(b: seq<bool>, n: nat, r: nat)
    requires FirstFit(b, n, r)
    ensures NothingSeen(b, n) <==> r == |b| - n
  {
  }

  /** The leftmost fit in a bitset whose tail is unset lies in the front whenever the front has one at all. */
  lemma FirstFitInFront(b: seq<bool>, hi: nat, n: nat, m: nat, r: nat)
    requires hi <= |b| && LongestFree(b, hi, m) && n <= m && FirstFit(b, n, r)
    ensures r + n <= hi
  {
    var s: nat :| s + m <= hi && FreeRun(b, s, m);
    assert FreeRun(b, s, n);
  }

  lemma {:induction false} FirstFitExists(b: seq<bool>, n: nat, s: nat) returns (r: nat)
    requires FreeRun(b, s, n)
    ensures FirstFit(b, n, r) && r <= s
    decreases s
  {
    if t: nat :| t < s && FreeRun(b, t, n) {
      r := FirstFitExists(b, n, t);
    } else {
      r := s;
    }
  }
}
