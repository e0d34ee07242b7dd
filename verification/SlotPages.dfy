/** One page of slots: a bitmap, the cached length of its longest free run, and the blocks handed out. */
module SlotPages {
  import opened Basics
  import opened Bitsets

  /** Slot `i` belongs to the block that starts at `s`. */
  predicate Covers(live: map<nat, nat>, s: nat, i: nat) {
    s in live && s <= i < s + live[s]
  }

  /** Exactly the slots of live blocks are marked, blocks are not empty, and no slot has two owners. */
  ghost predicate Marks(b: seq<bool>, maxEntries: nat, live: map<nat, nat>) {
    && maxEntries <= |b|
    && (forall s :: s in live ==> live[s] >= 1 && s + live[s] <= maxEntries)
    && (forall i :: 0 <= i < |b| ==> (b[i] <==> exists s :: Covers(live, s, i)))
    && (forall s: nat, t: nat, i: nat :: Covers(live, s, i) && Covers(live, t, i) ==> s == t)
  }

  lemma MarksAllocate(b: seq<bool>, maxEntries: nat, live: map<nat, nat>, s: nat, n: nat)
    requires Marks(b, maxEntries, live) && n >= 1 && FreeRun(b, s, n) && s + n <= maxEntries
    ensures s !in live
    ensures Marks(WithRange(b, s, n, true), maxEntries, live[s := n])
  {
    var live' := live[s := n];
    assert !b[s];
    assert s in live ==> Covers(live, s, s);
    forall t: nat, i: nat
      ensures Covers(live', t, i) <==> Covers(live, t, i) || (t == s && s <= i < s + n)
    {
    }
    forall t: nat, i: nat | Covers(live, t, i)
      ensures !(s <= i < s + n)
    {
      assert i < |b| && b[i];
    }
    forall i | 0 <= i < |b|
      ensures WithRange(b, s, n, true)[i] <==> exists t :: Covers(live', t, i)
    {
      if s <= i < s + n { assert Covers(live', s, i); }
      if b[i] { var t :| Covers(live, t, i); assert Covers(live', t, i); }
    }
  }

  lemma MarksDeallocate(b: seq<bool>, maxEntries: nat, live: map<nat, nat>, s: nat, n: nat)
    requires Marks(b, maxEntries, live) && s in live && live[s] == n
    ensures Marks(WithRange(b, s, n, false), maxEntries, live - {s})
  {
    var live' := live - {s};
    forall t: nat, i: nat
      ensures Covers(live', t, i) <==> Covers(live, t, i) && t != s
    {
    }
    forall i | 0 <= i < |b|
      ensures WithRange(b, s, n, false)[i] <==> exists t :: Covers(live', t, i)
    {
      if s <= i < s + n {
        assert Covers(live, s, i);
      } else if b[i] {
        var t :| Covers(live, t, i);
        assert Covers(live', t, i);
      }
    }
  }

  /** A page is unmarked exactly when no block is live. */
  lemma MarksNone(b: seq<bool>, maxEntries: nat, live: map<nat, nat>)
    requires Marks(b, maxEntries, live)
    ensures (forall i :: 0 <= i < |b| ==> !b[i]) <==> live == map[]
  {
    if s :| s in live { assert Covers(live, s, s) && b[s]; }
  }

  class Page {
    const bitmap: array<bool>
    const maxEntries: nat
    const slotSize: nat
    const base: nat
    var maxContinuousFree: nat
    ghost var live: map<nat, nat>

    ghost predicate Valid()
      reads this, bitmap
    {
      && slotSize > 0 && 0 < maxEntries <= bitmap.Length
      && Marks(bitmap[..], maxEntries, live)
      && LongestFree(bitmap[..], maxEntries, maxContinuousFree)
    }

    constructor (bits: nat, maxEntries: nat, slotSize: nat, base: nat)
      requires 0 < maxEntries <= bits && slotSize > 0
      ensures Valid() && live == map[] && maxContinuousFree == maxEntries && fresh(bitmap)
      ensures bitmap.Length == bits && this.maxEntries == maxEntries && this.slotSize == slotSize && this.base == base
    {
      bitmap := new bool[bits](i => false);
      this.maxEntries, this.slotSize, this.base := maxEntries, slotSize, base;
      maxContinuousFree := maxEntries;
      live := map[];
      new;
      assert FreeRun(bitmap[..], 0, maxEntries);
    }

    method UpdateHeader()
      requires maxEntries <= bitmap.Length
      modifies this`maxContinuousFree
      ensures LongestFree(bitmap[..], maxEntries, maxContinuousFree)
    {
      var maxFree := 0;
      var count := 0;
      assert FreeRun(bitmap[..], 0, 0);
      for i := 0 to maxEntries
        invariant count <= i && FreeRun(bitmap[..], i - count, count)
        invariant i - count == 0 || bitmap[i - count - 1]
        invariant exists s: nat :: s + maxFree <= i && FreeRun(bitmap[..], s, maxFree)
        invariant forall s: nat, k: nat :: s + k <= i && FreeRun(bitmap[..], s, k) ==> k <= maxFree || k <= count
      {
        if bitmap[i] {
          if count > maxFree { maxFree := count; }
          count := 0;
        } else {
          count := count + 1;
          RunsEndingHere(bitmap[..], i, count);
        }
      }
      if count > maxFree { maxFree := count; }
      maxContinuousFree := maxFree;
    }

    /**
      The leftmost fit, or nothing. Past the header test, nothing is found exactly when no run begins where the
      search looks.
     */
    method Allocate(n: nat) returns (start: Option<nat>)
      requires Valid()
      modifies this`maxContinuousFree, this`live, bitmap
      ensures Valid()
      ensures start.Some? ==> old(FirstFit(bitmap[..], n, start.value)) && start.value + n <= maxEntries
      ensures start.Some? ==> start.value + n < bitmap.Length
      ensures start.Some? ==> bitmap[..] == WithRange(old(bitmap[..]), start.value, n, true)
      ensures start.Some? ==> live == if n == 0 then old(live) else old(live)[start.value := n]
      ensures start.Some? && n > 0 ==> start.value !in old(live)
      ensures start.None? ==> bitmap[..] == old(bitmap[..]) && live == old(live)
      ensures start.None? <==> old(maxContinuousFree) < n || old(NothingSeen(bitmap[..], n))
    {
      if maxContinuousFree < n { return None; }
      ghost var b, m := bitmap[..], maxContinuousFree;
      ghost var s: nat :| s + m <= maxEntries && FreeRun(b, s, m);
      assert FreeRun(b, s, n);
      ghost var r := FirstFitExists(b, n, s);
      FirstFitInFront(b, maxEntries, n, m, r);
      SearchMissesOnlyTheEnd(b, n, r);
      var found := FindContinuousUnset(bitmap, n);
      assert bitmap[..] == b;
      assert found < |b| - n ==> found == r;
      assert n == 0 ==> FreeRun(b, 0, n);
      if found >= maxEntries {
        assert found >= |b| - n && NothingSeen(b, n);
        return None;
      }
      SetRange(bitmap, found, n, true);
      if n > 0 {
        MarksAllocate(b, maxEntries, live, found, n);
        live := live[found := n];
      } else {
        assert bitmap[..] == b;
      }
      UpdateHeader();
      return Some(found);
    }

    /** Frees the block at the address if the page owns that address. */
    method Deallocate(addr: nat, n: nat) returns (mine: bool)
      requires Valid()
      requires Owns(addr) ==> SlotOf(addr) in live && live[SlotOf(addr)] == n
      modifies this`maxContinuousFree, this`live, bitmap
      ensures Valid()
      ensures mine <==> Owns(addr)
      ensures bitmap[..] == if mine then WithRange(old(bitmap[..]), SlotOf(addr), n, false) else old(bitmap[..])
      ensures live == if mine then old(live) - {SlotOf(addr)} else old(live)
    {
      if addr < base || addr >= base + maxEntries * slotSize { return false; }
      if (addr - base) % slotSize != 0 { return false; }
      ghost var b, slot := bitmap[..], SlotOf(addr);
      SlotAddress(base, slotSize, addr);
      MarksDeallocate(b, maxEntries, live, slot, n);
      for index := 0 to maxEntries
        invariant live == old(live)
        invariant bitmap[..] == if index <= slot then b else WithRange(b, slot, n, false)
      {
        if base + index * slotSize == addr {
          SameSlot(base, slotSize, index, slot);
          SetRange(bitmap, index, n, false);
        }
      }
      live := live - {slot};
      UpdateHeader();
      return true;
    }

    method IsEmpty() returns (empty: bool)
      requires Valid()
      ensures empty <==> live == map[]
    {
      MarksNone(bitmap[..], maxEntries, live);
      for i := 0 to bitmap.Length
        invariant forall j :: 0 <= j < i ==> !bitmap[j]
      {
        if bitmap[i] { assert bitmap[..][i]; return false; }
      }
      return true;
    }

    /** The address is that of one of the page's slots. */
    predicate Owns(addr: nat)
      requires slotSize > 0
    {
      base <= addr < base + maxEntries * slotSize && (addr - base) % slotSize == 0
    }

    function SlotOf(addr: nat): nat
      requires slotSize > 0 && base <= addr
    {
      (addr - base) / slotSize
    }
  }

  lemma SlotAddress(base: nat, slotSize: nat, addr: nat)
    requires slotSize > 0 && base <= addr && (addr - base) % slotSize == 0
    ensures base + ((addr - base) / slotSize) * slotSize == addr
  {
  }

  lemma SameSlot(base: nat, slotSize: nat, i: nat, j: nat)
    requires slotSize > 0 && base + i * slotSize == base + j * slotSize
    ensures i == j
  {
    assert (i - j) * slotSize == 0;
  }

  /** A run that ends with bit `i` is no longer than the count of unset bits since the last set one. */
  lemma RunsEndingHere(b: seq<bool>, i: nat, count: nat)
    requires i < |b| && 1 <= count <= i + 1 && (i + 1 - count == 0 || b[i - count])
    ensures forall s: nat, k: nat :: s + k == i + 1 && FreeRun(b, s, k) ==> k <= count
  {
  }
}
