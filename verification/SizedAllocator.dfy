/** The list of pages, searched in order; a page is added when none fits and dropped when its last block goes. */
module SizedAllocators {
  import opened Basics
  import opened Bitsets
  import opened SlotPages

  function Address(base: nat, slotSize: nat, slot: nat): nat {
    base + slot * slotSize
  }

  /** Two ranges of addresses have nothing in common. */
  predicate Apart(a: nat, aSize: nat, b: nat, bSize: nat) {
    a + aSize <= b || b + bSize <= a
  }

  lemma SlotInPage(base: nat, slotSize: nat, maxEntries: nat, slot: nat)
    requires slotSize > 0 && slot < maxEntries
    ensures base <= Address(base, slotSize, slot) < base + maxEntries * slotSize
    ensures (Address(base, slotSize, slot) - base) % slotSize == 0
    ensures (Address(base, slotSize, slot) - base) / slotSize == slot
  {
    BlockInPage(slotSize, maxEntries, slot, 1);
    DivideExact(slot, slotSize);
    assert Address(base, slotSize, slot) - base == slot * slotSize;
  }

  lemma DivideExact(slot: nat, slotSize: nat)
    requires slotSize > 0
    ensures (slot * slotSize) % slotSize == 0 && (slot * slotSize) / slotSize == slot
  {
    var q, r := (slot * slotSize) / slotSize, (slot * slotSize) % slotSize;
    assert slot * slotSize == q * slotSize + r;
    assert (slot - q) * slotSize == r;
    assert slot - q >= 1 ==> (slot - q) * slotSize >= slotSize;
    assert slot - q <= -1 ==> (slot - q) * slotSize < 0;
  }

  class SizedAllocator {
    const slotSize: nat
    const bits: nat
    const maxEntries: nat
    var pages: seq<Page>

    constructor (slotSize: nat, bits: nat, maxEntries: nat)
      requires slotSize > 0 && 0 < maxEntries <= bits
      ensures Valid() && pages == []
      ensures this.slotSize == slotSize && this.bits == bits && this.maxEntries == maxEntries
    {
      this.slotSize, this.bits, this.maxEntries, pages := slotSize, bits, maxEntries, [];
    }

    ghost function Footprint(): set<object>
      reads this
    {
      (set p | p in pages :: p as object) + (set p | p in pages :: p.bitmap as object)
    }

    predicate Uniform(p: Page) {
      p.slotSize == slotSize && p.maxEntries == maxEntries && p.bitmap.Length == bits
    }

    /** Pages are objects of their own, all alike, and their slots overlap nowhere. */
    ghost predicate Layout()
      reads this
    {
      && slotSize > 0 && 0 < maxEntries <= bits
      && (forall k :: 0 <= k < |pages| ==> Uniform(pages[k]))
      && (forall j, k :: 0 <= j < k < |pages| ==>
            && pages[j] != pages[k] && pages[j].bitmap != pages[k].bitmap
            && Apart(pages[j].base, maxEntries * slotSize, pages[k].base, maxEntries * slotSize))
    }

    ghost predicate AllValid()
      reads this, Footprint()
    {
      forall p :: p in pages ==> p.Valid()
    }

    ghost predicate Valid()
      reads this, Footprint()
    {
      Layout() && AllValid()
    }

    method TryPage(i: nat, n: nat) returns (start: Option<nat>)
      requires Valid() && i < |pages|
      modifies pages[i], pages[i].bitmap
      ensures Valid()
      ensures start.Some? ==> start.value + n <= maxEntries && n < bits
      ensures start.Some? && n > 0 ==> start.value !in old(pages[i].live)
      ensures pages[i].live == if start.Some? && n > 0 then old(pages[i].live)[start.value := n] else old(pages[i].live)
      ensures forall j :: 0 <= j < |pages| && j != i ==> pages[j].live == old(pages[j].live)
    {
      start := pages[i].Allocate(n);
      OthersUntouched(i);
    }

    method FreeOnPage(i: nat, addr: nat, n: nat) returns (mine: bool)
      requires Valid() && i < |pages|
      requires pages[i].Owns(addr) ==>
        pages[i].SlotOf(addr) in pages[i].live && pages[i].live[pages[i].SlotOf(addr)] == n
      modifies pages[i], pages[i].bitmap
      ensures Valid() && (mine <==> pages[i].Owns(addr))
      ensures pages[i].live == if mine then old(pages[i].live) - {pages[i].SlotOf(addr)} else old(pages[i].live)
      ensures forall j :: 0 <= j < |pages| && j != i ==> pages[j].live == old(pages[j].live)
    {
      mine := pages[i].Deallocate(addr, n);
      OthersUntouched(i);
    }

    /** Changing one page leaves every other page valid. */
    twostate lemma OthersUntouched(i: nat)
      requires old(Valid()) && i < |pages| && unchanged(this) && pages[i].Valid()
      requires forall o: object :: o in old(Footprint()) && o != pages[i] && o != pages[i].bitmap ==> unchanged(o)
      ensures Valid()
      ensures forall j :: 0 <= j < |pages| && j != i ==> pages[j].live == old(pages[j].live)
    {
      forall p | p in pages
        ensures p.Valid()
      {
        if p != pages[i] { assert p in old(Footprint()) && p.bitmap in old(Footprint()); }
      }
      forall j | 0 <= j < |pages| && j != i
        ensures pages[j].live == old(pages[j].live)
      {
        assert pages[j] in pages && pages[j] != pages[i] && pages[j] in old(Footprint());
      }
    }

    /** Tries the pages in order; the first that has room takes the block. */
    method AllocateOnListed(n: nat) returns (addr: Option<nat>, ghost k: nat, ghost slot: nat)
      requires Valid() && n <= maxEntries
      modifies Footprint()
      ensures Valid()
      ensures addr.Some? ==>
        k < |pages| && slot + n <= maxEntries && addr.value == Address(pages[k].base, slotSize, slot)
      ensures addr.Some? ==> n < bits
      ensures addr.Some? && n > 0 ==> slot !in old(pages[k].live) && pages[k].live == old(pages[k].live)[slot := n]
      ensures forall j :: 0 <= j < |pages| && (addr.None? || n == 0 || j != k) ==> pages[j].live == old(pages[j].live)
    {
      k, slot := 0, 0;
      for i := 0 to |pages|
        invariant AllValid()
        invariant forall j :: 0 <= j < |pages| ==> pages[j].live == old(pages[j].live)
      {
        assert pages[i] in pages;
        var start := TryPage(i, n);
        if start.Some? {
          return Some(Address(pages[i].base, slotSize, start.value)), i, start.value;
        }
      }
      return None, 0, 0;
    }

    /** Appends a page. The page allocator hands out memory that overlaps no other page. */
    method AddPage(newBase: nat) returns (page: Page)
      requires Valid()
      requires forall j :: 0 <= j < |pages| ==>
        Apart(pages[j].base, maxEntries * slotSize, newBase, maxEntries * slotSize)
      modifies this`pages
      ensures Valid() && pages == old(pages) + [page] && fresh(page) && fresh(page.bitmap)
      ensures page.live == map[] && page.maxContinuousFree == maxEntries && page.base == newBase
    {
      page := new Page(bits, maxEntries, slotSize, newBase);
      pages := pages + [page];
    }

    method AllocateOnLast(n: nat) returns (addr: Option<nat>, ghost slot: nat)
      requires Valid() && n <= maxEntries && pages != []
      requires pages[|pages| - 1].live == map[] && pages[|pages| - 1].maxContinuousFree == maxEntries
      modifies pages[|pages| - 1], pages[|pages| - 1].bitmap
      ensures Valid() && (addr.Some? <==> n < bits)
      ensures addr.Some? ==> slot + n <= maxEntries && addr.value == Address(pages[|pages| - 1].base, slotSize, slot)
      ensures pages[|pages| - 1].live == if addr.Some? && n > 0 then map[slot := n] else map[]
    {
      var page := pages[|pages| - 1];
      assert page in pages;
      EmptyPageFits(page.bitmap[..], page.maxEntries, page.live, n);
      var start := page.Allocate(n);
      if start.None? { return None, 0; }
      return Some(Address(page.base, slotSize, start.value)), start.value;
    }

    method Allocate(n: nat, newBase: nat) returns (addr: Option<nat>, ghost k: nat, ghost slot: nat)
      requires Valid()
      requires forall j :: 0 <= j < |pages| ==>
        Apart(pages[j].base, maxEntries * slotSize, newBase, maxEntries * slotSize)
      modifies this`pages, Footprint()
      ensures Valid() && old(pages) <= pages && |pages| <= |old(pages)| + 1
      ensures addr.Some? <==> n <= maxEntries && n < bits
      ensures n > maxEntries ==> pages == old(pages)
      ensures addr.None? && n <= maxEntries ==> |pages| == |old(pages)| + 1
      ensures addr.Some? ==>
        k < |pages| && slot + n <= maxEntries && addr.value == Address(pages[k].base, slotSize, slot)
      ensures addr.Some? && n > 0 && k < |old(pages)| ==>
                slot !in old(pages[k].live) && pages[k].live == old(pages[k].live)[slot := n]
      ensures forall j :: 0 <= j < |old(pages)| && (addr.None? || n == 0 || j != k) ==>
                old(pages)[j].live == old(pages[j].live)
      ensures |pages| > |old(pages)| ==>
                pages[|old(pages)|].live == if addr.Some? && n > 0 then map[slot := n] else map[]
      ensures |pages| > |old(pages)| && addr.Some? ==> k == |old(pages)|
    {
      k, slot := 0, 0;
      if n > maxEntries { return None, 0, 0; }
      addr, k, slot := AllocateOnListed(n);
      if addr.Some? { return; }
      var page := AddPage(newBase);
      k := |pages| - 1;
      addr, slot := AllocateOnLast(n);
    }

    /**
      Frees one block: the page that owns it forgets exactly that block, and
      leaves the list if it was the last. An address that no page owns changes
      nothing.
     */
    method Deallocate(addr: nat, n: nat) returns (ghost k: nat)
      requires Valid() && forall j :: 0 <= j < |pages| ==> MayFree(pages[j], addr, n)
      modifies this`pages, Footprint()
      ensures Valid() && k <= |old(pages)|
      ensures forall j :: 0 <= j < k ==> !old(pages)[j].Owns(addr)
      ensures forall j :: 0 <= j < |old(pages)| && j != k ==> old(pages)[j].live == old(pages[j].live)
      ensures k == |old(pages)| ==> pages == old(pages)
      ensures k < |old(pages)| ==>
        && old(pages)[k].Owns(addr) && old(pages)[k].live == old(pages[k].live) - {old(pages)[k].SlotOf(addr)}
        && pages == if old(pages)[k].live == map[] then old(pages)[..k] + old(pages)[k + 1..] else old(pages)
    {
      var i := DeallocateOnOwner(addr, n);
      k := i;
      if i < |pages| { DropIfEmpty(i); }
    }

    /** The address is not the page's, or it is that of a live block of this length. */
    ghost predicate MayFree(p: Page, addr: nat, n: nat)
      reads p, p.bitmap
    {
      p.slotSize > 0 && (p.Owns(addr) ==> p.SlotOf(addr) in p.live && p.live[p.SlotOf(addr)] == n)
    }

    method DropIfEmpty(i: nat)
      requires Valid() && i < |pages|
      modifies this`pages
      ensures Valid()
      ensures pages == if old(pages)[i].live == map[] then old(pages)[..i] + old(pages)[i + 1..] else old(pages)
    {
      var empty := pages[i].IsEmpty();
      if empty { pages := pages[..i] + pages[i + 1..]; }
    }

    /** Asks the pages in order; the first that owns the address frees the block. */
    method DeallocateOnOwner(addr: nat, n: nat) returns (i: nat)
      requires Valid() && forall j :: 0 <= j < |pages| ==> MayFree(pages[j], addr, n)
      modifies Footprint()
      ensures Valid() && i <= |pages|
      ensures forall j :: 0 <= j < i ==> !pages[j].Owns(addr)
      ensures i < |pages| ==> pages[i].Owns(addr) && pages[i].live == old(pages[i].live) - {pages[i].SlotOf(addr)}
      ensures forall j :: 0 <= j < |pages| && j != i ==> pages[j].live == old(pages[j].live)
    {
      i := 0;
      while i < |pages|
        invariant 0 <= i <= |pages| && AllValid()
        invariant forall j :: 0 <= j < i ==> !pages[j].Owns(addr)
        invariant forall j :: 0 <= j < |pages| ==> pages[j].live == old(pages[j].live)
      {
        assert pages[i] in pages && old(MayFree(pages[i], addr, n));
        var mine := FreeOnPage(i, addr, n);
        if mine { return; }
        i := i + 1;
      }
    }
  }

  /** The search finds any run in an empty bitmap, unless it takes all the bits. */
  lemma EmptyPageFits(b: seq<bool>, maxEntries: nat, live: map<nat, nat>, n: nat)
    requires Marks(b, maxEntries, live) && live == map[] && n <= |b|
    ensures NothingSeen(b, n) <==> n == |b|
  {
    MarksNone(b, maxEntries, live);
    assert n < |b| ==> FreeRun(b, 0, n);
  }

  /** An address of a live block is recognised by the page it lies on and by no other. */
  lemma OwnerOnly(a: SizedAllocator, addr: nat, k: nat, slot: nat)
    requires a.Valid() && k < |a.pages| && slot in a.pages[k].live && addr == Address(a.pages[k].base, a.slotSize, slot)
    ensures a.pages[k].Owns(addr) && a.pages[k].SlotOf(addr) == slot
    ensures forall i :: 0 <= i < |a.pages| && i != k ==> !a.pages[i].Owns(addr)
    ensures forall i :: 0 <= i < |a.pages| ==> a.MayFree(a.pages[i], addr, a.pages[k].live[slot])
  {
    assert a.pages[k] in a.pages && slot < a.maxEntries;
    SlotInPage(a.pages[k].base, a.slotSize, a.maxEntries, slot);
  }

  /** In every state, different live blocks share no byte, on one page or on two. */
  lemma LiveBlocksApart(a: SizedAllocator, j: nat, s: nat, k: nat, t: nat)
    requires a.Valid() && j < |a.pages| && k < |a.pages| && s in a.pages[j].live && t in a.pages[k].live
    requires j != k || s != t
    ensures Apart(Address(a.pages[j].base, a.slotSize, s), a.pages[j].live[s] * a.slotSize,
                  Address(a.pages[k].base, a.slotSize, t), a.pages[k].live[t] * a.slotSize)
  {
    var p, q := a.pages[j], a.pages[k];
    assert p in a.pages && q in a.pages;
    if j != k {
      BlocksOnTwoPages(p.base, q.base, a.slotSize, a.maxEntries, s, p.live[s], t, q.live[t]);
    } else {
      BlocksOnOnePage(p.live, s, t);
      BlocksOnOnePageApart(p.base, a.slotSize, s, p.live[s], t, p.live[t]);
    }
  }

  lemma BlocksOnOnePage(live: map<nat, nat>, s: nat, t: nat)
    requires s in live && t in live && s != t && live[s] >= 1 && live[t] >= 1
    requires forall s: nat, t: nat, i: nat :: Covers(live, s, i) && Covers(live, t, i) ==> s == t
    ensures s + live[s] <= t || t + live[t] <= s
  {
    assert Covers(live, s, s) && Covers(live, t, t);
    assert s < t < s + live[s] ==> Covers(live, s, t);
    assert t < s < t + live[t] ==> Covers(live, t, s);
  }

  lemma BlocksOnOnePageApart(base: nat, slotSize: nat, s: nat, n: nat, t: nat, o: nat)
    requires s + n <= t || t + o <= s
    ensures Apart(Address(base, slotSize, s), n * slotSize, Address(base, slotSize, t), o * slotSize)
  {
    if s + n <= t { BlockInPage(slotSize, t, s, n); } else { BlockInPage(slotSize, s, t, o); }
  }

  lemma BlocksOnTwoPages(b: nat, c: nat, slotSize: nat, maxEntries: nat, s: nat, n: nat, t: nat, o: nat)
    requires Apart(b, maxEntries * slotSize, c, maxEntries * slotSize) && s + n <= maxEntries && t + o <= maxEntries
    ensures Apart(Address(b, slotSize, s), n * slotSize, Address(c, slotSize, t), o * slotSize)
  {
    BlockInPage(slotSize, maxEntries, s, n);
    BlockInPage(slotSize, maxEntries, t, o);
    ApartInside(b, c, maxEntries * slotSize, s * slotSize, n * slotSize, t * slotSize, o * slotSize);
  }

  lemma ApartInside(b: nat, c: nat, size: nat, x: nat, xSize: nat, y: nat, ySize: nat)
    requires Apart(b, size, c, size) && x + xSize <= size && y + ySize <= size
    ensures Apart(b + x, xSize, c + y, ySize)
  {
  }

  lemma BlockInPage(slotSize: nat, limit: nat, s: nat, n: nat)
    requires s + n <= limit
    ensures s * slotSize + n * slotSize <= limit * slotSize
  {
    assert s * slotSize + n * slotSize == (s + n) * slotSize;
    assert (limit - (s + n)) * slotSize >= 0;
  }
}
