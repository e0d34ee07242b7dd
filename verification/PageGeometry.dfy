/** How many slots a page has, and when the allocator's search can miss a fit it was promised. */
module PageGeometry {
  import opened Bitsets

  function Bits(pageSize: nat, slotSize: nat): nat
    requires slotSize > 0
  {
    pageSize / slotSize
  }

  /** A bitset is stored in whole 64-bit words. */
  function BitmapBytes(bits: nat): nat {
    (bits + 63) / 64 * 8
  }

  /** Header, bitmap and list link share the page with the slots. */
  function MaxEntries(pageSize: nat, slotSize: nat): nat
    requires slotSize > 0
  {
    var overhead := 16 + BitmapBytes(Bits(pageSize, slotSize));
    if pageSize < overhead then 0 else (pageSize - overhead) / slotSize
  }

  /** A page holds its overhead and its slots, and not one slot more; the bitmap has a bit for each. */
  lemma SlotsFillPage(pageSize: nat, slotSize: nat)
    requires slotSize > 0 && pageSize >= 16 + BitmapBytes(Bits(pageSize, slotSize))
    ensures var overhead, n := 16 + BitmapBytes(Bits(pageSize, slotSize)), MaxEntries(pageSize, slotSize);
      overhead + n * slotSize <= pageSize < overhead + (n + 1) * slotSize
    ensures MaxEntries(pageSize, slotSize) <= Bits(pageSize, slotSize) <= 8 * BitmapBytes(Bits(pageSize, slotSize))
  {
    var overhead, n := 16 + BitmapBytes(Bits(pageSize, slotSize)), MaxEntries(pageSize, slotSize);
    assert pageSize - overhead == slotSize * n + (pageSize - overhead) % slotSize;
    assert (n + 1) * slotSize == n * slotSize + slotSize;
    NoSpareBitIff(pageSize, slotSize);
  }

  /** The failure branch behind the header test can be taken in some state exactly when no bit is left over. */
  lemma QuestionedBranch(bits: nat, maxEntries: nat)
    requires 0 < maxEntries <= bits
    ensures (exists b: seq<bool>, m: nat, n: nat ::
               |b| == bits && LongestFree(b, maxEntries, m) && n <= m && NothingSeen(b, n))
       <==> maxEntries == bits
  {
    if maxEntries == bits {
      var b := seq(bits, i => false);
      assert FreeRun(b, 0, bits);
      assert LongestFree(b, maxEntries, maxEntries) && NothingSeen(b, maxEntries);
    } else {
      forall b: seq<bool>, m: nat, n: nat | |b| == bits && LongestFree(b, maxEntries, m) && n <= m
        ensures !NothingSeen(b, n)
      {
        var s: nat :| s + m <= maxEntries && FreeRun(b, s, m);
        assert FreeRun(b, s, n);
      }
    }
  }

  /** Slots of 100 bytes in a 4 KiB page leave no spare bit: a fresh page cannot give out all it has at once. */
  lemma HundredByteSlots()
    ensures Bits(4096, 100) == MaxEntries(4096, 100) == 40
    ensures var b := seq(40, i => false); LongestFree(b, 40, 40) && NothingSeen(b, 40)
  {
    var b := seq(40, i => false);
    assert FreeRun(b, 0, 40);
  }

  /** No bit is left over exactly when what remains of the page after its slots covers the overhead. */
  lemma NoSpareBitIff(pageSize: nat, slotSize: nat)
    requires slotSize > 0 && pageSize >= 16 + BitmapBytes(Bits(pageSize, slotSize))
    ensures MaxEntries(pageSize, slotSize) <= Bits(pageSize, slotSize)
    ensures MaxEntries(pageSize, slotSize) == Bits(pageSize, slotSize)
       <==> pageSize % slotSize >= 16 + BitmapBytes(Bits(pageSize, slotSize))
  {
    DivideLess(pageSize, 16 + BitmapBytes(Bits(pageSize, slotSize)), slotSize);
  }

  lemma DivideLess(p: nat, o: nat, s: nat)
    requires s > 0 && o <= p
    ensures (p - o) / s <= p / s
    ensures (p - o) / s == p / s <==> p % s >= o
  {
    var k, r, r' := p / s - (p - o) / s, p % s, (p - o) % s;
    assert p == s * (p / s) + r;
    assert p - o == s * ((p - o) / s) + r';
    Distribute(s, p / s, (p - o) / s);
    MultipleBound(s, k, o + r' - r);
  }

  lemma Distribute(s: nat, a: int, b: int)
    ensures s * (a - b) == s * a - s * b
  {
  }

  lemma MultipleBound(s: int, k: int, d: int)
    requires s > 0 && s * k == d
    ensures k >= 1 ==> d >= s
    ensures k <= -1 ==> d + s <= 0
    ensures k == 0 ==> d == 0
  {
    assert k >= 1 ==> s * k >= s * 1;
    assert k <= -1 ==> s * k <= s * -1;
  }
}
