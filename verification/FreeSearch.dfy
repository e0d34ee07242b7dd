/**
  The search for absent pages: where it stops, what it returns, and when that
  lies outside the region it was meant to search. `spots` holds the addresses
  at which enough absent pages begin.
 */
module FreeSearch {
  import opened PageTables
  import opened FlatView

  /** An address in the region at which the search could succeed. */
  ghost predicate FitsAt(spots: iset<nat>, start: nat, end: nat, k: nat) {
    PageAt(start, k) <= end && PageAt(start, k) in spots
  }

  ghost predicate HasFit(spots: iset<nat>, start: nat, end: nat) {
    exists k: nat :: FitsAt(spots, start, end, k)
  }

  ghost predicate FirstFit(spots: iset<nat>, start: nat, end: nat, k: nat) {
    FitsAt(spots, start, end, k) && forall j: nat :: j < k ==> !FitsAt(spots, start, end, j)
  }

  /** Where a search that started at `start` is after `k` steps. */
  function Position(start: nat, k: nat): nat {
    Wrapped(PageAt(start, k))
  }

  ghost predicate Stops(spots: iset<nat>, start: nat, end: nat, k: nat) {
    Position(start, k) > end || Position(start, k) in spots
  }

  ghost predicate FirstStop(spots: iset<nat>, start: nat, end: nat, k: nat) {
    Stops(spots, start, end, k) && forall j: nat :: j < k ==> !Stops(spots, start, end, j)
  }

  /** The search ends at all. */
  ghost predicate Ends(spots: iset<nat>, start: nat, end: nat) {
    exists k: nat :: Stops(spots, start, end, k)
  }

  /** What the search returns when it stops: where it found a fit, or 0 past the end of the region. */
  function Outcome(start: nat, end: nat, k: nat): nat {
    if Position(start, k) > end then 0 else Position(start, k)
  }

  /** The last of `num` pages from `v` on, or `v` itself. */
  function LastPage(v: nat, num: nat): nat {
    if num == 0 then v else PageAt(v, num - 1)
  }

  /** A fit whose last page still lies in the region. The search does not look at that. */
  ghost predicate RoomAt(spots: iset<nat>, start: nat, end: nat, num: nat, k: nat) {
    PageAt(start, k) in spots && LastPage(PageAt(start, k), num) <= end
  }

  ghost predicate HasRoom(spots: iset<nat>, start: nat, end: nat, num: nat) {
    exists k: nat :: RoomAt(spots, start, end, num, k)
  }

  /** Pages were found, and all of them lie in the region. */
  predicate InRegion(v: nat, start: nat, end: nat, num: nat) {
    v != 0 && start <= v && LastPage(v, num) <= end
  }

  // --- Arithmetic of the steps ---

  /** The step at which the search wraps to the bottom of the address space, unless it stopped before. */
  function WrapStep(start: nat): nat {
    0x10_0000_0000_0000 - start / 0x1000 % 0x10_0000_0000_0000
  }

  lemma NextPosition(start: nat, k: nat)
    ensures Wrapped(Position(start, k) + 0x1000) == Position(start, k + 1)
  {
    var x := PageAt(start, k);
    var q, r := x / 0x1_0000_0000_0000_0000, Wrapped(x);
    assert PageAt(start, k + 1) == 0x1_0000_0000_0000_0000 * q + (r + 0x1000);
  }

  lemma PositionBeforeWrap(start: nat, k: nat)
    requires start < 0x1_0000_0000_0000_0000 && k < WrapStep(start)
    ensures Position(start, k) == PageAt(start, k) < 0x1_0000_0000_0000_0000
  {
  }

  lemma LastPosition(start: nat)
    requires start < 0x1_0000_0000_0000_0000
    ensures Position(start, WrapStep(start) - 1) == 0xFFFF_FFFF_FFFF_F000 + start % 0x1000
  {
    PositionBeforeWrap(start, WrapStep(start) - 1);
  }

  lemma FirstAfterWrap(start: nat)
    requires start < 0x1_0000_0000_0000_0000
    ensures Position(start, WrapStep(start)) == start % 0x1000
  {
    assert PageAt(start, WrapStep(start)) == 0x1_0000_0000_0000_0000 + start % 0x1000;
  }

  lemma InRegionBeforeWrap(start: nat, k: nat)
    requires PageAt(start, k) < 0x1_0000_0000_0000_0000
    ensures k < WrapStep(start)
  {
  }

  lemma SameOffset(start: nat, k: nat)
    ensures Position(start, k) % 0x1000 == start % 0x1000
  {
  }

  lemma StepsTo(start: nat, v: nat) returns (j: nat)
    requires v >= start && v % 0x1000 == start % 0x1000
    ensures PageAt(start, j) == v
  {
    j := v / 0x1000 - start / 0x1000;
  }

  // --- Results ---

  /** With a fit in the region, the search returns the first one. */
  lemma FindsFirstFit(spots: iset<nat>, start: nat, end: nat, k: nat)
    requires start < 0x1_0000_0000_0000_0000 && end < 0x1_0000_0000_0000_0000
    requires FirstStop(spots, start, end, k) && HasFit(spots, start, end)
    ensures FirstFit(spots, start, end, k) && Outcome(start, end, k) == PageAt(start, k)
  {
    var j: nat :| FitsAt(spots, start, end, j);
    InRegionBeforeWrap(start, j);
    PositionBeforeWrap(start, j);
    assert Stops(spots, start, end, j);
    PositionBeforeWrap(start, k);
    forall i: nat | i < k
      ensures !FitsAt(spots, start, end, i)
    {
      PositionBeforeWrap(start, i);
      assert !Stops(spots, start, end, i);
    }
  }

  /** Whether a search that finds nothing leaves the region at its end, rather than wrapping. */
  predicate EndsBeforeWrap(start: nat, end: nat) {
    end < 0xFFFF_FFFF_FFFF_F000 + start % 0x1000
  }

  lemma StopsAtEnd(spots: iset<nat>, start: nat, end: nat)
    requires start < 0x1_0000_0000_0000_0000 && EndsBeforeWrap(start, end)
    ensures Stops(spots, start, end, WrapStep(start) - 1) && Ends(spots, start, end)
  {
    LastPosition(start);
    var last: nat := WrapStep(start) - 1;
    assert Stops(spots, start, end, last);
  }

  /**
    Without a fit in the region, the search returns 0 if the region ends before
    the address space does. Otherwise it goes on at the bottom of the address
    space and returns the first fit there, which lies below the region.
   */
  lemma FindsNothing(spots: iset<nat>, start: nat, end: nat, k: nat)
    requires start < 0x1_0000_0000_0000_0000 && end < 0x1_0000_0000_0000_0000
    requires FirstStop(spots, start, end, k) && !HasFit(spots, start, end)
    ensures EndsBeforeWrap(start, end) ==> Outcome(start, end, k) == 0
    ensures !EndsBeforeWrap(start, end) ==>
      && Outcome(start, end, k) in spots && Outcome(start, end, k) < start
      && (Outcome(start, end, k) == start % 0x1000 <==> start % 0x1000 in spots)
  {
    if k < WrapStep(start) {
      PositionBeforeWrap(start, k);
      assert !FitsAt(spots, start, end, k);
    }
    if EndsBeforeWrap(start, end) {
      StopsAtEnd(spots, start, end);
    } else {
      NeverPastEnd(start, end, k);
      FirstAfterWrap(start);
      NeverPastEnd(start, end, WrapStep(start));
      assert Stops(spots, start, end, WrapStep(start)) <==> start % 0x1000 in spots;
      var v := Position(start, k);
      SameOffset(start, k);
      if v >= start {
        var j := StepsTo(start, v);
        assert FitsAt(spots, start, end, j);
      }
    }
  }

  lemma NeverPastEnd(start: nat, end: nat, k: nat)
    requires !EndsBeforeWrap(start, end)
    ensures Position(start, k) <= end
  {
    SameOffset(start, k);
  }

  /** Exactly when the address found, if not 0, lies outside the region. */
  lemma AddressOutsideIff(spots: iset<nat>, start: nat, end: nat, k: nat)
    requires start < 0x1_0000_0000_0000_0000 && end < 0x1_0000_0000_0000_0000
    requires FirstStop(spots, start, end, k)
    ensures Outcome(start, end, k) != 0 && !(start <= Outcome(start, end, k) <= end) <==>
      !HasFit(spots, start, end) && !EndsBeforeWrap(start, end) && !(start % 0x1000 == 0 && 0 in spots)
  {
    if HasFit(spots, start, end) {
      FindsFirstFit(spots, start, end, k);
    } else {
      FindsNothing(spots, start, end, k);
    }
  }

  /** All pages found lie in the region exactly when some fit lies in it as a whole. Address 0 reads as failure. */
  lemma InRegionIff(spots: iset<nat>, start: nat, end: nat, num: nat, k: nat)
    requires start < 0x1_0000_0000_0000_0000 && end < 0x1_0000_0000_0000_0000
    requires FirstStop(spots, start, end, k)
    ensures InRegion(Outcome(start, end, k), start, end, num) <==>
      HasRoom(spots, start, end, num) && !(start == 0 && 0 in spots)
  {
    if HasRoom(spots, start, end, num) {
      var j: nat :| RoomAt(spots, start, end, num, j);
      assert FitsAt(spots, start, end, j);
    }
    if HasFit(spots, start, end) {
      FindsFirstFit(spots, start, end, k);
      assert RoomAt(spots, start, end, num, k) <==> LastPage(PageAt(start, k), num) <= end;
      if start == 0 && 0 in spots { assert FitsAt(spots, start, end, 0); }
    } else {
      FindsNothing(spots, start, end, k);
    }
  }

  /**
    Exactly when pages are found that do not all lie in the region: there is no
    room in it, and either a fit begins in it all the same, or the search wraps.
   */
  lemma OutsideRegionIff(spots: iset<nat>, start: nat, end: nat, num: nat, k: nat)
    requires start < 0x1_0000_0000_0000_0000 && end < 0x1_0000_0000_0000_0000
    requires FirstStop(spots, start, end, k)
    ensures Outcome(start, end, k) != 0 && !InRegion(Outcome(start, end, k), start, end, num) <==>
      && !HasRoom(spots, start, end, num)
      && if HasFit(spots, start, end) then !(start == 0 && 0 in spots)
         else !EndsBeforeWrap(start, end) && !(start % 0x1000 == 0 && 0 in spots)
  {
    InRegionIff(spots, start, end, num, k);
    if HasFit(spots, start, end) {
      FindsFirstFit(spots, start, end, k);
      if start == 0 && 0 in spots { assert FitsAt(spots, start, end, 0); }
    } else {
      FindsNothing(spots, start, end, k);
    }
  }

  /** A full region at the end of the address space, and page 0 taken: the search comes back with page 1. */
  lemma WrapExample(spots: iset<nat>, start: nat, end: nat)
    requires start == 0xFFFF_FFFF_FFFF_F000 && end == 0xFFFF_FFFF_FFFF_FFFF
    requires start !in spots && 0 !in spots && 0x1000 in spots
    ensures FirstStop(spots, start, end, 2) && Outcome(start, end, 2) == 0x1000
  {
    assert Position(start, 0) == start && Position(start, 1) == 0 && Position(start, 2) == 0x1000;
  }

  /** Where only the last page of a region is free, the search finds that, if enough absent pages follow. */
  lemma FindsLastPage(t: Tables, c: Frame, start: nat, end: nat, num: nat, j: nat, k: nat)
    requires PageAt(start, j) <= end < PageAt(start, j + 1) && end < 0x1_0000_0000_0000_0000
    requires forall v :: start <= v < PageAt(start, j) ==> !Lookup(t, c, v).Absent?
    requires PageAt(start, j) in Spots(t, c, num) && FirstStop(Spots(t, c, num), start, end, k)
    ensures Outcome(start, end, k) == PageAt(start, j)
  {
    assert FitsAt(Spots(t, c, num), start, end, j);
    FindsFirstFit(Spots(t, c, num), start, end, k);
  }

  lemma TwoPages(t: Tables, c: Frame, v: nat)
    requires v < 0x1_0000_0000_0000_0000
    requires Lookup(t, c, v).Absent? && Lookup(t, c, Wrapped(PageAt(v, 1))).Absent?
    ensures v in Spots(t, c, 2)
  {
    NotWrapped(v);
    assert PageAt(v, 0) == v;
  }

  lemma NotWrapped(v: nat)
    requires v < 0x1_0000_0000_0000_0000
    ensures Wrapped(v) == v
  {
  }

  /** One page of the region is left and the page behind it is absent: two pages found there leave the region. */
  lemma LastPageLeaves(t: Tables, c: Frame, start: nat, end: nat, j: nat, k: nat)
    requires PageAt(start, j) <= end < PageAt(start, j + 1) && end < 0x1_0000_0000_0000_0000
    requires forall v :: start <= v < PageAt(start, j) ==> !Lookup(t, c, v).Absent?
    requires Lookup(t, c, PageAt(start, j)).Absent? && Lookup(t, c, Wrapped(PageAt(start, j + 1))).Absent?
    requires FirstStop(Spots(t, c, 2), start, end, k)
    ensures Outcome(start, end, k) == PageAt(start, j) && !InRegion(PageAt(start, j), start, end, 2)
  {
    assert PageAt(PageAt(start, j), 1) == PageAt(start, j + 1);
    TwoPages(t, c, PageAt(start, j));
    FindsLastPage(t, c, start, end, 2, j, k);
  }

  // --- The kernel's regions ---

  /** Where `num` absent pages begin. */
  ghost function Spots(t: Tables, c: Frame, num: nat): iset<nat> {
    iset v: nat | Lookup(t, c, v).Absent? && AbsentRun(t, c, v, num)
  }

  lemma EmptyUserHalf(t: Tables, c: Frame, v: nat)
    requires NoUserHalf(t, c) && !InKernelHalf(v)
    ensures Lookup(t, c, v).Absent?
  {
    assert !Get(t, c, Index(4, v)).present;
  }

  lemma BottomIsFree(t: Tables, c: Frame, num: nat)
    requires NoUserHalf(t, c) && num <= 0x8_0000_0000
    ensures 0 in Spots(t, c, num)
  {
    forall i | 0 <= i < num
      ensures Lookup(t, c, Wrapped(PageAt(0, i))).Absent?
    {
      UpperAddress(PageAt(0, i));
      EmptyUserHalf(t, c, Wrapped(PageAt(0, i)));
    }
    UpperAddress(0);
    EmptyUserHalf(t, c, 0);
  }

  /**
    Where page 0 is free, as in the kernel context, the search ends. It returns
    0 exactly when no fit begins in the region, and pages of the region exactly
    when one also ends there.
   */
  lemma SearchAboveFreeBottom(spots: iset<nat>, start: nat, end: nat, num: nat, k: nat)
    requires 0 in spots && 0 < start < 0x1_0000_0000_0000_0000 && start % 0x1000 == 0 && end < 0x1_0000_0000_0000_0000
    ensures Ends(spots, start, end)
    ensures FirstStop(spots, start, end, k) ==>
      && (Outcome(start, end, k) == 0 <==> !HasFit(spots, start, end))
      && (InRegion(Outcome(start, end, k), start, end, num) <==> HasRoom(spots, start, end, num))
  {
    FirstAfterWrap(start);
    assert Stops(spots, start, end, WrapStep(start));
    if FirstStop(spots, start, end, k) {
      InRegionIff(spots, start, end, num, k);
      if HasFit(spots, start, end) {
        FindsFirstFit(spots, start, end, k);
      } else {
        FindsNothing(spots, start, end, k);
      }
    }
  }

  /** Pages from the kernel half on stay in it exactly when they do not pass the end of the address space. */
  lemma StaysInKernelHalfIff(v: nat, num: nat)
    requires DIRECT_MAPPING_START <= v < 0x1_0000_0000_0000_0000
    ensures (forall i :: 0 <= i < num ==> InKernelHalf(PageAt(v, i))) <==> LastPage(v, num) < 0x1_0000_0000_0000_0000
  {
    forall i | 0 <= i < num && PageAt(v, i) < 0x1_0000_0000_0000_0000
      ensures InKernelHalf(PageAt(v, i))
    {
      UpperAddress(PageAt(v, i));
    }
    if LastPage(v, num) >= 0x1_0000_0000_0000_0000 {
      var i := WrapStep(v);
      FirstAfterWrap(v);
      UpperAddress(v % 0x1000);
      WrappedPage(PageAt(v, i));
      assert 0 <= i < num && !InKernelHalf(PageAt(v, i));
    }
  }

  /**
    In a region that reaches the end of the address space, pages wrap exactly when
    a fit begins but none ends there.
   */
  lemma HeapStaysInKernelHalfIff(spots: iset<nat>, start: nat, num: nat, k: nat)
    requires 0 in spots && DIRECT_MAPPING_START <= start < 0x1_0000_0000_0000_0000 && start % 0x1000 == 0
    requires FirstStop(spots, start, 0xFFFF_FFFF_FFFF_FFFF, k)
    ensures var v := Outcome(start, 0xFFFF_FFFF_FFFF_FFFF, k);
      v == 0 || (forall i :: 0 <= i < num ==> InKernelHalf(PageAt(v, i))) <==>
        HasRoom(spots, start, 0xFFFF_FFFF_FFFF_FFFF, num) || !HasFit(spots, start, 0xFFFF_FFFF_FFFF_FFFF)
  {
    SearchAboveFreeBottom(spots, start, 0xFFFF_FFFF_FFFF_FFFF, num, k);
    if HasFit(spots, start, 0xFFFF_FFFF_FFFF_FFFF) {
      FindsFirstFit(spots, start, 0xFFFF_FFFF_FFFF_FFFF, k);
      StaysInKernelHalfIff(PageAt(start, k), num);
    }
  }
}
