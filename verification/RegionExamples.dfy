/**
  Runs after which a request for two pages leaves the region it was made for:
  only the last page of the region is left, and the search takes it.
 */
module RegionExamples {
  import opened PageTables
  import opened FlatView
  import opened AddressSpaces
  import opened AddressSpaceRuns
  import opened FreeSearch

  // --- Filling a region ---

  lemma {:induction false} Above(frames: set<Frame>) returns (b: Frame)
    ensures forall f :: f in frames ==> f < b
  {
    if frames == {} {
      b := 0;
    } else {
      var f :| f in frames;
      var rest := frames - {f};
      b := Above(rest);
      assert forall g :: g in frames ==> g == f || g in rest;
      b := if b <= f then f + 1 else b;
    }
  }

  lemma UnusedFrames(t: Tables, n: nat) returns (frames: seq<Frame>)
    ensures |frames| == n && Unused(t, frames)
  {
    var b := Above(t.Keys);
    frames := seq(n, i requires i >= 0 => b + i);
  }

  /** Any absent pages can be mapped, one by one; frame 0 serves for all of them. */
  lemma {:induction false} FillPages(s: Space, c: Frame, v: nat, n: nat, num: nat)
    returns (ops: seq<Op>, s': Space, frames: seq<Frame>)
    requires PageTables.Valid(s) && IsContext(s, c) && n <= num < 0x10_0000_0000 && AbsentRun(s.tables, c, v, num)
    ensures FilledBy(s, ops, s', c, v, frames) && |frames| == n
  {
    if n == 0 {
      ops, s', frames := [], s, [];
    } else {
      var s1;
      ops, s1, frames := FillPages(s, c, v, n - 1, num);
      StillAbsent(s, s1, c, v, frames, num);
      var op;
      op, s' := FillPage(s1, c, v, n - 1);
      FilledNext(s, ops, s1, c, v, frames, op, s');
      ops, frames := ops + [op], frames + [0];
    }
  }

  /** The operations mapped the pages from `v` on to the given frames, and nothing else. */
  ghost predicate FilledBy(s: Space, ops: seq<Op>, s': Space, c: Frame, v: nat, frames: seq<Frame>) {
    && Ran(s, ops, s') && MapsRun(ops, c, v, frames)
    && PageTables.Valid(s') && IsContext(s', c) && WritesRun(s, s', c, v, frames)
  }

  lemma FilledNext(s: Space, ops: seq<Op>, s1: Space, c: Frame, v: nat, frames: seq<Frame>, op: Op, s': Space)
    requires FilledBy(s, ops, s1, c, v, frames) && |frames| < 0x10_0000_0000
    requires CanDo(s1, op) && s' == After(s1, op) && MapsPage(op, c, v, |frames|, 0)
    requires PageTables.Valid(s') && IsContext(s', c)
    requires UpdatesPage(s1, s', c, PageAt(v, |frames|), Small(FrameLeaf(0)))
    ensures FilledBy(s, ops + [op], s', c, v, frames + [0])
  {
    RunAndOne(s, ops, s1, op);
    assert MapsRun(ops + [op], c, v, frames + [0]) by { MapsOneMore(ops, c, v, frames, op, 0); }
    ExtendRun(s, s1, s', c, v, frames, 0);
  }

  lemma MapsOneMore(ops: seq<Op>, c: Frame, v: nat, frames: seq<Frame>, op: Op, f: Frame)
    requires MapsRun(ops, c, v, frames) && MapsPage(op, c, v, |frames|, f)
    ensures MapsRun(ops + [op], c, v, frames + [f])
  {
  }

  lemma FillPage(s: Space, c: Frame, v: nat, i: nat) returns (op: Op, s': Space)
    requires PageTables.Valid(s) && IsContext(s, c) && NoHugeOnPath(s.tables, c, 4, Wrapped(PageAt(v, i)))
    ensures CanDo(s, op) && s' == After(s, op) && MapsPage(op, c, v, i, 0)
    ensures PageTables.Valid(s') && IsContext(s', c) && UpdatesPage(s, s', c, PageAt(v, i), Small(FrameLeaf(0)))
  {
    var page := Wrapped(PageAt(v, i));
    var frames := UnusedFrames(s.tables, MissingTables(s.tables, c, 4, page));
    op := Map(c, page, FrameLeaf(0), frames);
    s' := After(s, op);
    AfterLaw(s, op);
    UpdatesWrapped(s, s', c, PageAt(v, i), Small(FrameLeaf(0)));
  }

  /** What a context looks like once `j` pages of a region are mapped and the next is not. */
  ghost predicate OnlyLastLeft(t: Tables, c: Frame, start: nat, j: nat) {
    && (forall v :: start <= v < PageAt(start, j) ==> !Lookup(t, c, v).Absent?)
    && Lookup(t, c, PageAt(start, j)).Absent? && Lookup(t, c, Wrapped(PageAt(start, j + 1))).Absent?
  }

  lemma PageOf(start: nat, v: nat, j: nat) returns (i: nat)
    requires start % 0x1000 == 0 && start <= v < PageAt(start, j)
    ensures i < j && PageNumber(v) == PageNumber(PageAt(start, i))
  {
    i := v / 0x1000 - start / 0x1000;
    assert PageAt(start, i) / 0x1000 == v / 0x1000;
  }

  lemma Filled(s: Space, s': Space, c: Frame, start: nat, j: nat, frames: seq<Frame>)
    requires Shaped(s) && Shaped(s') && IsContext(s, c) && start % 0x1000 == 0 && |frames| == j
    requires WritesRun(s, s', c, start, frames)
    ensures forall v :: start <= v < PageAt(start, j) ==> !Lookup(s'.tables, c, v).Absent?
  {
    forall v | start <= v < PageAt(start, j)
      ensures !Lookup(s'.tables, c, v).Absent?
    {
      var i := PageOf(start, v, j);
      assert Affects(c, PageAt(start, i), c, v);
    }
  }

  lemma FilledRegion(s: Space, s': Space, c: Frame, start: nat, j: nat, frames: seq<Frame>)
    requires Shaped(s) && Shaped(s') && IsContext(s, c) && start % 0x1000 == 0 && |frames| == j < 0x7_FFFF_FFFF
    requires AbsentRun(s.tables, c, start, j + 2) && WritesRun(s, s', c, start, frames)
    ensures OnlyLastLeft(s'.tables, c, start, j)
  {
    Filled(s, s', c, start, j, frames);
    NotFilled(s, s', c, start, j, frames, j);
    NotFilled(s, s', c, start, j, frames, j + 1);
    WrappedLookup(s'.tables, c, PageAt(start, j + 1));
  }

  lemma NotFilled(s: Space, s': Space, c: Frame, start: nat, j: nat, frames: seq<Frame>, i: nat)
    requires Shaped(s) && Shaped(s') && IsContext(s, c) && |frames| == j <= i <= j + 1 && j < 0x7_FFFF_FFFF
    requires AbsentRun(s.tables, c, start, j + 2) && WritesRun(s, s', c, start, frames)
    ensures Lookup(s'.tables, c, PageAt(start, i)).Absent?
  {
    WrappedLookup(s.tables, c, PageAt(start, i));
    assert Lookup(s.tables, c, Wrapped(PageAt(start, i))).Absent?;
    forall h | 0 <= h < j
      ensures !Affects(c, PageAt(start, h), c, PageAt(start, i))
    {
      DistinctPages(start, h, i);
    }
  }

  /** A search with a place to stop stops somewhere first. */
  lemma {:induction false} StopsFirst(spots: iset<nat>, start: nat, end: nat, from: nat, j: nat) returns (k: nat)
    requires from <= j && Stops(spots, start, end, j)
    requires forall i: nat :: i < from ==> !Stops(spots, start, end, i)
    ensures FirstStop(spots, start, end, k)
    decreases j - from
  {
    if Stops(spots, start, end, from) { k := from; } else { k := StopsFirst(spots, start, end, from + 1, j); }
  }

  // --- Leaving a region ---

  /** From any state with an unmapped region, there is a run after which two pages wanted in it leave it. */
  lemma RegionOverflows(s: Space, c: Frame, start: nat, end: nat, j: nat)
    returns (ops: seq<Op>, s': Space, frames: seq<Frame>, k: nat)
    requires PageTables.Valid(s) && IsContext(s, c) && AbsentRun(s.tables, c, start, j + 2)
    requires start % 0x1000 == 0 && j < 0x7_FFFF_FFFF
    requires PageAt(start, j) <= end < PageAt(start, j + 1) && end < 0x1_0000_0000_0000_0000
    ensures Ran(s, ops, s') && MapsRun(ops, c, start, frames) && |frames| == j
    ensures PageTables.Valid(s') && IsContext(s', c) && s'.kernel == s.kernel
    ensures FirstStop(Spots(s'.tables, c, 2), start, end, k)
    ensures Outcome(start, end, k) == PageAt(start, j) && !InRegion(PageAt(start, j), start, end, 2)
  {
    ops, s', frames := FillPages(s, c, start, j, j + 2);
    FilledRegion(s, s', c, start, j, frames);
    assert PageAt(PageAt(start, j), 1) == PageAt(start, j + 1);
    TwoPages(s'.tables, c, PageAt(start, j));
    NotWrapped(PageAt(start, j));
    k := StopsFirst(Spots(s'.tables, c, 2), start, end, 0, j);
    LastPageLeaves(s'.tables, c, start, end, j, k);
  }

  /** The user's MMIO region: the second page is the first of the ioperm region behind it. */
  lemma MmioExample(s: Space, c: Frame, start: nat, end: nat, j: nat)
    returns (ops: seq<Op>, s': Space, frames: seq<Frame>, k: nat)
    requires start == 0x7F00_0000_0000 && end == 0x7FFF_FFFF_DFFF && j == 0xFFF_FFFD
    requires PageTables.Valid(s) && IsContext(s, c) && AbsentRun(s.tables, c, start, j + 2)
    ensures Ran(s, ops, s') && IsContext(s', c)
    ensures FirstStop(Spots(s'.tables, c, 2), start, end, k) && EndsBeforeWrap(start, end)
    ensures Outcome(start, end, k) == 0x7FFF_FFFF_D000 && !InRegion(Outcome(start, end, k), start, end, 2)
  {
    ops, s', frames, k := RegionOverflows(s, c, start, end, j);
  }

  /**
    The kernel heap: the second page is page 0, so that afterwards the kernel
    maps a page of the user half, and a copy of its table is no context of its own.
   */
  lemma HeapExample(s: Space, start: nat, end: nat, j: nat)
    returns (ops: seq<Op>, s': Space, frames: seq<Frame>, k: nat)
    requires start == 0xFFFF_FFFF_9000_0000 && end == 0xFFFF_FFFF_FFFF_FFFF && j == 0x6_FFFF
    requires PageTables.Valid(s) && NoUserHalf(s.tables, s.kernel) && AbsentRun(s.tables, s.kernel, start, j + 2)
    ensures Ran(s, ops, s') && NoUserHalf(s'.tables, s'.kernel)
    ensures FirstStop(Spots(s'.tables, s'.kernel, 2), start, end, k) && Outcome(start, end, k) == 0xFFFF_FFFF_FFFF_F000
    ensures forall ops2, s2, got ::
      Ran(s', ops2, s2) && MapsRun(ops2, s'.kernel, Outcome(start, end, k), got) && |got| == 2 ==>
        !NoUserHalf(s2.tables, s2.kernel)
  {
    ops, s', frames, k := RegionOverflows(s, s.kernel, start, end, j);
    HeapStaysClean(s, ops, s', start, frames, j);
    forall ops2, s2, got | Ran(s', ops2, s2) && MapsRun(ops2, s'.kernel, Outcome(start, end, k), got) && |got| == 2
      ensures !NoUserHalf(s2.tables, s2.kernel)
    {
      LastHeapPage(s', ops2, s2, Outcome(start, end, k), got);
    }
  }

  lemma HeapStaysClean(s: Space, ops: seq<Op>, s': Space, start: nat, frames: seq<Frame>, j: nat)
    requires start == 0xFFFF_FFFF_9000_0000 && j == 0x6_FFFF && |frames| == j
    requires Ran(s, ops, s') && MapsRun(ops, s.kernel, start, frames) && NoUserHalf(s.tables, s.kernel)
    ensures NoUserHalf(s'.tables, s.kernel)
  {
    MapsRunUserHalfIff(s, ops, s', s.kernel, start, frames);
    StaysInKernelHalfIff(start, j);
  }

  lemma LastHeapPage(s: Space, ops: seq<Op>, s': Space, v: nat, frames: seq<Frame>)
    requires v == 0xFFFF_FFFF_FFFF_F000 && |frames| == 2 && NoUserHalf(s.tables, s.kernel)
    requires Ran(s, ops, s') && MapsRun(ops, s.kernel, v, frames)
    ensures !NoUserHalf(s'.tables, s'.kernel)
  {
    MapsRunUserHalfIff(s, ops, s', s.kernel, v, frames);
    StaysInKernelHalfIff(v, 2);
    KernelKept(s, ops);
  }
}
