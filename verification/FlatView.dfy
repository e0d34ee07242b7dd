/**
  The flat view of the page tables: what it means to update one page, a run of
  pages or the set of contexts, with no mention of the tree.
 */
module FlatView {
  import opened Basics
  import opened PageTables

  const USER_END: nat := 0x8000_0000_0000
  const BASE_LIMIT: nat := 0x100_0000_0000
  const DIRECT_MAPPING_START: nat := 0xFFFF_8000_0000_0000
  const DIRECT_MAPPING_END: nat := 0xFFFF_83FF_FFFF_FFFF

  type Contents = seq<int>

  /** The `i`-th page after address `v`. */
  function PageAt(v: nat, i: nat): nat {
    v + i * 0x1000
  }

  /** Addresses are 64-bit. */
  function Wrapped(v: nat): nat {
    v % 0x1_0000_0000_0000_0000
  }

  /** The leaf that a mapping writes: the frame number is a 40-bit field. */
  function Leaf(physical: nat, pat: nat): Entry {
    Entry(true, true, true, pat % 2 == 1, pat / 2 % 2 == 1, pat / 4 % 2 == 1, physical / 0x1000 % BASE_LIMIT)
  }

  /** The leaf for a whole frame with default caching. */
  function FrameLeaf(f: Frame): Entry {
    Entry(true, true, true, false, false, false, f)
  }

  lemma FrameLeafAddress(f: Frame, v: nat)
    requires f < BASE_LIMIT
    ensures Leaf(f * 0x1000, 0) == FrameLeaf(f)
    ensures PhysicalAddress(Small(FrameLeaf(f)), v) / 0x1000 == f
  {
    assert f * 0x1000 / 0x1000 == f;
    assert f * 0x1000 % 0x1_0000_0000_0000_0000 == f * 0x1000;
  }

  /** No frame that is still free is mapped by a 4 KiB leaf. */
  ghost predicate FreeUnmapped(s: Space, free: set<Frame>)
    requires Shaped(s)
  {
    forall f, i :: f in s.tables && Level(s.owner[f]) == 1 && 0 <= i < ENTRIES && s.tables[f][i].present ==>
      s.tables[f][i].base !in free
  }

  /** What adding an empty table below `table` on the way to `v` establishes and keeps. */
  lemma AddedTable(s: Space, free: set<Frame>, table: Frame, level: nat, v: nat, e: Entry)
    requires PageTables.Valid(s) && FreeUnmapped(s, free)
    requires 2 <= level <= 4 && table in s.tables && Level(s.owner[table]) == level
    requires CanLink(s, table, Index(level, v), e)
    ensures var s' := LinkTable(s, table, Index(level, v), e);
      && PageTables.Valid(s') && FreeUnmapped(s', free)
      && Link(s'.tables, table, level, v, e.base) && e.base in s'.tables && Level(s'.owner[e.base]) == level - 1
      && NoHugeOnPath(s'.tables, e.base, level - 1, v)
      && MissingTables(s'.tables, e.base, level - 1, v) == level - 2
      && KeepsView(s, s') && KeepsLinks(s, s')
  {
    var s' := LinkTable(s, table, Index(level, v), e);
    LinkTableValid(s, table, Index(level, v), e);
    LinkTableKeepsLookups(s, table, Index(level, v), e);
    assert Get(s'.tables, e.base, Index(level - 1, v)) == ZERO_ENTRY;
    assert FreeUnmapped(s', free);
  }

  /** The address a walk's result stands for. A missing page and physical address zero read alike. */
  function PhysicalAddress(hit: Hit, v: nat): nat {
    match hit
    case Absent => 0
    case Small(e) => e.base * 0x1000 % 0x1_0000_0000_0000_0000 + v % 0x1000
    case Huge(level, e) =>
      if level == 3 then e.base * 0x4000_0000 % 0x1_0000_0000_0000_0000 + v % 0x4000_0000
      else e.base * 0x20_0000 % 0x1_0000_0000_0000_0000 + v % 0x20_0000
  }

  lemma AbsentPageUnchanged(s: Space, c: Frame, v: nat)
    requires PageTables.Valid(s) && IsContext(s, c) && Lookup(s.tables, c, v) == Absent
    ensures UpdatesPage(s, s, c, v, Absent)
  {
    forall d, w | IsContext(s, d) && Affects(c, v, d, w)
      ensures Lookup(s.tables, d, w) == Absent
    {
      SameIndicesIffSamePage(v, w);
      SameIndicesSameLeafTable(s.tables, c, 4, v, w);
      if c != d { KernelHalfShared(s, c, d, w); }
    }
  }

  /** Pages `v`, `v + 0x1000`, ... are absent; addresses wrap at 2^64 as the source's do. */
  ghost predicate AbsentRun(t: Tables, c: Frame, v: nat, num: nat) {
    forall i :: 0 <= i < num ==> Lookup(t, c, Wrapped(PageAt(v, i))).Absent?
  }

  /** Paging looks at the lower 48 bits only, so wrapping an address makes no difference to it. */
  lemma WrappedPage(v: nat)
    ensures PageNumber(Wrapped(v)) == PageNumber(v)
    ensures InKernelHalf(Wrapped(v)) == InKernelHalf(v)
  {
    WrappedPageNumber(v);
    SameIndicesIffSamePage(v, Wrapped(v));
  }

  lemma WrappedPageNumber(v: nat)
    ensures PageNumber(Wrapped(v)) == PageNumber(v)
  {
    var q, r := v / 0x1_0000_0000_0000_0000, Wrapped(v);
    assert v / 0x1000 == 0x10_0000_0000_0000 * q + r / 0x1000;
    MultipleVanishes(q, r / 0x1000);
  }

  lemma MultipleVanishes(q: nat, p: nat)
    ensures (0x10_0000_0000_0000 * q + p) % 0x10_0000_0000 == p % 0x10_0000_0000
  {
    RemainderUnique(0x10_0000_0000_0000 * q + p, 0x10_0000_0000, 0x1_0000 * q + p / 0x10_0000_0000, p % 0x10_0000_0000);
  }

  lemma WrappedLookup(t: Tables, c: Frame, v: nat)
    ensures Lookup(t, c, Wrapped(v)) == Lookup(t, c, v)
  {
    WrappedPage(v);
    SameIndicesIffSamePage(v, Wrapped(v));
    SameIndicesSameLeafTable(t, c, 4, Wrapped(v), v);
  }

  /** Pages `v`, `v + 0x1000`, ... read as the given frames, and no other page changed. */
  ghost predicate WritesRun(s: Space, s': Space, c: Frame, v: nat, frames: seq<Frame>)
    requires Shaped(s) && Shaped(s')
  {
    && s'.kernel == s.kernel
    && (forall d :: IsContext(s', d) <==> IsContext(s, d))
    && (forall d, w, i :: IsContext(s, d) && 0 <= i < |frames| && Affects(c, PageAt(v, i), d, w) ==>
          Lookup(s'.tables, d, w) == Small(FrameLeaf(frames[i])))
    && (forall d, w :: IsContext(s, d) && (forall i :: 0 <= i < |frames| ==> !Affects(c, PageAt(v, i), d, w)) ==>
          Lookup(s'.tables, d, w) == Lookup(s.tables, d, w))
  }

  lemma DistinctPages(v: nat, i: nat, j: nat)
    requires i < j < 0x10_0000_0000
    ensures PageNumber(PageAt(v, i)) != PageNumber(PageAt(v, j))
  {
    var n := v / 0x1000;
    assert (PageAt(v, i)) / 0x1000 == n + i;
    assert (PageAt(v, j)) / 0x1000 == n + j;
  }

  lemma ExtendRun(s: Space, s1: Space, s2: Space, c: Frame, v: nat, frames: seq<Frame>, f: Frame)
    requires Shaped(s) && Shaped(s1) && Shaped(s2)
    requires |frames| < 0x10_0000_0000
    requires WritesRun(s, s1, c, v, frames)
    requires UpdatesPage(s1, s2, c, PageAt(v, |frames|), Small(FrameLeaf(f)))
    ensures WritesRun(s, s2, c, v, frames + [f])
  {
    var more := frames + [f];
    forall d, w, i | IsContext(s, d) && 0 <= i < |more| && Affects(c, PageAt(v, i), d, w)
      ensures Lookup(s2.tables, d, w) == Small(FrameLeaf(more[i]))
    {
      if i < |frames| { DistinctPages(v, i, |frames|); }
    }
    forall d, w | IsContext(s, d) && forall i :: 0 <= i < |more| ==> !Affects(c, PageAt(v, i), d, w)
      ensures Lookup(s2.tables, d, w) == Lookup(s.tables, d, w)
    {
      assert !Affects(c, PageAt(v, |frames|), d, w);
      assert forall i :: 0 <= i < |frames| ==> !Affects(c, PageAt(v, i), d, w);
    }
  }

  /** A run of pages was mapped to frames that were free, are no longer, and hold no tables; no two are the same. */
  ghost predicate FreshRun(s: Space, free: set<Frame>, s': Space, free': set<Frame>, c: Frame, v: nat,
                           frames: seq<Frame>)
  {
    && Shaped(s) && Shaped(s') && free' <= free && WritesRun(s, s', c, v, frames)
    && (forall i :: 0 <= i < |frames| ==> frames[i] in free && frames[i] !in free' && frames[i] !in s'.tables)
    && (forall i, j :: 0 <= i < j < |frames| ==> frames[i] != frames[j])
  }

  lemma ExtendFreshRun(s: Space, free: set<Frame>, s1: Space, free1: set<Frame>, s2: Space, free2: set<Frame>,
                       c: Frame, v: nat, frames: seq<Frame>, f: Frame)
    requires FreshRun(s, free, s1, free1, c, v, frames) && Shaped(s2) && |frames| < 0x10_0000_0000
    requires UpdatesPage(s1, s2, c, PageAt(v, |frames|), Small(FrameLeaf(f)))
    requires f in free1 && f !in free2 && f !in s2.tables && TablesFrom(s1.tables, free1, s2.tables, free2)
    ensures FreshRun(s, free, s2, free2, c, v, frames + [f])
  {
    ExtendRun(s, s1, s2, c, v, frames, f);
  }

  lemma UpperAddress(v: nat)
    ensures DIRECT_MAPPING_START <= v < 0x1_0000_0000_0000_0000 ==> InKernelHalf(v)
    ensures v < USER_END ==> !InKernelHalf(v)
  {
  }

  lemma AtMostThreeMissing(t: Tables, g: Frame, level: nat, v: nat)
    requires 1 <= level <= 4
    ensures MissingTables(t, g, level, v) <= level - 1
    decreases level
  {
  }

  /** The next page of a run that was absent has not been touched by the pages before it. */
  lemma StillAbsent(s: Space, s': Space, c: Frame, v: nat, frames: seq<Frame>, num: nat)
    requires PageTables.Valid(s) && PageTables.Valid(s') && IsContext(s, c)
    requires |frames| < num < 0x10_0000_0000
    requires AbsentRun(s.tables, c, v, num) && WritesRun(s, s', c, v, frames)
    ensures NoHugeOnPath(s'.tables, c, 4, Wrapped(PageAt(v, |frames|)))
  {
    var n := |frames|;
    var w := PageAt(v, n);
    WrappedLookup(s.tables, c, w);
    forall i | 0 <= i < n
      ensures !Affects(c, PageAt(v, i), c, w)
    {
      DistinctPages(v, i, n);
    }
    WrappedLookup(s'.tables, c, w);
    AbsentNoHuge(s'.tables, c, 4, Wrapped(w));
  }

  /** The same contexts, seeing the same pages. */
  ghost predicate KeepsView(s: Space, s': Space)
    requires Shaped(s) && Shaped(s')
  {
    && s'.kernel == s.kernel
    && (forall d :: IsContext(s', d) <==> IsContext(s, d))
    && (forall d, w :: IsContext(s, d) ==> Lookup(s'.tables, d, w) == Lookup(s.tables, d, w))
  }

  /** No table moved, and no path lost. */
  ghost predicate KeepsLinks(s: Space, s': Space) {
    && (forall f :: f in s.owner ==> f in s'.owner && s'.owner[f] == s.owner[f])
    && (forall f, level, v, next ::
          2 <= level <= 4 && f in s.owner && Level(s.owner[f]) == level && Link(s.tables, f, level, v, next) ==>
            Link(s'.tables, f, level, v, next))
  }

  lemma KeepsLinksTransitive(s: Space, s1: Space, s2: Space)
    requires KeepsLinks(s, s1) && KeepsLinks(s1, s2)
    ensures KeepsLinks(s, s2)
  {
  }

  lemma SetLeafKeepsLinks(s: Space, pt: Frame, i: nat, e: Entry)
    requires Shaped(s) && pt in s.tables && Level(s.owner[pt]) == 1 && i < ENTRIES
    ensures KeepsLinks(s, SetEntry(s, pt, i, e))
  {
  }

  lemma AddContextKeepsLinks(s: Space, f: Frame)
    requires Shaped(s) && f !in s.tables
    ensures KeepsLinks(s, AddContext(s, f))
  {
  }

  /** Every new table lives in a frame that was free and no longer is. */
  ghost predicate TablesFrom(t: Tables, free: set<Frame>, t': Tables, free': set<Frame>) {
    free' <= free && forall f :: f in t' && f !in t ==> f in free && f !in free'
  }

  /** Empty tables were added; no walk gives a different answer. */
  ghost predicate Grows(s: Space, free: set<Frame>, s': Space, free': set<Frame>) {
    && Shaped(s) && Shaped(s')
    && KeepsView(s, s') && KeepsLinks(s, s') && TablesFrom(s.tables, free, s'.tables, free')
  }

  lemma GrowsTransitive(s: Space, free: set<Frame>, s1: Space, free1: set<Frame>, s2: Space, free2: set<Frame>)
    requires Grows(s, free, s1, free1) && Grows(s1, free1, s2, free2)
    ensures Grows(s, free, s2, free2)
  {
  }

  /** The same contexts; one page of one context (of all, in the kernel half) now reads as `hit`, no other changed. */
  ghost predicate UpdatesPage(s: Space, s': Space, c: Frame, v: nat, hit: Hit)
    requires Shaped(s) && Shaped(s')
  {
    && s'.kernel == s.kernel
    && (forall d :: IsContext(s', d) <==> IsContext(s, d))
    && (forall d, w :: IsContext(s, d) ==>
          Lookup(s'.tables, d, w) == (if Affects(c, v, d, w) then hit else Lookup(s.tables, d, w)))
  }

  /** One more context, which sees what the kernel sees; one more page of the kernel half, which holds its table. */
  ghost predicate CreatesContext(s: Space, s': Space, v: nat, c: Frame)
    requires Shaped(s) && Shaped(s')
  {
    && s'.kernel == s.kernel && InKernelHalf(v)
    && !IsContext(s, c)
    && (forall d :: IsContext(s', d) <==> IsContext(s, d) || d == c)
    && (forall d, w :: IsContext(s, d) ==>
          Lookup(s'.tables, d, w)
          == (if Affects(s.kernel, v, d, w) then Small(FrameLeaf(c)) else Lookup(s.tables, d, w)))
    && (forall w :: Lookup(s'.tables, c, w) == Lookup(s'.tables, s.kernel, w))
  }

  lemma UpdatesWrapped(s: Space, s': Space, c: Frame, v: nat, hit: Hit)
    requires Shaped(s) && Shaped(s') && UpdatesPage(s, s', c, Wrapped(v), hit)
    ensures UpdatesPage(s, s', c, v, hit)
  {
    WrappedPage(v);
  }

  lemma AddContextView(s: Space, f: Frame)
    requires PageTables.Valid(s) && f !in s.tables && NoUserHalf(s.tables, s.kernel)
    ensures PageTables.Valid(AddContext(s, f))
    ensures forall d :: IsContext(AddContext(s, f), d) <==> IsContext(s, d) || d == f
    ensures forall d, w :: IsContext(s, d) ==> Lookup(AddContext(s, f).tables, d, w) == Lookup(s.tables, d, w)
    ensures forall w :: Lookup(AddContext(s, f).tables, f, w) == Lookup(s.tables, s.kernel, w)
  {
    AddContextValid(s, f);
    forall d, w | IsContext(s, d)
      ensures Lookup(AddContext(s, f).tables, d, w) == Lookup(s.tables, d, w)
    {
      AddContextLookup(s, f, d, w);
    }
    forall w
      ensures Lookup(AddContext(s, f).tables, f, w) == Lookup(s.tables, s.kernel, w)
    {
      AddContextLookup(s, f, s.kernel, w);
    }
  }

  lemma NewContextView(s: Space, s1: Space, v: nat, f: Frame)
    requires PageTables.Valid(s) && PageTables.Valid(s1)
    requires UpdatesPage(s, s1, s.kernel, v, Small(FrameLeaf(f))) && InKernelHalf(v) && f !in s1.tables
    requires f !in s.tables
    requires NoUserHalf(s1.tables, s1.kernel)
    ensures PageTables.Valid(AddContext(s1, f))
    ensures CreatesContext(s, AddContext(s1, f), v, f)
    ensures Lookup(s1.tables, s.kernel, v) == Small(FrameLeaf(f))
  {
    AddContextView(s1, f);
    assert IsContext(s, s.kernel) && Affects(s.kernel, v, s.kernel, v);
  }

  lemma LeafWriteUpdatesPage(s: Space, c: Frame, v: nat, pt: Frame, e: Entry)
    requires PageTables.Valid(s) && IsContext(s, c) && LeafTable(s.tables, c, 4, v) == At(pt)
    ensures pt in s.tables && Level(s.owner[pt]) == 1
    ensures PageTables.Valid(SetEntry(s, pt, Index(1, v), e))
    ensures UpdatesPage(s, SetEntry(s, pt, Index(1, v), e), c, v, if e.present then Small(e) else Absent)
  {
    LeafTableOwner(s, c, 4, v);
    SetLeafValid(s, pt, Index(1, v), e);
    forall d, w | IsContext(s, d)
      ensures Lookup(SetEntry(s, pt, Index(1, v), e).tables, d, w)
           == if Affects(c, v, d, w) then (if e.present then Small(e) else Absent) else Lookup(s.tables, d, w)
    {
      SetLeafLookup(s, c, v, pt, e, d, w);
    }
  }

  lemma MappedNotFree(s: Space, free: set<Frame>, c: Frame, v: nat)
    requires PageTables.Valid(s) && IsContext(s, c) && FreeUnmapped(s, free)
    ensures forall e :: Lookup(s.tables, c, v) == Small(e) ==> e.base !in free
  {
    SmallHitInLeafTable(s, c, 4, v);
  }

  lemma {:induction false} SmallHitInLeafTable(s: Space, g: Frame, level: nat, v: nat)
    requires PageTables.Valid(s) && g in s.tables && 1 <= level == Level(s.owner[g])
    ensures forall e :: Walk(s.tables, g, level, v) == Small(e) ==>
              exists pt :: pt in s.tables && Level(s.owner[pt]) == 1 && e == s.tables[pt][Index(1, v)] && e.present
    decreases level
  {
    var e := Get(s.tables, g, Index(level, v));
    if Interior(level, e) { SmallHitInLeafTable(s, e.base, level - 1, v); }
  }
}
