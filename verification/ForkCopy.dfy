/**
  Copying a range of one context into another, page by page: what holds once the
  pages below some address have been copied, and why one more page keeps it.
 */
module ForkCopy {
  import opened PageTables
  import opened FlatView
  import opened AddressSpaces
  import opened AddressSpaceRuns

  /** Whether the page of `w` starts in the half-open range. */
  predicate InRange(from: nat, to: nat, w: nat) {
    from <= PageNumber(w) * 0x1000 < to
  }

  /** Every table above the range exists in `src`, none of it is mapped by huge pages, and `dst` maps nothing in it. */
  ghost predicate Copyable(t: Tables, dst: Frame, src: Frame, from: nat, to: nat) {
    forall w :: InRange(from, to, w) ==> LeafTable(t, src, 4, w).At? && Lookup(t, dst, w).Absent?
  }

  datatype World = World(s: Space, free: set<Frame>, data: map<Frame, Contents>)

  function Read(data: map<Frame, Contents>, f: Frame): Contents {
    if f in data then data[f] else []
  }

  /** The same flags over a frame that was free and now holds the same contents, or nothing for nothing. */
  ghost predicate CopyOf(w0: World, w1: World, original: Hit, copy: Hit) {
    match original
    case Absent => copy.Absent?
    case Small(e) =>
      && copy.Small? && copy.e == e.(base := copy.e.base)
      && copy.e.base in w0.free && copy.e.base !in w1.free && copy.e.base !in w1.s.tables
      && Read(w1.data, copy.e.base) == Read(w0.data, e.base)
    case Huge(_, _) => false
  }

  ghost predicate CopiesPages(w0: World, w1: World, dst: Frame, src: Frame, from: nat, to: nat) {
    forall w :: InRange(from, to, w) ==> CopyOf(w0, w1, Lookup(w0.s.tables, src, w), Lookup(w1.s.tables, dst, w))
  }

  ghost predicate DistinctFrames(t: Tables, dst: Frame, from: nat, to: nat) {
    forall v, w ::
      InRange(from, to, v) && InRange(from, to, w) && PageNumber(v) != PageNumber(w)
      && Lookup(t, dst, v).Small? && Lookup(t, dst, w).Small? ==>
        Lookup(t, dst, v).e.base != Lookup(t, dst, w).e.base
  }

  /** Every other page, of every context, and every frame in use stay as they were. */
  ghost predicate NothingElse(w0: World, w1: World, dst: Frame, from: nat, to: nat)
    requires Shaped(w0.s) && Shaped(w1.s)
  {
    && w1.s.kernel == w0.s.kernel && w1.free <= w0.free
    && (forall d :: IsContext(w1.s, d) <==> IsContext(w0.s, d))
    && (forall d, w :: IsContext(w0.s, d) && !(d == dst && InRange(from, to, w)) ==>
          Lookup(w1.s.tables, d, w) == Lookup(w0.s.tables, d, w))
    && (forall f :: f !in w0.free ==> Read(w1.data, f) == Read(w0.data, f))
  }

  ghost predicate Copied(w0: World, w1: World, dst: Frame, src: Frame, from: nat, to: nat) {
    && Shaped(w0.s) && Shaped(w1.s)
    && CopiesPages(w0, w1, dst, src, from, to)
    && DistinctFrames(w1.s.tables, dst, from, to)
    && NothingElse(w0, w1, dst, from, to)
  }

  /** Adding empty tables keeps the copy made so far. */
  lemma CopiedEnsure(w0: World, w1: World, w2: World, dst: Frame, src: Frame, from: nat, to: nat)
    requires Copied(w0, w1, dst, src, from, to) && IsContext(w0.s, dst)
    requires Grows(w1.s, w1.free, w2.s, w2.free)
    requires w2.data == w1.data
    ensures Copied(w0, w2, dst, src, from, to)
  {
  }

  lemma PageStart(i: nat, w: nat)
    requires i % 0x1000 == 0 && i < USER_END
    ensures PageNumber(i) * 0x1000 == i
    ensures PageNumber(w) * 0x1000 == i <==> PageNumber(w) == PageNumber(i)
    ensures InRange(i, i + 0x1000, w) <==> PageNumber(w) == PageNumber(i)
  {
  }

  /** A page that is absent in both contexts needs no work. */
  lemma CopiedAbsentPage(w0: World, w1: World, dst: Frame, src: Frame, from: nat, i: nat)
    requires Copied(w0, w1, dst, src, from, i) && IsContext(w0.s, dst)
    requires from <= i && i % 0x1000 == 0 && i < USER_END
    requires Lookup(w0.s.tables, src, i).Absent? && Lookup(w0.s.tables, dst, i).Absent?
    ensures Copied(w0, w1, dst, src, from, i + 0x1000)
  {
    forall w | InRange(from, i + 0x1000, w) && !InRange(from, i, w)
      ensures Lookup(w0.s.tables, src, w).Absent? && Lookup(w1.s.tables, dst, w).Absent?
    {
      PageStart(i, w);
      SameIndicesIffSamePage(i, w);
      SameIndicesSameLeafTable(w0.s.tables, src, 4, i, w);
      SameIndicesSameLeafTable(w0.s.tables, dst, 4, i, w);
    }
  }

  /** The pages up to the next address are those before and the one at `i`. */
  ghost predicate OneMorePage(t: Tables, src: Frame, from: nat, i: nat, e: Entry) {
    forall w ::
      && (InRange(from, i + 0x1000, w) <==> InRange(from, i, w) || PageNumber(w) == PageNumber(i))
      && !(InRange(from, i, w) && PageNumber(w) == PageNumber(i))
      && (PageNumber(w) == PageNumber(i) ==> Lookup(t, src, w) == Small(e))
  }

  lemma NextPage(t: Tables, src: Frame, from: nat, i: nat, e: Entry)
    requires from <= i && i % 0x1000 == 0 && i < USER_END && Lookup(t, src, i) == Small(e)
    ensures OneMorePage(t, src, from, i, e) && !InKernelHalf(i)
  {
    UpperAddress(i);
    forall w
      ensures InRange(from, i + 0x1000, w) <==> InRange(from, i, w) || PageNumber(w) == PageNumber(i)
      ensures !(InRange(from, i, w) && PageNumber(w) == PageNumber(i))
      ensures PageNumber(w) == PageNumber(i) ==> Lookup(t, src, w) == Small(e)
    {
      PageStart(i, w);
      if PageNumber(w) == PageNumber(i) {
        SameIndicesIffSamePage(i, w);
        SameIndicesSameLeafTable(t, src, 4, i, w);
      }
    }
  }

  /** A page was mapped to the frame `f`, which was free, and its contents were copied. */
  ghost predicate OnePageCopied(w1: World, w2: World, dst: Frame, i: nat, e: Entry, f: Frame) {
    && Shaped(w1.s) && Shaped(w2.s) && UpdatesPage(w1.s, w2.s, dst, i, Small(e.(base := f)))
    && f in w1.free && w2.free == w1.free - {f} && f !in w1.s.tables && w2.s.tables.Keys == w1.s.tables.Keys
    && w2.data == w1.data[f := Read(w1.data, e.base)]
  }

  /** Copying one present page to a frame that was free extends the copy by that page. */
  lemma CopiedPage(w0: World, w1: World, w2: World, dst: Frame, src: Frame, from: nat, i: nat, e: Entry, f: Frame)
    requires Copied(w0, w1, dst, src, from, i) && IsContext(w0.s, dst)
    requires from <= i && i % 0x1000 == 0 && i < USER_END
    requires Lookup(w0.s.tables, src, i) == Small(e) && e.base !in w0.free
    requires OnePageCopied(w1, w2, dst, i, e, f)
    ensures Copied(w0, w2, dst, src, from, i + 0x1000)
  {
    NextPage(w0.s.tables, src, from, i, e);
    CopiesPagesStep(w0, w1, w2, dst, src, from, i, e, f);
    DistinctFramesStep(w0, w1, w2, dst, src, from, i, e, f);
    NothingElseStep(w0, w1, w2, dst, src, from, i, e, f);
  }

  lemma CopiesPagesStep(w0: World, w1: World, w2: World, dst: Frame, src: Frame, from: nat, i: nat, e: Entry, f: Frame)
    requires Copied(w0, w1, dst, src, from, i) && IsContext(w0.s, dst) && !InKernelHalf(i)
    requires OneMorePage(w0.s.tables, src, from, i, e) && e.base !in w0.free
    requires OnePageCopied(w1, w2, dst, i, e, f)
    ensures CopiesPages(w0, w2, dst, src, from, i + 0x1000)
  {
    forall w | InRange(from, i + 0x1000, w)
      ensures CopyOf(w0, w2, Lookup(w0.s.tables, src, w), Lookup(w2.s.tables, dst, w))
    {
      CopyOfStep(w0, w1, w2, dst, src, from, i, e, f, w);
    }
  }

  lemma CopyOfStep(w0: World, w1: World, w2: World, dst: Frame, src: Frame, from: nat, i: nat, e: Entry, f: Frame,
                   w: nat)
    requires Copied(w0, w1, dst, src, from, i) && IsContext(w0.s, dst) && !InKernelHalf(i)
    requires InRange(from, i, w) || (PageNumber(w) == PageNumber(i) && Lookup(w0.s.tables, src, w) == Small(e))
    requires !(InRange(from, i, w) && PageNumber(w) == PageNumber(i)) && e.base !in w0.free
    requires OnePageCopied(w1, w2, dst, i, e, f)
    ensures CopyOf(w0, w2, Lookup(w0.s.tables, src, w), Lookup(w2.s.tables, dst, w))
  {
    if PageNumber(w) != PageNumber(i) {
      assert CopyOf(w0, w1, Lookup(w0.s.tables, src, w), Lookup(w1.s.tables, dst, w));
    }
  }

  lemma DistinctFramesStep(w0: World, w1: World, w2: World, dst: Frame, src: Frame, from: nat, i: nat, e: Entry,
                           f: Frame)
    requires Copied(w0, w1, dst, src, from, i) && IsContext(w0.s, dst) && !InKernelHalf(i)
    requires OneMorePage(w0.s.tables, src, from, i, e) && OnePageCopied(w1, w2, dst, i, e, f)
    ensures DistinctFrames(w2.s.tables, dst, from, i + 0x1000)
  {
    forall v, w | InRange(from, i, v) && PageNumber(w) == PageNumber(i) && Lookup(w2.s.tables, dst, v).Small?
      ensures Lookup(w2.s.tables, dst, v).e.base != f == Lookup(w2.s.tables, dst, w).e.base
    {
      assert CopyOf(w0, w1, Lookup(w0.s.tables, src, v), Lookup(w1.s.tables, dst, v));
    }
  }

  lemma NothingElseStep(w0: World, w1: World, w2: World, dst: Frame, src: Frame, from: nat, i: nat, e: Entry, f: Frame)
    requires Copied(w0, w1, dst, src, from, i) && IsContext(w0.s, dst) && !InKernelHalf(i)
    requires OneMorePage(w0.s.tables, src, from, i, e) && OnePageCopied(w1, w2, dst, i, e, f)
    ensures NothingElse(w0, w2, dst, from, i + 0x1000)
  {
  }

  // --- The cached walk ---

  /** The tables of the last page visited, in both contexts, and the indices they were found at. */
  datatype Cache = Cache(srcPdp: Reached, srcPd: Reached, srcPt: Reached, dstPdp: Frame, dstPd: Frame, dstPt: Frame,
                         pml4: nat, pdp: nat, pd: nat)

  const NO_CACHE := Cache(Nowhere, Nowhere, Nowhere, 0, 0, 0, 0, 0, 0)

  predicate CacheFor(t: Tables, dst: Frame, src: Frame, c: Cache, v: nat) {
    && c.srcPdp.At? && c.srcPd.At? && c.srcPt.At?
    && c.pml4 == Index(4, v) && c.pdp == Index(3, v) && c.pd == Index(2, v)
    && OnPath(t, src, v, c.srcPdp.table, c.srcPd.table, c.srcPt.table)
    && OnPath(t, dst, v, c.dstPdp, c.dstPd, c.dstPt)
  }

  /** Stepping to the next page cannot change a higher index without changing every lower one. */
  lemma NextPageIndices(v: nat)
    ensures Index(2, v) == Index(2, v + 0x1000) ==> Index(3, v) == Index(3, v + 0x1000)
    ensures Index(3, v) == Index(3, v + 0x1000) ==> Index(4, v) == Index(4, v + 0x1000)
  {
    var n := v / 0x1000;
    assert (v + 0x1000) / 0x1000 == n + 1;
    ShiftsNest(v);
    ShiftsNest(v + 0x1000);
    StepDivides(n);
    var a, b := n / 512, (n + 1) / 512;
    StepMod(a, b);
    StepDivides2(a, b);
    StepMod(a / 512, b / 512);
  }

  lemma StepDivides(n: nat)
    ensures n / 512 <= (n + 1) / 512 <= n / 512 + 1
  {
  }

  lemma StepDivides2(a: nat, b: nat)
    requires a <= b <= a + 1
    ensures a / 512 <= b / 512 <= a / 512 + 1
  {
  }

  lemma StepMod(a: nat, b: nat)
    requires a <= b <= a + 1
    ensures a % 512 == b % 512 ==> a == b
  {
  }

  /** What the cache for one page says about the next: a matching index means the tables still apply. */
  lemma CachedLinks(t: Tables, dst: Frame, src: Frame, c: Cache, prev: nat, i: nat, sp: Frame, sd: Frame, st: Frame)
    requires i == prev + 0x1000 && CacheFor(t, dst, src, c, prev) && OnPath(t, src, i, sp, sd, st)
    ensures CachedFor(t, dst, c, i, sp, sd, st)
  {
    NextPageIndices(prev);
  }

  /** What an index that did not change says about the tables on record, level by level. */
  predicate CachedFor(t: Tables, dst: Frame, c: Cache, i: nat, sp: Frame, sd: Frame, st: Frame) {
    && (c.srcPdp.At? && Index(4, i) == c.pml4 ==> Link(t, dst, 4, i, c.dstPdp) && c.srcPdp == At(sp))
    && (c.srcPd.At? && Index(3, i) == c.pdp ==>
          c.srcPdp.At? && Index(4, i) == c.pml4 && Link(t, c.dstPdp, 3, i, c.dstPd) && c.srcPd == At(sd))
    && (c.srcPt.At? && Index(2, i) == c.pd ==>
          c.srcPd.At? && Index(3, i) == c.pdp && Link(t, c.dstPd, 2, i, c.dstPt) && c.srcPt == At(st))
  }

  lemma OnPathKept(s: Space, s': Space, c: Frame, v: nat, pdp: Frame, pd: Frame, pt: Frame)
    requires PageTables.Valid(s) && IsContext(s, c) && OnPath(s.tables, c, v, pdp, pd, pt) && KeepsLinks(s, s')
    ensures OnPath(s'.tables, c, v, pdp, pd, pt)
    ensures pdp in s.owner && pd in s.owner && pt in s.owner
    ensures Level(s.owner[pdp]) == 3 && Level(s.owner[pd]) == 2 && Level(s.owner[pt]) == 1
  {
    assert Interior(4, Get(s.tables, c, Index(4, v)));
    assert Interior(3, Get(s.tables, pdp, Index(3, v)));
    assert Interior(2, Get(s.tables, pd, Index(2, v)));
  }

  lemma OnPathLookup(t: Tables, c: Frame, v: nat, pdp: Frame, pd: Frame, pt: Frame)
    requires OnPath(t, c, v, pdp, pd, pt)
    ensures LeafTable(t, c, 4, v) == At(pt)
    ensures var e := Get(t, pt, Index(1, v)); Lookup(t, c, v) == if e.present then Small(e) else Absent
  {
    assert Walk(t, c, 4, v) == Walk(t, pdp, 3, v) == Walk(t, pd, 2, v) == Walk(t, pt, 1, v);
    OnPathLeafTable(t, c, v, pdp, pd, pt);
  }

  lemma PathTo(t: Tables, c: Frame, v: nat) returns (pdp: Frame, pd: Frame, pt: Frame)
    requires LeafTable(t, c, 4, v).At?
    ensures OnPath(t, c, v, pdp, pd, pt)
  {
    pdp := Get(t, c, Index(4, v)).base;
    pd := Get(t, pdp, Index(3, v)).base;
    pt := Get(t, pd, Index(2, v)).base;
    assert LeafTable(t, c, 4, v) == LeafTable(t, pdp, 3, v) == LeafTable(t, pd, 2, v) == LeafTable(t, pt, 1, v);
  }

  /** The way to a page that was there before some operations is there after them. */
  lemma PathAfter(s: Space, ops: seq<Op>, s': Space, c: Frame, v: nat) returns (pdp: Frame, pd: Frame, pt: Frame)
    requires Ran(s, ops, s') && IsContext(s, c) && LeafTable(s.tables, c, 4, v).At?
    ensures OnPath(s'.tables, c, v, pdp, pd, pt)
  {
    pdp, pd, pt := PathTo(s.tables, c, v);
    RunKeepsLinks(s, ops);
    OnPathKept(s, s', c, v, pdp, pd, pt);
  }

  /** The loop's last page may start below an end that is not page aligned. */
  lemma CopiedWholeRange(w0: World, w1: World, dst: Frame, src: Frame, from: nat, to: nat, i: nat, k: nat)
    requires Copied(w0, w1, dst, src, from, i) && i == PageAt(from, k) && from % 0x1000 == 0
    requires from <= to <= i && k <= (to - from + 0xFFF) / 0x1000
    ensures Copied(w0, w1, dst, src, from, to)
  {
    forall w
      ensures InRange(from, to, w) <==> InRange(from, i, w)
    {
    }
  }

  /** The loop's `k`-th address is the start of a page of the range, while it lies below the end. */
  lemma PageOfRange(t: Tables, dst: Frame, src: Frame, addr: nat, size: nat, k: nat, n: nat)
    requires Copyable(t, dst, src, addr, addr + size)
    requires addr % 0x1000 == 0 && PageAt(addr, k) < addr + size <= USER_END && addr + size <= PageAt(addr, n)
    ensures PageAt(addr, k) % 0x1000 == 0 && k < n
    ensures LeafTable(t, src, 4, PageAt(addr, k)).At? && Lookup(t, dst, PageAt(addr, k)).Absent?
  {
    PageStart(PageAt(addr, k), PageAt(addr, k));
  }

  /** The copy has come to page `i`, by these operations; the cache, if filled, is for the page before. */
  ghost predicate InProgress(w0: World, w1: World, dst: Frame, src: Frame, from: nat, to: nat, i: nat,
                             cache: Cache, prev: nat, ops: seq<Op>)
  {
    && Ran(w0.s, ops, w1.s) && StaysIn(ops, dst, from, to)
    && Copied(w0, w1, dst, src, from, i)
    && (cache == NO_CACHE || (i == prev + 0x1000 && CacheFor(w1.s.tables, dst, src, cache, prev)))
  }

  /** Where a copy can start. */
  ghost predicate CanCopy(w: World, dst: Frame, src: Frame, from: nat, to: nat) {
    && PageTables.Valid(w.s) && FreeUnmapped(w.s, w.free) && IsContext(w.s, dst) && IsContext(w.s, src)
    && Copyable(w.s.tables, dst, src, from, to)
  }

  lemma NothingCopied(w0: World, dst: Frame, src: Frame, from: nat, to: nat)
    requires PageTables.Valid(w0.s)
    ensures InProgress(w0, w0, dst, src, from, to, from, NO_CACHE, 0, [])
  {
  }

  /** The cache stays right when a leaf is written. */
  lemma CacheKept(s2: Space, s3: Space, dst: Frame, src: Frame, c: Cache, i: nat)
    requires PageTables.Valid(s2) && IsContext(s2, dst) && IsContext(s2, src) && CacheFor(s2.tables, dst, src, c, i)
    requires KeepsLinks(s2, s3)
    ensures CacheFor(s3.tables, dst, src, c, i)
  {
    OnPathKept(s2, s3, dst, i, c.dstPdp, c.dstPd, c.dstPt);
    OnPathKept(s2, s3, src, i, c.srcPdp.table, c.srcPd.table, c.srcPt.table);
  }

  lemma CachedLeaves(s: Space, dst: Frame, src: Frame, c: Cache, i: nat)
    requires PageTables.Valid(s) && IsContext(s, dst) && IsContext(s, src) && CacheFor(s.tables, dst, src, c, i)
    ensures LeafTable(s.tables, dst, 4, i) == At(c.dstPt)
    ensures c.srcPt.table in s.tables && |s.tables[c.srcPt.table]| == ENTRIES
    ensures var e := s.tables[c.srcPt.table][Index(1, i)];
            Lookup(s.tables, src, i) == if e.present then Small(e) else Absent
  {
    OnPathLookup(s.tables, src, i, c.srcPdp.table, c.srcPd.table, c.srcPt.table);
    OnPathLookup(s.tables, dst, i, c.dstPdp, c.dstPd, c.dstPt);
    OnPathKept(s, s, src, i, c.srcPdp.table, c.srcPd.table, c.srcPt.table);
  }
}
