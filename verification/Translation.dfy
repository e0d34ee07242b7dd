/**
  What a mapping means to the hardware: the physical address behind each byte of
  the page, its flags and caching bits, and the access rights on the way to it.
 */
module Translation {
  import opened Basics
  import opened PageTables
  import opened FlatView
  import opened AddressSpaces
  import opened AddressSpaceRuns

  function Bit(b: bool): nat {
    if b then 1 else 0
  }

  /** The start of the page frame that an address lies in; the tables hold addresses of 52 bits. */
  function FrameStart(physical: nat): nat {
    physical % 0x10_0000_0000_0000 - physical % 0x1000
  }

  /** The byte at `w` is a byte of that frame, open to everybody, and cached as `pat` says. */
  predicate ReadsAs(hit: Hit, w: nat, physical: nat, pat: nat) {
    && hit.Small? && hit.e.present && hit.e.writeable && hit.e.userspace
    && Bit(hit.e.pat0) + 2 * Bit(hit.e.pat1) + 4 * Bit(hit.e.huge) == pat % 8
    && hit.e.base * 0x1000 == FrameStart(physical)
    && PhysicalAddress(hit, w) == FrameStart(physical) + w % 0x1000
  }

  lemma FrameOf(physical: nat)
    ensures physical / 0x1000 % 0x100_0000_0000 * 0x1000 == FrameStart(physical) < 0x10_0000_0000_0000
    ensures physical % 0x1000 == 0 && physical < 0x10_0000_0000_0000 ==> FrameStart(physical) == physical
  {
    var n := physical / 0x1000;
    var q, r := n / 0x100_0000_0000, n % 0x100_0000_0000;
    assert physical == 0x10_0000_0000_0000 * q + (0x1000 * r + physical % 0x1000);
    RemainderUnique(physical, 0x10_0000_0000_0000, q, 0x1000 * r + physical % 0x1000);
  }

  lemma CachingBits(pat: nat)
    ensures Bit(pat % 2 == 1) + 2 * Bit(pat / 2 % 2 == 1) + 4 * Bit(pat / 4 % 2 == 1) == pat % 8
  {
    var a, b, c := pat % 2, pat / 2 % 2, pat / 4 % 2;
    assert pat == a + 2 * (pat / 2) && pat / 2 == b + 2 * (pat / 4) && pat / 4 == c + 2 * (pat / 4 / 2);
    RemainderUnique(pat, 8, pat / 4 / 2, a + 2 * b + 4 * c);
  }

  /** The leaf of a mapping reads as the frame asked for, for every address of the page and every caching type. */
  lemma LeafReadsAs(physical: nat, pat: nat, w: nat)
    ensures ReadsAs(Small(Leaf(physical, pat)), w, physical, pat)
    ensures physical % 0x1000 == 0 && physical < 0x10_0000_0000_0000 ==>
      PhysicalAddress(Small(Leaf(physical, pat)), w) == physical + w % 0x1000
  {
    FrameOf(physical);
    CachingBits(pat);
    assert FrameStart(physical) % 0x1_0000_0000_0000_0000 == FrameStart(physical);
  }

  /** After a mapping, every address of the page reads as the frame asked for, wherever the page is seen. */
  lemma MappedReadsAs(s: Space, s': Space, c: Frame, v: nat, physical: nat, pat: nat)
    requires Shaped(s) && Shaped(s') && UpdatesPage(s, s', c, v, Small(Leaf(physical, pat)))
    ensures forall d, w :: IsContext(s', d) && Affects(c, v, d, w) ==>
      ReadsAs(Lookup(s'.tables, d, w), w, physical, pat)
  {
    forall d, w | IsContext(s', d) && Affects(c, v, d, w)
      ensures ReadsAs(Lookup(s'.tables, d, w), w, physical, pat)
    {
      LeafReadsAs(physical, pat, w);
    }
  }

  // --- Huge pages ---

  /** The page size behind a huge entry of a PDP or a PD. */
  function HugeSize(level: nat): nat
    requires 2 <= level <= 3
  {
    if level == 3 then 0x4000_0000 else 0x20_0000
  }

  /**
    A huge entry holds the page's address without its lower 12 bits, as any
    entry does, but translation shifts that by the page size. It gives the
    right address exactly for the first page of physical memory.
   */
  lemma HugeTranslatesIff(level: nat, e: Entry, physical: nat, w: nat)
    requires 2 <= level <= 3 && physical % HugeSize(level) == 0 && physical < 0x10_0000_0000_0000
    requires e.base == physical / 0x1000
    ensures PhysicalAddress(Huge(level, e), w) % HugeSize(level) == w % HugeSize(level)
    ensures PhysicalAddress(Huge(level, e), w) == physical + w % HugeSize(level) <==> physical == 0
  {
    var size := HugeSize(level);
    var shifted := physical / 0x1000 * size % 0x1_0000_0000_0000_0000;
    if level == 3 { GiantPage(physical); } else { LargePage(physical); }
    assert PhysicalAddress(Huge(level, e), w) == shifted + w % size;
    OffsetIn(shifted, w % size, size);
  }

  lemma OffsetIn(start: nat, offset: nat, size: nat)
    requires size > 0 && start % size == 0 && offset < size
    ensures (start + offset) % size == offset
  {
    RemainderUnique(start + offset, size, start / size, offset);
  }

  lemma GiantPage(physical: nat)
    requires physical % 0x4000_0000 == 0 && physical < 0x10_0000_0000_0000
    ensures var shifted := physical / 0x1000 * 0x4000_0000 % 0x1_0000_0000_0000_0000;
      shifted % 0x4000_0000 == 0 && (shifted == physical <==> physical == 0)
  {
    var k := physical / 0x4000_0000;
    assert physical / 0x1000 == 0x4_0000 * k && k < 0x40_0000;
    var q, r := k / 0x1_0000, k % 0x1_0000;
    assert physical / 0x1000 * 0x4000_0000 == 0x1_0000_0000_0000_0000 * q + 0x1_0000_0000_0000 * r;
    RemainderUnique(physical / 0x1000 * 0x4000_0000, 0x1_0000_0000_0000_0000, q, 0x1_0000_0000_0000 * r);
  }

  lemma LargePage(physical: nat)
    requires physical % 0x20_0000 == 0 && physical < 0x10_0000_0000_0000
    ensures var shifted := physical / 0x1000 * 0x20_0000 % 0x1_0000_0000_0000_0000;
      shifted % 0x20_0000 == 0 && (shifted == physical <==> physical == 0)
  {
    var k := physical / 0x20_0000;
    assert physical / 0x1000 == 512 * k && k < 0x8000_0000;
    assert physical / 0x1000 * 0x20_0000 == 0x4000_0000 * k < 0x1_0000_0000_0000_0000 * 1;
  }

  /** The second gigabyte, mapped by a huge entry, translates to 2^48. */
  lemma HugeExample(e: Entry)
    requires e.base == 0x4000_0000 / 0x1000
    ensures PhysicalAddress(Huge(3, e), 0) == 0x1_0000_0000_0000
  {
  }

  // --- Access rights on the way ---

  /** The entry at `i` of a table at this place leads to pages of the user half. */
  predicate UserSide(n: Node, i: nat) {
    match n
    case Root(_) => i < FIRST_KERNEL_INDEX
    case Inner(half, _) => half.User?
  }

  /** Every entry that leads to a table of the user half lets everybody through. */
  ghost predicate UserTablesOpen(s: Space)
    requires Shaped(s)
  {
    forall f, i :: f in s.tables && 0 <= i < ENTRIES && UserSide(s.owner[f], i) ==> OpenEntry(s, f, i)
  }

  ghost predicate OpenEntry(s: Space, f: Frame, i: nat)
    requires Shaped(s) && f in s.tables && i < ENTRIES
  {
    var e := s.tables[f][i];
    Interior(Level(s.owner[f]), e) ==> e.writeable && e.userspace
  }

  /** All entries from a table down to the leaf's table let everybody through. */
  predicate OpenWay(t: Tables, f: Frame, level: nat, v: nat)
    requires 1 <= level <= 4
    decreases level
  {
    level == 1 ||
    var e := Get(t, f, Index(level, v));
    e.present && e.writeable && e.userspace && OpenWay(t, e.base, level - 1, v)
  }

  lemma {:induction false} UserWayOpen(s: Space, f: Frame, level: nat, v: nat)
    requires PageTables.Valid(s) && UserTablesOpen(s) && f in s.tables && 1 <= level == Level(s.owner[f])
    requires LeafTable(s.tables, f, level, v).At? && (level > 1 ==> UserSide(s.owner[f], Index(level, v)))
    ensures OpenWay(s.tables, f, level, v)
    decreases level
  {
    if level > 1 {
      var e := s.tables[f][Index(level, v)];
      assert OpenEntry(s, f, Index(level, v));
      assert Interior(Level(s.owner[f]), e);
      UserWayOpen(s, e.base, level - 1, v);
    }
  }

  lemma LinkKeepsOpen(s: Space, f: Frame, i: nat, e: Entry)
    requires CanLink(s, f, i, e) && UserTablesOpen(s) && (UserSide(s.owner[f], i) ==> e.writeable && e.userspace)
    ensures Shaped(LinkTable(s, f, i, e)) && UserTablesOpen(LinkTable(s, f, i, e))
  {
    var s' := LinkTable(s, f, i, e);
    LinkTableStructured(s, f, i, e);
    forall g, j | g in s'.tables && 0 <= j < ENTRIES && UserSide(s'.owner[g], j)
      ensures OpenEntry(s', g, j)
    {
      if g != e.base { assert OpenEntry(s, g, j); }
    }
  }

  lemma {:induction false} WithPathOpen(s: Space, f: Frame, level: nat, v: nat, frames: seq<Frame>)
    requires CanReach(s, f, level, v, frames) && UserTablesOpen(s)
    ensures Shaped(WithPath(s, f, level, v, frames)) && UserTablesOpen(WithPath(s, f, level, v, frames))
    decreases level
  {
    if level > 1 {
      NextOnWay(s, f, level, v, frames);
      var i := Index(level, v);
      var e := s.tables[f][i];
      if e.present {
        WithPathOpen(s, e.base, level - 1, v, frames);
      } else {
        LinkKeepsOpen(s, f, i, TableEntry(e, frames[0]));
        WithPathOpen(LinkTable(s, f, i, TableEntry(e, frames[0])), frames[0], level - 1, v, frames[1..]);
      }
    }
  }

  lemma SetLeafKeepsOpen(s: Space, pt: Frame, i: nat, e: Entry)
    requires Shaped(s) && UserTablesOpen(s) && pt in s.tables && Level(s.owner[pt]) == 1 && i < ENTRIES
    ensures Shaped(SetEntry(s, pt, i, e)) && UserTablesOpen(SetEntry(s, pt, i, e))
  {
    var s' := SetEntry(s, pt, i, e);
    forall g, j | g in s'.tables && 0 <= j < ENTRIES && UserSide(s'.owner[g], j)
      ensures OpenEntry(s', g, j)
    {
      assert OpenEntry(s, g, j);
    }
  }

  lemma MapPageKeepsOpen(s: Space, c: Frame, v: nat, leaf: Entry, frames: seq<Frame>)
    requires PageTables.Valid(s) && UserTablesOpen(s) && IsContext(s, c) && CanReach(s, c, 4, v, frames)
    ensures Shaped(MapPage(s, c, v, leaf, frames)) && UserTablesOpen(MapPage(s, c, v, leaf, frames))
  {
    WithPathOpen(s, c, 4, v, frames);
    WithPathLaw(s, c, 4, v, frames);
    var s1 := WithPath(s, c, 4, v, frames);
    LeafTableOwner(s1, c, 4, v);
    SetLeafKeepsOpen(s1, LeafTable(s1.tables, c, 4, v).table, Index(1, v), leaf);
  }

  lemma AddContextKeepsOpen(s: Space, f: Frame)
    requires PageTables.Valid(s) && UserTablesOpen(s) && f !in s.tables && NoUserHalf(s.tables, s.kernel)
    ensures Shaped(AddContext(s, f)) && UserTablesOpen(AddContext(s, f))
  {
    var s' := AddContext(s, f);
    AddContextValid(s, f);
    forall g, j | g in s'.tables && 0 <= j < ENTRIES && UserSide(s'.owner[g], j)
      ensures OpenEntry(s', g, j)
    {
      if g == f { assert !Get(s.tables, s.kernel, j).present; } else { assert OpenEntry(s, g, j); }
    }
  }

  /** No operation closes the way to pages of the user half. */
  lemma AfterKeepsOpen(s: Space, op: Op)
    requires PageTables.Valid(s) && UserTablesOpen(s) && CanDo(s, op)
    ensures Shaped(After(s, op)) && UserTablesOpen(After(s, op))
  {
    match op
    case Prepare(c, v, frames) => WithPathOpen(s, c, 4, v, frames);
    case Map(c, v, leaf, frames) => MapPageKeepsOpen(s, c, v, leaf, frames);
    case Unmap(c, v) =>
      if LeafTable(s.tables, c, 4, v).At? {
        var pt := LeafTable(s.tables, c, 4, v).table;
        LeafTableOwner(s, c, 4, v);
        SetLeafKeepsOpen(s, pt, Index(1, v), Cleared(s.tables[pt][Index(1, v)]));
      }
    case Create(c, v, frames) =>
      MapPageLaw(s, s.kernel, v, FrameLeaf(c), frames);
      MapPageFrame(s, s.kernel, v, FrameLeaf(c), frames);
      MapPageKeepsOpen(s, s.kernel, v, FrameLeaf(c), frames);
      AddContextKeepsOpen(MapPage(s, s.kernel, v, FrameLeaf(c), frames), c);
  }

  lemma {:induction false} RunKeepsOpen(s: Space, ops: seq<Op>)
    requires PageTables.Valid(s) && UserTablesOpen(s) && CanRun(s, ops)
    ensures UserTablesOpen(Run(s, ops))
    decreases |ops|
  {
    if ops != [] {
      RunKeepsOpen(s, ops[..|ops| - 1]);
      AfterKeepsOpen(Run(s, ops[..|ops| - 1]), ops[|ops| - 1]);
    }
  }

  /** After every run, whatever is mapped in the user half of a context is reached through open entries only. */
  lemma UserPagesReachable(s: Space, ops: seq<Op>, c: Frame, v: nat)
    requires PageTables.Valid(s) && UserTablesOpen(s) && CanRun(s, ops)
    requires IsContext(Run(s, ops), c) && !InKernelHalf(v) && Lookup(Run(s, ops).tables, c, v).Small?
    ensures OpenWay(Run(s, ops).tables, c, 4, v)
  {
    RunKeepsOpen(s, ops);
    SmallHasLeafTable(Run(s, ops).tables, c, 4, v);
    UserWayOpen(Run(s, ops), c, 4, v);
  }

  lemma {:induction false} SmallHasLeafTable(t: Tables, f: Frame, level: nat, v: nat)
    requires 1 <= level <= 4 && Walk(t, f, level, v).Small?
    ensures LeafTable(t, f, level, v).At?
    decreases level
  {
    if level > 1 { SmallHasLeafTable(t, Get(t, f, Index(level, v)).base, level - 1, v); }
  }
}
