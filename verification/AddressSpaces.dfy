/**
  Mapping, unmapping and creating contexts on values: which tables are added,
  which entries are written, and what that makes of the flat view.
 */
module AddressSpaces {
  import opened PageTables
  import opened FlatView

  /** The entry that leads to a new table in frame `f`, where `was` was absent. */
  function TableEntry(was: Entry, f: Frame): Entry {
    Entry(true, true, true, was.pat0, was.pat1, was.huge, f)
  }

  /** Frames that can become tables. */
  predicate Unused(t: Tables, frames: seq<Frame>) {
    && (forall i :: 0 <= i < |frames| ==> frames[i] !in t)
    && (forall i, j :: 0 <= i < j < |frames| ==> frames[i] != frames[j])
  }

  /** The way from `f`, a table of the given level, to the leaf of `v` can be completed with the given frames. */
  ghost predicate CanReach(s: Space, f: Frame, level: nat, v: nat, frames: seq<Frame>) {
    && PageTables.Valid(s) && f in s.tables && 1 <= level == Level(s.owner[f])
    && NoHugeOnPath(s.tables, f, level, v)
    && |frames| == MissingTables(s.tables, f, level, v) && Unused(s.tables, frames)
  }

  /** One table on the way is there, or is added. */
  lemma NextOnWay(s: Space, f: Frame, level: nat, v: nat, frames: seq<Frame>)
    requires CanReach(s, f, level, v, frames) && level > 1
    ensures var e := s.tables[f][Index(level, v)];
      if e.present then CanReach(s, e.base, level - 1, v, frames)
      else
        && |frames| > 0
        && CanReach(LinkTable(s, f, Index(level, v), TableEntry(e, frames[0])), frames[0], level - 1, v, frames[1..])
  {
    var e := s.tables[f][Index(level, v)];
    if !e.present {
      AddedTable(s, {}, f, level, v, TableEntry(e, frames[0]));
    }
  }

  /** The tables with the way to `v` completed. */
  ghost function WithPath(s: Space, f: Frame, level: nat, v: nat, frames: seq<Frame>): Space
    requires CanReach(s, f, level, v, frames)
    decreases level
  {
    if level == 1 then s
    else
      NextOnWay(s, f, level, v, frames);
      var e := s.tables[f][Index(level, v)];
      if e.present then WithPath(s, e.base, level - 1, v, frames)
      else
        WithPath(LinkTable(s, f, Index(level, v), TableEntry(e, frames[0])), frames[0], level - 1, v, frames[1..])
  }

  /** The table `next`, to which an entry of `f` leads, was there or is added. */
  ghost predicate NextIs(s: Space, f: Frame, level: nat, v: nat, next: Frame, s1: Space)
    requires PageTables.Valid(s) && f in s.tables && 2 <= level <= 4
  {
    var e := s.tables[f][Index(level, v)];
    if e.present then s1 == s && next == e.base
    else next !in s.tables && s1 == LinkTable(s, f, Index(level, v), TableEntry(e, next))
  }

  /** A step down one level, between two well formed states. */
  ghost predicate StepTo(s: Space, f: Frame, level: nat, v: nat, next: Frame, s1: Space) {
    && 2 <= level <= 4 && PageTables.Valid(s) && PageTables.Valid(s1)
    && f in s.tables && Level(s.owner[f]) == level && NoHugeOnPath(s.tables, f, level, v)
    && next in s1.tables && Level(s1.owner[next]) == level - 1 && NextIs(s, f, level, v, next, s1)
  }

  /** The way from `f` is one step to `next` and the way from there. */
  lemma OneStep(s: Space, f: Frame, level: nat, v: nat, next: Frame, s1: Space, rest: seq<Frame>)
    returns (frames: seq<Frame>)
    requires StepTo(s, f, level, v, next, s1) && CanReach(s1, next, level - 1, v, rest)
    ensures CanReach(s, f, level, v, frames)
    ensures WithPath(s, f, level, v, frames) == WithPath(s1, next, level - 1, v, rest)
  {
    var e := s.tables[f][Index(level, v)];
    frames := if e.present then rest else [next] + rest;
    if !e.present {
      AddedTable(s, {}, f, level, v, TableEntry(e, next));
      assert frames[1..] == rest;
    }
  }

  lemma ThreeSteps(s0: Space, c: Frame, v: nat, pdp: Frame, s1: Space, pd: Frame, s2: Space, pt: Frame, s3: Space)
    returns (frames: seq<Frame>)
    requires StepTo(s0, c, 4, v, pdp, s1) && StepTo(s1, pdp, 3, v, pd, s2) && StepTo(s2, pd, 2, v, pt, s3)
    ensures CanReach(s0, c, 4, v, frames) && WithPath(s0, c, 4, v, frames) == s3
  {
    assert CanReach(s3, pt, 1, v, []);
    frames := OneStep(s2, pd, 2, v, pt, s3, []);
    frames := OneStep(s1, pdp, 3, v, pd, s2, frames);
    frames := OneStep(s0, c, 4, v, pdp, s1, frames);
  }

  /** Completing the way changes no page, and afterwards there is a leaf table. */
  lemma {:induction false} WithPathLaw(s: Space, f: Frame, level: nat, v: nat, frames: seq<Frame>)
    requires CanReach(s, f, level, v, frames)
    ensures var s' := WithPath(s, f, level, v, frames);
      && PageTables.Valid(s') && KeepsView(s, s') && KeepsLinks(s, s')
      && LeafTable(s'.tables, f, level, v).At?
    decreases level
  {
    if level > 1 {
      NextOnWay(s, f, level, v, frames);
      var i := Index(level, v);
      var e := s.tables[f][i];
      if e.present {
        WithPathLaw(s, e.base, level - 1, v, frames);
        AddedOnWay(s, s, WithPath(s, e.base, level - 1, v, frames), f, level, v, e.base);
      } else {
        var s1 := LinkTable(s, f, i, TableEntry(e, frames[0]));
        AddedTable(s, {}, f, level, v, TableEntry(e, frames[0]));
        WithPathLaw(s1, frames[0], level - 1, v, frames[1..]);
        AddedOnWay(s, s1, WithPath(s1, frames[0], level - 1, v, frames[1..]), f, level, v, frames[0]);
      }
    }
  }

  lemma AddedOnWay(s: Space, s1: Space, s2: Space, f: Frame, level: nat, v: nat, next: Frame)
    requires 2 <= level <= 4 && Shaped(s) && Shaped(s1) && Shaped(s2) && f in s1.owner && Level(s1.owner[f]) == level
    requires KeepsView(s, s1) && KeepsLinks(s, s1) && KeepsView(s1, s2) && KeepsLinks(s1, s2)
    requires Link(s1.tables, f, level, v, next) && LeafTable(s2.tables, next, level - 1, v).At?
    ensures KeepsView(s, s2) && KeepsLinks(s, s2) && LeafTable(s2.tables, f, level, v).At?
  {
    ViewsChain(s, s1, s2);
    assert Link(s2.tables, f, level, v, next);
  }

  lemma ViewsChain(s: Space, s1: Space, s2: Space)
    requires Shaped(s) && Shaped(s1) && Shaped(s2)
    requires KeepsView(s, s1) && KeepsLinks(s, s1) && KeepsView(s1, s2) && KeepsLinks(s1, s2)
    ensures KeepsView(s, s2) && KeepsLinks(s, s2)
  {
  }

  /** Only the given frames become tables. */
  lemma {:induction false} WithPathTables(s: Space, f: Frame, level: nat, v: nat, frames: seq<Frame>)
    requires CanReach(s, f, level, v, frames)
    ensures forall g :: g in WithPath(s, f, level, v, frames).tables ==> g in s.tables || g in frames
    decreases level
  {
    if level > 1 {
      NextOnWay(s, f, level, v, frames);
      var i := Index(level, v);
      var e := s.tables[f][i];
      if e.present {
        WithPathTables(s, e.base, level - 1, v, frames);
      } else {
        WithPathTables(LinkTable(s, f, i, TableEntry(e, frames[0])), frames[0], level - 1, v, frames[1..]);
        assert frames[0] in frames && forall g :: g in frames[1..] ==> g in frames;
      }
    }
  }

  lemma LinkKeepsUserHalf(s: Space, f: Frame, i: nat, e: Entry)
    requires CanLink(s, f, i, e) && NoUserHalf(s.tables, s.kernel) && (f != s.kernel || i >= FIRST_KERNEL_INDEX)
    ensures NoUserHalf(LinkTable(s, f, i, e).tables, s.kernel)
  {
    forall j | 0 <= j < FIRST_KERNEL_INDEX
      ensures !Get(LinkTable(s, f, i, e).tables, s.kernel, j).present
    {
      assert !Get(s.tables, s.kernel, j).present;
    }
  }

  /** Outside the kernel context, or in the kernel half, the kernel's own table gets no entry for the user half. */
  lemma {:induction false} WithPathUserHalf(s: Space, f: Frame, level: nat, v: nat, frames: seq<Frame>)
    requires CanReach(s, f, level, v, frames)
    requires NoUserHalf(s.tables, s.kernel) && (f != s.kernel || InKernelHalf(v))
    ensures NoUserHalf(WithPath(s, f, level, v, frames).tables, s.kernel)
    decreases level
  {
    if level > 1 {
      NextOnWay(s, f, level, v, frames);
      var i := Index(level, v);
      var e := s.tables[f][i];
      if e.present {
        WithPathUserHalf(s, e.base, level - 1, v, frames);
      } else {
        LinkKeepsUserHalf(s, f, i, TableEntry(e, frames[0]));
        WithPathUserHalf(LinkTable(s, f, i, TableEntry(e, frames[0])), frames[0], level - 1, v, frames[1..]);
      }
    }
  }

  // --- Operations ---

  /**
    Preparing and mapping take the frames of the tables that they add; a new
    context lives in frame `c`, which `v` shows.
   */
  datatype Op =
    | Prepare(c: Frame, v: nat, frames: seq<Frame>)
    | Map(c: Frame, v: nat, leaf: Entry, frames: seq<Frame>)
    | Unmap(c: Frame, v: nat)
    | Create(c: Frame, v: nat, frames: seq<Frame>)

  /** What the operations ask for. */
  ghost predicate CanDo(s: Space, op: Op)
    requires PageTables.Valid(s)
  {
    match op
    case Prepare(c, v, frames) => IsContext(s, c) && CanReach(s, c, 4, v, frames)
    case Map(c, v, leaf, frames) => IsContext(s, c) && leaf.present && CanReach(s, c, 4, v, frames)
    case Unmap(c, v) => IsContext(s, c) && NoHugeOnPath(s.tables, c, 4, v)
    case Create(c, v, frames) =>
      && InKernelHalf(v) && CanReach(s, s.kernel, 4, v, frames)
      && c !in s.tables && c !in frames && NoUserHalf(s.tables, s.kernel)
  }

  ghost function MapPage(s: Space, c: Frame, v: nat, leaf: Entry, frames: seq<Frame>): Space
    requires PageTables.Valid(s) && IsContext(s, c) && CanReach(s, c, 4, v, frames)
  {
    WithPathLaw(s, c, 4, v, frames);
    var s1 := WithPath(s, c, 4, v, frames);
    LeafTableOwner(s1, c, 4, v);
    SetEntry(s1, LeafTable(s1.tables, c, 4, v).table, Index(1, v), leaf)
  }

  /** An unmapped leaf keeps its caching bits. */
  function Cleared(e: Entry): Entry {
    Entry(false, false, false, e.pat0, e.pat1, e.huge, 0)
  }

  ghost function UnmapPage(s: Space, c: Frame, v: nat): Space
    requires PageTables.Valid(s) && IsContext(s, c)
  {
    match LeafTable(s.tables, c, 4, v)
    case Nowhere => s
    case At(pt) =>
      LeafTableOwner(s, c, 4, v);
      var e := s.tables[pt][Index(1, v)];
      if e.present then SetEntry(s, pt, Index(1, v), Cleared(e)) else s
  }

  ghost function After(s: Space, op: Op): Space
    requires PageTables.Valid(s) && CanDo(s, op)
  {
    match op
    case Prepare(c, v, frames) => WithPath(s, c, 4, v, frames)
    case Map(c, v, leaf, frames) => MapPage(s, c, v, leaf, frames)
    case Unmap(c, v) => UnmapPage(s, c, v)
    case Create(c, v, frames) =>
      MapPageLaw(s, s.kernel, v, FrameLeaf(c), frames);
      AddContext(MapPage(s, s.kernel, v, FrameLeaf(c), frames), c)
  }

  lemma MapPageLaw(s: Space, c: Frame, v: nat, leaf: Entry, frames: seq<Frame>)
    requires PageTables.Valid(s) && IsContext(s, c) && CanReach(s, c, 4, v, frames)
    ensures var s' := MapPage(s, c, v, leaf, frames);
      PageTables.Valid(s') && UpdatesPage(s, s', c, v, if leaf.present then Small(leaf) else Absent)
  {
    WithPathLaw(s, c, 4, v, frames);
    var s1 := WithPath(s, c, 4, v, frames);
    LeafWriteUpdatesPage(s1, c, v, LeafTable(s1.tables, c, 4, v).table, leaf);
    KeepsViewThenUpdates(s, s1, MapPage(s, c, v, leaf, frames), c, v, if leaf.present then Small(leaf) else Absent);
  }

  lemma KeepsViewThenUpdates(s: Space, s1: Space, s2: Space, c: Frame, v: nat, hit: Hit)
    requires Shaped(s) && Shaped(s1) && Shaped(s2) && KeepsView(s, s1) && UpdatesPage(s1, s2, c, v, hit)
    ensures UpdatesPage(s, s2, c, v, hit)
  {
  }

  /** The given frames are tables afterwards. */
  lemma {:induction false} WithPathUses(s: Space, f: Frame, level: nat, v: nat, frames: seq<Frame>)
    requires CanReach(s, f, level, v, frames)
    ensures forall g :: g in s.tables || g in frames ==> g in WithPath(s, f, level, v, frames).tables
    decreases level
  {
    if level > 1 {
      NextOnWay(s, f, level, v, frames);
      var i := Index(level, v);
      var e := s.tables[f][i];
      if e.present {
        WithPathUses(s, e.base, level - 1, v, frames);
      } else {
        WithPathUses(LinkTable(s, f, i, TableEntry(e, frames[0])), frames[0], level - 1, v, frames[1..]);
        assert frames == [frames[0]] + frames[1..];
      }
    }
  }

  lemma MappedFrames(s: Space, c: Frame, v: nat, leaf: Entry, frames: seq<Frame>)
    requires PageTables.Valid(s) && IsContext(s, c) && CanReach(s, c, 4, v, frames)
    ensures forall g :: g in frames ==> g in MapPage(s, c, v, leaf, frames).tables
  {
    WithPathUses(s, c, 4, v, frames);
  }

  /** A mapping turns only the given frames into tables, and keeps the kernel's user half empty. */
  lemma MapPageFrame(s: Space, c: Frame, v: nat, leaf: Entry, frames: seq<Frame>)
    requires PageTables.Valid(s) && IsContext(s, c) && CanReach(s, c, 4, v, frames)
    ensures var s' := MapPage(s, c, v, leaf, frames);
      && (forall g :: g in s'.tables ==> g in s.tables || g in frames) && s'.kernel == s.kernel
      && (NoUserHalf(s.tables, s.kernel) && (c != s.kernel || InKernelHalf(v)) ==> NoUserHalf(s'.tables, s.kernel))
  {
    WithPathLaw(s, c, 4, v, frames);
    WithPathTables(s, c, 4, v, frames);
    var s1 := WithPath(s, c, 4, v, frames);
    LeafTableOwner(s1, c, 4, v);
    if NoUserHalf(s.tables, s.kernel) && (c != s.kernel || InKernelHalf(v)) {
      WithPathUserHalf(s, c, 4, v, frames);
      SetLeafKeepsUserHalf(s1, LeafTable(s1.tables, c, 4, v).table, Index(1, v), leaf);
    }
  }

  lemma SetLeafKeepsUserHalf(s: Space, pt: Frame, i: nat, e: Entry)
    requires Shaped(s) && pt in s.tables && i < ENTRIES && Level(s.owner[pt]) == 1
    ensures NoUserHalf(SetEntry(s, pt, i, e).tables, s.kernel) <==> NoUserHalf(s.tables, s.kernel)
  {
    forall j | 0 <= j < FIRST_KERNEL_INDEX
      ensures Get(SetEntry(s, pt, i, e).tables, s.kernel, j) == Get(s.tables, s.kernel, j)
    {
    }
  }

  lemma {:induction false} AbsentWithoutLeafTable(t: Tables, f: Frame, level: nat, v: nat)
    requires 1 <= level <= 4 && NoHugeOnPath(t, f, level, v)
    ensures LeafTable(t, f, level, v).Nowhere? ==> Walk(t, f, level, v).Absent?
    ensures LeafTable(t, f, level, v).At? ==>
      var e := Get(t, LeafTable(t, f, level, v).table, Index(1, v));
      Walk(t, f, level, v) == if e.present then Small(e) else Absent
    decreases level
  {
    var e := Get(t, f, Index(level, v));
    if level > 1 && e.present {
      AbsentWithoutLeafTable(t, e.base, level - 1, v);
    }
  }

  lemma UnmapPageLaw(s: Space, c: Frame, v: nat)
    requires PageTables.Valid(s) && IsContext(s, c) && NoHugeOnPath(s.tables, c, 4, v)
    ensures var s' := UnmapPage(s, c, v);
      PageTables.Valid(s') && UpdatesPage(s, s', c, v, Absent)
  {
    AbsentWithoutLeafTable(s.tables, c, 4, v);
    if Lookup(s.tables, c, v).Absent? {
      AbsentPageUnchanged(s, c, v);
      if LeafTable(s.tables, c, 4, v).At? { LeafTableOwner(s, c, 4, v); }
    } else {
      var pt := LeafTable(s.tables, c, 4, v).table;
      LeafTableOwner(s, c, 4, v);
      LeafWriteUpdatesPage(s, c, v, pt, Cleared(s.tables[pt][Index(1, v)]));
    }
  }

  /** What each operation makes of the flat view. */
  ghost predicate Does(s: Space, op: Op, s': Space)
    requires Shaped(s) && Shaped(s')
  {
    match op
    case Prepare(_, _, _) => KeepsView(s, s')
    case Map(c, v, leaf, _) => UpdatesPage(s, s', c, v, Small(leaf))
    case Unmap(c, v) => UpdatesPage(s, s', c, v, Absent)
    case Create(c, v, _) => CreatesContext(s, s', v, c)
  }

  /** The law of every operation: the trees stay well formed and shared, and the flat view changes as it should. */
  lemma AfterLaw(s: Space, op: Op)
    requires PageTables.Valid(s) && CanDo(s, op)
    ensures PageTables.Valid(After(s, op)) && Does(s, op, After(s, op))
  {
    match op
    case Prepare(c, v, frames) => WithPathLaw(s, c, 4, v, frames);
    case Map(c, v, leaf, frames) => MapPageLaw(s, c, v, leaf, frames);
    case Unmap(c, v) => UnmapPageLaw(s, c, v);
    case Create(c, v, frames) =>
      MapPageLaw(s, s.kernel, v, FrameLeaf(c), frames);
      MapPageFrame(s, s.kernel, v, FrameLeaf(c), frames);
      NewContextView(s, MapPage(s, s.kernel, v, FrameLeaf(c), frames), v, c);
  }

  lemma MapPageKeepsLinks(s: Space, c: Frame, v: nat, leaf: Entry, frames: seq<Frame>)
    requires PageTables.Valid(s) && IsContext(s, c) && CanReach(s, c, 4, v, frames)
    ensures KeepsLinks(s, MapPage(s, c, v, leaf, frames))
  {
    WithPathLaw(s, c, 4, v, frames);
    var s1 := WithPath(s, c, 4, v, frames);
    LeafTableOwner(s1, c, 4, v);
    SetLeafKeepsLinks(s1, LeafTable(s1.tables, c, 4, v).table, Index(1, v), leaf);
    KeepsLinksTransitive(s, s1, MapPage(s, c, v, leaf, frames));
  }

  /** No operation takes a table away. */
  lemma AfterKeepsLinks(s: Space, op: Op)
    requires PageTables.Valid(s) && CanDo(s, op)
    ensures KeepsLinks(s, After(s, op))
  {
    match op
    case Prepare(c, v, frames) => WithPathLaw(s, c, 4, v, frames);
    case Map(c, v, leaf, frames) => MapPageKeepsLinks(s, c, v, leaf, frames);
    case Unmap(c, v) =>
      if LeafTable(s.tables, c, 4, v).At? {
        var pt := LeafTable(s.tables, c, 4, v).table;
        LeafTableOwner(s, c, 4, v);
        SetLeafKeepsLinks(s, pt, Index(1, v), Cleared(s.tables[pt][Index(1, v)]));
      }
    case Create(c, v, frames) =>
      var s1 := MapPage(s, s.kernel, v, FrameLeaf(c), frames);
      MapPageLaw(s, s.kernel, v, FrameLeaf(c), frames);
      MapPageKeepsLinks(s, s.kernel, v, FrameLeaf(c), frames);
      MapPageFrame(s, s.kernel, v, FrameLeaf(c), frames);
      AddContextKeepsLinks(s1, c);
      KeepsLinksTransitive(s, s1, After(s, op));
  }

  lemma AddContextClean(s: Space, f: Frame)
    requires PageTables.Valid(s) && f !in s.tables && NoUserHalf(s.tables, s.kernel)
    ensures NoUserHalf(AddContext(s, f).tables, s.kernel)
  {
    forall i | 0 <= i < FIRST_KERNEL_INDEX
      ensures !Get(AddContext(s, f).tables, s.kernel, i).present
    {
      assert !Get(s.tables, s.kernel, i).present;
    }
  }

  /** Completing the way and writing the leaf is the mapping operation. */
  lemma MappedByOp(s: Space, c: Frame, v: nat, frames: seq<Frame>, s1: Space, pt: Frame, leaf: Entry)
    returns (s': Space)
    requires PageTables.Valid(s) && IsContext(s, c) && CanReach(s, c, 4, v, frames) && leaf.present
    requires s1 == WithPath(s, c, 4, v, frames) && LeafTable(s1.tables, c, 4, v) == At(pt)
    ensures CanDo(s, Map(c, v, leaf, frames)) && s' == After(s, Map(c, v, leaf, frames))
    ensures pt in s1.tables && Index(1, v) < |s1.tables[pt]| && s' == SetEntry(s1, pt, Index(1, v), leaf)
    ensures PageTables.Valid(s') && UpdatesPage(s, s', c, v, Small(leaf))
  {
    AfterLaw(s, Map(c, v, leaf, frames));
    WithPathLaw(s, c, 4, v, frames);
    LeafTableOwner(s1, c, 4, v);
    s' := After(s, Map(c, v, leaf, frames));
  }

  /** Where the leaf table is there, completing the way does nothing. */
  lemma {:induction false} NothingToComplete(s: Space, f: Frame, level: nat, v: nat)
    requires PageTables.Valid(s) && f in s.tables && 1 <= level == Level(s.owner[f])
    requires LeafTable(s.tables, f, level, v).At?
    ensures CanReach(s, f, level, v, []) && WithPath(s, f, level, v, []) == s
    decreases level
  {
    if level > 1 {
      var e := s.tables[f][Index(level, v)];
      assert Interior(Level(s.owner[f]), e);
      NothingToComplete(s, e.base, level - 1, v);
    }
  }

  /** Writing a leaf of a table that is there is the mapping operation without new tables. */
  lemma WrittenByOp(s: Space, c: Frame, v: nat, pt: Frame, leaf: Entry)
    requires PageTables.Valid(s) && IsContext(s, c) && LeafTable(s.tables, c, 4, v) == At(pt) && leaf.present
    ensures pt in s.tables && Index(1, v) < |s.tables[pt]|
    ensures CanDo(s, Map(c, v, leaf, [])) && After(s, Map(c, v, leaf, [])) == SetEntry(s, pt, Index(1, v), leaf)
  {
    LeafTableOwner(s, c, 4, v);
    NothingToComplete(s, c, 4, v);
  }

  /** Copying the kernel's table to a mapped frame is the creation operation. */
  lemma CreatedByOp(s: Space, c: Frame, v: nat, frames: seq<Frame>, s1: Space)
    requires PageTables.Valid(s) && NoUserHalf(s.tables, s.kernel) && InKernelHalf(v)
    requires CanReach(s, s.kernel, 4, v, frames) && c !in s.tables && c !in frames
    requires s1 == MapPage(s, s.kernel, v, FrameLeaf(c), frames)
    ensures c !in s1.tables && s1.kernel in s1.tables
    ensures CanDo(s, Create(c, v, frames)) && AddContext(s1, c) == After(s, Create(c, v, frames))
    ensures PageTables.Valid(AddContext(s1, c)) && CreatesContext(s, AddContext(s1, c), v, c)
    ensures NoUserHalf(AddContext(s1, c).tables, s.kernel)
  {
    AfterLaw(s, Create(c, v, frames));
    MapPageLaw(s, s.kernel, v, FrameLeaf(c), frames);
    MapPageFrame(s, s.kernel, v, FrameLeaf(c), frames);
    AddContextClean(s1, c);
  }

  // --- The kernel's user half ---

  lemma FirstAddress(i: nat)
    requires i < ENTRIES
    ensures Index(4, i * 0x80_0000_0000) == i
  {
  }

  /** Entries of a context's own table stay. */
  lemma LinkedEntryStays(s: Space, s': Space, c: Frame, i: nat)
    requires Shaped(s) && IsContext(s, c) && KeepsLinks(s, s') && i < ENTRIES && Get(s.tables, c, i).present
    ensures Get(s'.tables, c, i).present
  {
    FirstAddress(i);
    assert Link(s.tables, c, 4, i * 0x80_0000_0000, Get(s.tables, c, i).base);
  }

  /** The kernel's user half stays empty exactly when it was and the way does not lead there. */
  lemma WithPathUserHalfIff(s: Space, c: Frame, v: nat, frames: seq<Frame>)
    requires CanReach(s, c, 4, v, frames) && IsContext(s, c)
    ensures NoUserHalf(WithPath(s, c, 4, v, frames).tables, s.kernel) <==>
      NoUserHalf(s.tables, s.kernel) && (c != s.kernel || InKernelHalf(v))
  {
    WithPathLaw(s, c, 4, v, frames);
    var s' := WithPath(s, c, 4, v, frames);
    if !NoUserHalf(s.tables, s.kernel) {
      var i :| 0 <= i < FIRST_KERNEL_INDEX && Get(s.tables, s.kernel, i).present;
      LinkedEntryStays(s, s', s.kernel, i);
    } else if c == s.kernel && !InKernelHalf(v) {
      assert Get(s'.tables, c, Index(4, v)).present;
    } else {
      WithPathUserHalf(s, c, 4, v, frames);
    }
  }

  /** The operation adds tables for the user half of the kernel context. */
  predicate FillsUserHalf(kernel: Frame, op: Op) {
    (op.Prepare? || op.Map?) && op.c == kernel && !InKernelHalf(op.v)
  }

  /** Once there, the tables of the kernel's user half never go away. */
  lemma AfterUserHalfIff(s: Space, op: Op)
    requires PageTables.Valid(s) && CanDo(s, op)
    ensures NoUserHalf(After(s, op).tables, s.kernel) <==>
      NoUserHalf(s.tables, s.kernel) && !FillsUserHalf(s.kernel, op)
  {
    match op
    case Prepare(c, v, frames) => WithPathUserHalfIff(s, c, v, frames);
    case Map(c, v, leaf, frames) =>
      WithPathUserHalfIff(s, c, v, frames);
      WithPathLaw(s, c, 4, v, frames);
      var s1 := WithPath(s, c, 4, v, frames);
      LeafTableOwner(s1, c, 4, v);
      SetLeafKeepsUserHalf(s1, LeafTable(s1.tables, c, 4, v).table, Index(1, v), leaf);
    case Unmap(c, v) =>
      if LeafTable(s.tables, c, 4, v).At? {
        var pt := LeafTable(s.tables, c, 4, v).table;
        LeafTableOwner(s, c, 4, v);
        SetLeafKeepsUserHalf(s, pt, Index(1, v), Cleared(s.tables[pt][Index(1, v)]));
      }
    case Create(c, v, frames) => CreatedByOp(s, c, v, frames, MapPage(s, s.kernel, v, FrameLeaf(c), frames));
  }
}
