/**
  The virtual memory operations, which write the tables of PageTables in place.
  Every contract speaks of `Lookup`, the flat view of a context, and of nothing
  in the tree below it.
 */
module VirtualMemory {
  import opened Basics
  import opened PageTables
  import opened FlatView
  import opened ForkCopy
  import opened AddressSpaces
  import opened AddressSpaceRuns
  import opened FreeSearch
  import opened Translation

  class Machine {
    var tables: Tables
    ghost var owner: map<Frame, Node>
    var kernel: Frame
    var free: set<Frame>
    var data: map<Frame, Contents>

    /** An empty kernel context in frame `k`, before anything is reserved or mapped. */
    constructor (k: Frame, free: set<Frame>)
      requires k !in free && forall f :: f in free ==> f < BASE_LIMIT
      ensures Booting() && Clean() && kernel == k && this.free == free && UserTablesOpen(Spaces())
      ensures forall d :: Context(d) <==> d == k
    {
      tables := map[k := ZeroTable()];
      owner := map[k := Root(k)];
      kernel := k;
      this.free := free;
      data := map[];
      new;
      assert tables.Keys == owner.Keys;
    }

    ghost function Spaces(): Space
      reads this
    {
      Space(tables, owner, kernel)
    }

    ghost predicate Valid()
      reads this
    {
      && PageTables.Valid(Spaces())
      && free !! tables.Keys && FreeUnmapped(Spaces(), free)
      && forall f :: f in free ==> f < BASE_LIMIT
    }

    ghost predicate Context(c: Frame)
      requires Shaped(Spaces())
      reads this
    {
      IsContext(Spaces(), c)
    }

    /** `mm_alloc_pages(1)`: any unused frame. The source halts when there is none. */
    method AllocFrame() returns (f: Frame)
      requires free != {}
      modifies this`free
      ensures f in old(free) && free == old(free) - {f}
    {
      f :| f in free;
      free := free - {f};
    }

    /** Follows an entry to the next table, adding an empty one first where there is none. */
    method NextTable(table: Frame, level: nat, virt: nat) returns (next: Frame)
      requires Valid()
      requires 2 <= level <= 4 && table in tables && Level(owner[table]) == level
      requires NoHugeOnPath(tables, table, level, virt)
      requires |free| >= MissingTables(tables, table, level, virt)
      modifies this`tables, this`owner, this`free
      ensures Valid()
      ensures Link(tables, table, level, virt, next) && next in tables && Level(owner[next]) == level - 1
      ensures NextIs(old(Spaces()), table, level, virt, next, Spaces()) && (next in old(tables) || next in old(free))
      ensures NoHugeOnPath(tables, next, level - 1, virt)
      ensures |free| >= |old(free)| - 1
      ensures |free| - MissingTables(tables, next, level - 1, virt)
           == |old(free)| - old(MissingTables(tables, table, level, virt))
      ensures Grows(old(Spaces()), old(free), Spaces(), free)
    {
      var index := Index(level, virt);
      var entry := tables[table][index];
      if !entry.present {
        var nt := AllocFrame();
        var e := TableEntry(entry, nt);
        tables := tables[table := tables[table][index := e]][nt := ZeroTable()];
        owner := owner[nt := Child(owner[table], index)];
        assert Spaces() == LinkTable(old(Spaces()), table, index, e);
        AddedTable(old(Spaces()), old(free), table, level, virt, e);
      }
      next := tables[table][index].base;
    }

    /** `Valid` without the sharing of the kernel half, which `init_vm` sets up. */
    ghost predicate Booting()
      reads this
    {
      && Structured(Spaces())
      && free !! tables.Keys && FreeUnmapped(Spaces(), free)
      && forall f :: f in free ==> f < BASE_LIMIT
    }

    /** The kernel context maps nothing in the user half, as it does once the boot mappings are cleaned up. */
    ghost predicate Clean()
      reads this
    {
      NoUserHalf(tables, kernel)
    }

    method ReserveEntry(i: nat)
      requires Booting() && FIRST_KERNEL_INDEX <= i < ENTRIES && free != {}
      modifies this`tables, this`owner, this`free
      ensures Booting() && |free| >= |old(free)| - 1
      ensures KeepsView(old(Spaces()), Spaces())
      ensures Get(tables, kernel, i).present && (old(UserTablesOpen(Spaces())) ==> UserTablesOpen(Spaces()))
      ensures forall j :: 0 <= j < ENTRIES && j != i ==> Get(tables, kernel, j) == old(Get(tables, kernel, j))
    {
      var entry := tables[kernel][i];
      if !entry.present {
        ghost var s := Spaces();
        var page := AllocFrame();
        var e := Entry(true, entry.writeable, entry.userspace, entry.pat0, entry.pat1, false, page);
        LinkTableKeepsLookups(s, kernel, i, e);
        if UserTablesOpen(s) { LinkKeepsOpen(s, kernel, i, e); }
        tables := tables[kernel := tables[kernel][i := e]][page := ZeroTable()];
        owner := owner[page := Child(owner[kernel], i)];
        assert Spaces() == LinkTable(s, kernel, i, e);
        assert FreeUnmapped(Spaces(), free);
      }
    }

    /** The loop of `init_vm` that gives every kernel PML4 entry a table before any context is copied. */
    method ReserveKernelHalf()
      requires Booting() && |free| >= 256
      requires forall d :: IsContext(Spaces(), d) ==> d == kernel
      modifies this`tables, this`owner, this`free
      ensures Booting() && SharesKernelHalf(tables, kernel, kernel)
      ensures KeepsView(old(Spaces()), Spaces())
      ensures Valid() && (old(Clean()) ==> Clean()) && (old(UserTablesOpen(Spaces())) ==> UserTablesOpen(Spaces()))
    {
      for i := FIRST_KERNEL_INDEX to ENTRIES
        invariant Booting() && |free| >= ENTRIES - i
        invariant KeepsView(old(Spaces()), Spaces()) && (old(UserTablesOpen(Spaces())) ==> UserTablesOpen(Spaces()))
        invariant forall j :: FIRST_KERNEL_INDEX <= j < i ==> Get(tables, kernel, j).present
        invariant forall j :: 0 <= j < FIRST_KERNEL_INDEX ==> Get(tables, kernel, j) == old(Get(tables, kernel, j))
      {
        ReserveEntry(i);
      }
      assert forall d :: IsContext(Spaces(), d) ==> d == kernel;
      assert SharesKernelHalf(tables, kernel, kernel);
      assert Sharing(Spaces());
    }

    /** The three `vm_ensure_table` calls at the head of every mapping. */
    method EnsurePath(context: Frame, virt: nat) returns (pt: Frame, ghost frames: seq<Frame>)
      requires Valid() && Context(context)
      requires NoHugeOnPath(tables, context, 4, virt)
      requires |free| >= MissingTables(tables, context, 4, virt)
      modifies this`tables, this`owner, this`free
      ensures Valid()
      ensures |free| == |old(free)| - old(MissingTables(tables, context, 4, virt))
      ensures TablesFrom(old(tables), old(free), tables, free)
      ensures LeafTable(tables, context, 4, virt) == At(pt)
      ensures CanReach(old(Spaces()), context, 4, virt, frames)
      ensures Spaces() == WithPath(old(Spaces()), context, 4, virt, frames)
    {
      ghost var s0 := Spaces();
      var pdp := NextTable(context, 4, virt);
      ghost var s1 := Spaces();
      var pd := NextTable(pdp, 3, virt);
      ghost var s2 := Spaces();
      pt := NextTable(pd, 2, virt);
      assert OnPath(tables, context, virt, pdp, pd, pt);
      OnPathLeafTable(tables, context, virt, pdp, pd, pt);
      frames := ThreeSteps(s0, context, virt, pdp, s1, pd, s2, pt, Spaces());
    }

    /** The frames that became tables are a ghost result. */
    method Map(context: Frame, virt: nat, physical: nat, pat: nat) returns (ghost frames: seq<Frame>)
      requires Valid() && Context(context)
      requires NoHugeOnPath(tables, context, 4, virt)
      requires Leaf(physical, pat).base !in free
      requires |free| >= MissingTables(tables, context, 4, virt)
      modifies this`tables, this`owner, this`free
      ensures Valid()
      ensures |free| == |old(free)| - old(MissingTables(tables, context, 4, virt))
      ensures TablesFrom(old(tables), old(free), tables, free)
      ensures UpdatesPage(old(Spaces()), Spaces(), context, virt, Small(Leaf(physical, pat)))
      ensures var op := Op.Map(context, virt, Leaf(physical, pat), frames);
        CanDo(old(Spaces()), op) && Spaces() == After(old(Spaces()), op)
      ensures forall d, w :: Context(d) && Affects(context, virt, d, w) ==>
        ReadsAs(Lookup(tables, d, w), w, physical, pat)
    {
      frames := MapLeaf(context, virt, Leaf(physical, pat));
      MappedReadsAs(old(Spaces()), Spaces(), context, virt, physical, pat);
    }

    method MapLeaf(context: Frame, virt: nat, leaf: Entry) returns (ghost frames: seq<Frame>)
      requires Valid() && Context(context)
      requires NoHugeOnPath(tables, context, 4, virt)
      requires leaf.present && leaf.base !in free
      requires |free| >= MissingTables(tables, context, 4, virt)
      modifies this`tables, this`owner, this`free
      ensures Valid()
      ensures |free| == |old(free)| - old(MissingTables(tables, context, 4, virt))
      ensures TablesFrom(old(tables), old(free), tables, free)
      ensures UpdatesPage(old(Spaces()), Spaces(), context, virt, Small(leaf))
      ensures var op := Op.Map(context, virt, leaf, frames);
        CanDo(old(Spaces()), op) && Spaces() == After(old(Spaces()), op)
    {
      ghost var s0 := Spaces();
      var pt;
      pt, frames := EnsurePath(context, virt);
      ghost var goal := MappedByOp(s0, context, virt, frames, Spaces(), pt, leaf);
      PutLeaf(context, virt, pt, leaf);
      assert Spaces() == goal;
    }

    method Unmap(context: Frame, virt: nat)
      requires Valid() && Context(context)
      requires NoHugeOnPath(tables, context, 4, virt)
      modifies this`tables
      ensures Valid()
      ensures UpdatesPage(old(Spaces()), Spaces(), context, virt, Absent)
      ensures Spaces() == After(old(Spaces()), Op.Unmap(context, virt))
    {
      UnmapPageLaw(Spaces(), context, virt);
      var pml4_entry := tables[context][Index(4, virt)];
      if !pml4_entry.present { return; }
      var pdp := pml4_entry.base;
      var pdp_entry := tables[pdp][Index(3, virt)];
      if !pdp_entry.present { return; }
      var pd := pdp_entry.base;
      var pd_entry := tables[pd][Index(2, virt)];
      if !pd_entry.present { return; }
      var pt := pd_entry.base;
      var pt_entry := tables[pt][Index(1, virt)];
      assert OnPath(tables, context, virt, pdp, pd, pt);
      OnPathLeafTable(tables, context, virt, pdp, pd, pt);
      if !pt_entry.present { return; }
      PutLeaf(context, virt, pt, Cleared(pt_entry));
    }

    /** `vm_context_get_physical_for_virtual`: one walk, with an early answer for huge entries. */
    method Translate(context: Frame, virt: nat) returns (physical: nat)
      requires Valid() && Context(context)
      ensures DIRECT_MAPPING_START <= virt <= DIRECT_MAPPING_END ==> physical == virt - DIRECT_MAPPING_START
      ensures !(DIRECT_MAPPING_START <= virt <= DIRECT_MAPPING_END) ==>
                physical == PhysicalAddress(Lookup(tables, context, virt), virt)
    {
      if virt >= DIRECT_MAPPING_START && virt <= DIRECT_MAPPING_END { return virt - DIRECT_MAPPING_START; }
      var pml4_entry := tables[context][Index(4, virt)];
      if !pml4_entry.present { return 0; }
      var pdp_entry := tables[pml4_entry.base][Index(3, virt)];
      if !pdp_entry.present { return 0; }
      if pdp_entry.huge { return pdp_entry.base * 0x4000_0000 % 0x1_0000_0000_0000_0000 + virt % 0x4000_0000; }
      var pd_entry := tables[pdp_entry.base][Index(2, virt)];
      if !pd_entry.present { return 0; }
      if pd_entry.huge { return pd_entry.base * 0x20_0000 % 0x1_0000_0000_0000_0000 + virt % 0x20_0000; }
      var pt_entry := tables[pd_entry.base][Index(1, virt)];
      if !pt_entry.present { return 0; }
      return pt_entry.base * 0x1000 % 0x1_0000_0000_0000_0000 + virt % 0x1000;
    }

    method PagePresent(context: Frame, virt: nat) returns (present: bool)
      requires Valid() && Context(context)
      ensures present <==> !Lookup(tables, context, virt).Absent?
    {
      var pml4_entry := tables[context][Index(4, virt)];
      if !pml4_entry.present { return false; }
      var pdp_entry := tables[pml4_entry.base][Index(3, virt)];
      if !pdp_entry.present { return false; }
      if pdp_entry.huge { return true; }
      var pd_entry := tables[pdp_entry.base][Index(2, virt)];
      if !pd_entry.present { return false; }
      if pd_entry.huge { return true; }
      var pt_entry := tables[pd_entry.base][Index(1, virt)];
      return pt_entry.present;
    }

    method RunAbsent(context: Frame, virt: nat, num: nat) returns (absent: bool)
      requires Valid() && Context(context)
      ensures absent <==> AbsentRun(tables, context, virt, num)
    {
      for i := 0 to num
        invariant AbsentRun(tables, context, virt, i)
      {
        var present := PagePresent(context, Wrapped(PageAt(virt, i)));
        if present { return false; }
      }
      return true;
    }

    /** Whether a run of `num` pages fits at `virt`. */
    method FreeAt(context: Frame, virt: nat, num: nat) returns (fits: bool)
      requires Valid() && Context(context) && virt < 0x1_0000_0000_0000_0000
      ensures fits <==> virt in Spots(tables, context, num)
    {
      var present := PagePresent(context, virt);
      var enough := RunAbsent(context, virt, num);
      return !present && enough;
    }

    /** Where the search stops; it asks only that it stops at all. */
    method FindFree(context: Frame, start: nat, end: nat, num: nat) returns (found: nat, ghost k: nat)
      requires Valid() && Context(context)
      requires start < 0x1_0000_0000_0000_0000 && Ends(Spots(tables, context, num), start, end)
      ensures FirstStop(Spots(tables, context, num), start, end, k) && found == Outcome(start, end, k)
    {
      ghost var spots := Spots(tables, context, num);
      ghost var stop: nat :| Stops(spots, start, end, stop);
      var current := start;
      k := 0;
      while current <= end
        invariant current == Position(start, k) && k <= stop
        invariant forall j: nat :: j < k ==> !Stops(spots, start, end, j)
        decreases stop - k
      {
        var fits := FreeAt(context, current, num);
        if fits { return current, k; }
        NextPosition(start, k);
        assert !Stops(spots, start, end, k);
        current, k := Wrapped(current + 0x1000), k + 1;
      }
      return 0, k;
    }

    /** Maps a page to a frame from `mm_alloc_pages`. */
    method MapFreshFrame(context: Frame, virt: nat) returns (f: Frame, ghost frames: seq<Frame>)
      requires Valid() && Context(context)
      requires NoHugeOnPath(tables, context, 4, virt)
      requires |free| > MissingTables(tables, context, 4, virt)
      modifies this`tables, this`owner, this`free
      ensures Valid() && |free| == |old(free)| - 1 - old(MissingTables(tables, context, 4, virt))
      ensures f in old(free) && f !in free && f !in tables && f !in frames
      ensures TablesFrom(old(tables), old(free), tables, free)
      ensures UpdatesPage(old(Spaces()), Spaces(), context, virt, Small(FrameLeaf(f)))
      ensures CanReach(old(Spaces()), context, 4, virt, frames)
      ensures Spaces() == MapPage(old(Spaces()), context, virt, FrameLeaf(f), frames)
    {
      f := AllocFrame();
      FrameLeafAddress(f, virt);
      frames := Map(context, virt, f * 0x1000, 0);
      MappedFrames(old(Spaces()), context, virt, FrameLeaf(f), frames);
    }

    /** Maps absent pages to new frames; halts, and promises nothing, when frames run out. */
    method AllocPages(context: Frame, start: nat, end: nat, num: nat)
      returns (halted: bool, virt: nat, ghost k: nat, ghost frames: seq<Frame>, ghost ops: seq<Op>)
      requires Valid() && Context(context)
      requires start < 0x1_0000_0000_0000_0000 && num < 0x10_0000_0000
      requires Ends(Spots(tables, context, num), start, end)
      modifies this`tables, this`owner, this`free
      ensures |old(free)| >= 4 * num ==> !halted
      ensures !halted ==> Valid()
      ensures !halted ==> FirstStop(Spots(old(tables), context, num), start, end, k) && virt == Outcome(start, end, k)
      ensures !halted && virt == 0 ==> frames == [] && Spaces() == old(Spaces())
      ensures !halted && virt != 0 ==> |frames| == num && old(AbsentRun(tables, context, virt, num))
      ensures !halted ==> forall i :: 0 <= i < |frames| ==>
        frames[i] in old(free) && frames[i] !in free && frames[i] !in tables
      ensures !halted ==> forall i, j :: 0 <= i < j < |frames| ==> frames[i] != frames[j]
      ensures !halted ==> WritesRun(old(Spaces()), Spaces(), context, virt, frames)
      ensures !halted ==> Ran(old(Spaces()), ops, Spaces()) && MapsRun(ops, context, virt, frames)
      ensures !halted && old(Clean()) ==>
        (Clean() <==> context != kernel || virt == 0 || forall i :: 0 <= i < num ==> InKernelHalf(PageAt(virt, i)))
    {
      virt, k := FindFree(context, start, end, num);
      if virt == 0 { return false, 0, k, [], []; }
      halted, frames, ops := AllocRun(context, virt, num);
      if !halted && old(Clean()) { MapsRunUserHalfIff(old(Spaces()), ops, Spaces(), context, virt, frames); }
    }

    method AllocRun(context: Frame, virt: nat, num: nat)
      returns (halted: bool, ghost frames: seq<Frame>, ghost ops: seq<Op>)
      requires Valid() && Context(context) && num < 0x10_0000_0000 && AbsentRun(tables, context, virt, num)
      modifies this`tables, this`owner, this`free
      ensures |old(free)| >= 4 * num ==> !halted
      ensures !halted ==> Valid() && |frames| == num
      ensures !halted ==> Allotted(old(Spaces()), old(free), Spaces(), free, context, virt, frames, ops)
    {
      frames, ops := [], [];
      for i := 0 to num
        invariant |frames| == i && (|old(free)| >= 4 * num ==> |free| >= 4 * (num - i))
        invariant Valid() && Context(context)
        invariant Allotted(old(Spaces()), old(free), Spaces(), free, context, virt, frames, ops)
      {
        var stop, f;
        ghost var op, s, free1 := Op.Unmap(context, virt), Spaces(), free;
        stop, f, op := AllocNext(context, virt, i, num, old(Spaces()), old(free), frames);
        if stop { return true, frames, ops; }
        AllottedNext(old(Spaces()), old(free), s, free1, Spaces(), free, context, virt, frames, ops, f, op);
        frames, ops := frames + [f], ops + [op];
      }
      return false, frames, ops;
    }

    /** One round of the loop: the `i`-th page of the run gets a new frame. */
    method AllocNext(context: Frame, virt: nat, i: nat, num: nat, ghost s0: Space, ghost free0: set<Frame>,
                     ghost frames: seq<Frame>)
      returns (halted: bool, f: Frame, ghost op: Op)
      requires Valid() && Context(context) && |frames| == i < num < 0x10_0000_0000
      requires PageTables.Valid(s0) && IsContext(s0, context) && AbsentRun(s0.tables, context, virt, num)
      requires FreshRun(s0, free0, Spaces(), free, context, virt, frames)
      modifies this`tables, this`owner, this`free
      ensures |old(free)| >= 4 ==> !halted && |free| >= |old(free)| - 4
      ensures !halted ==> Valid() && Context(context)
      ensures !halted ==> FreshRun(s0, free0, Spaces(), free, context, virt, frames + [f])
      ensures !halted ==> DidOp(old(Spaces()), Some(op), Spaces()) && MapsPage(op, context, virt, i, f)
    {
      ghost var s1, free1 := Spaces(), free;
      var page := Wrapped(PageAt(virt, i));
      StillAbsent(s0, s1, context, virt, frames, num);
      AtMostThreeMissing(tables, context, 4, page);
      op := Op.Unmap(context, page);
      if |free| <= MissingTables(tables, context, 4, page) { return true, 0, op; }
      ghost var tableFrames;
      f, tableFrames := MapFreshFrame(context, page);
      op := Op.Map(context, page, FrameLeaf(f), tableFrames);
      UpdatesWrapped(s1, Spaces(), context, PageAt(virt, i), Small(FrameLeaf(f)));
      ExtendFreshRun(s0, free0, s1, free1, Spaces(), free, context, virt, frames, f);
      halted := false;
    }

    /** `vm_context_new`: a page from the kernel heap becomes a copy of the kernel's PML4. */
    method NewContext(start: nat, end: nat) returns (virt: nat, context: Frame, ghost frames: seq<Frame>)
      requires Valid() && Clean()
      requires DIRECT_MAPPING_END < start && start % 0x1000 == 0 && end < 0x1_0000_0000_0000_0000
      requires HasFit(Spots(tables, kernel, 1), start, end)
      requires |free| >= 4
      modifies this`tables, this`owner, this`free
      ensures Valid() && Clean()
      ensures context in old(free) && old(Lookup(tables, kernel, virt)).Absent? && start <= virt <= end
      ensures CreatesContext(old(Spaces()), Spaces(), virt, context)
      ensures var op := Op.Create(context, virt, frames);
        CanDo(old(Spaces()), op) && Spaces() == After(old(Spaces()), op)
    {
      virt := FindHeapPage(start, end);
      context, frames := MapHeapPage(virt);
      ghost var s := Spaces();
      CreatedByOp(old(Spaces()), context, virt, frames, s);
      CopyKernelTable(context);
    }

    /** The new frame becomes a copy of the kernel's PML4. */
    method CopyKernelTable(context: Frame)
      requires Valid() && context !in tables && context !in free && PageTables.Valid(AddContext(Spaces(), context))
      modifies this`tables, this`owner
      ensures Valid() && Spaces() == AddContext(old(Spaces()), context)
    {
      tables := tables[context := tables[kernel]];
      owner := owner[context := Root(context)];
      assert FreeUnmapped(Spaces(), free);
    }

    /** A new frame behind a page of the kernel half, found again through the mapping. */
    method MapHeapPage(virt: nat) returns (f: Frame, ghost frames: seq<Frame>)
      requires Valid() && Lookup(tables, kernel, virt).Absent? && |free| >= 4
      requires !(DIRECT_MAPPING_START <= virt <= DIRECT_MAPPING_END)
      modifies this`tables, this`owner, this`free
      ensures Valid() && f in old(free) && f !in free && f !in tables && f !in frames
      ensures UpdatesPage(old(Spaces()), Spaces(), kernel, virt, Small(FrameLeaf(f)))
      ensures CanReach(old(Spaces()), kernel, 4, virt, frames)
      ensures Spaces() == MapPage(old(Spaces()), kernel, virt, FrameLeaf(f), frames)
    {
      AbsentNoHuge(tables, kernel, 4, virt);
      AtMostThreeMissing(tables, kernel, 4, virt);
      ghost var mapped;
      mapped, frames := MapFreshFrame(kernel, virt);
      var physical := Translate(kernel, virt);
      f := physical / 0x1000;
      FrameLeafAddress(mapped, virt);
      assert Affects(kernel, virt, kernel, virt);
    }

    /** The first absent page of a region in the kernel half. */
    method FindHeapPage(start: nat, end: nat) returns (virt: nat)
      requires Valid() && Clean()
      requires DIRECT_MAPPING_END < start && start % 0x1000 == 0 && end < 0x1_0000_0000_0000_0000
      requires HasFit(Spots(tables, kernel, 1), start, end)
      ensures start <= virt <= end && InKernelHalf(virt) && Lookup(tables, kernel, virt).Absent?
    {
      ghost var spots, k := Spots(tables, kernel, 1), 0;
      BottomIsFree(tables, kernel, 1);
      SearchAboveFreeBottom(spots, start, end, 1, 0);
      virt, k := FindFree(kernel, start, end, 1);
      FindsFirstFit(spots, start, end, k);
      UpperAddress(virt);
    }

    ghost function Everything(): World
      reads this
    {
      World(Spaces(), free, data)
    }

    /** One level of the cached walk: the tables on record, or a fresh look at both contexts. */
    method StepLevel(dst: Frame, src: Frame, level: nat, i: nat, cached: bool, dstCached: Frame, srcCached: Reached,
                     ghost srcTable: Frame)
      returns (dstNext: Frame, srcNext: Reached)
      requires Valid() && 2 <= level <= 4
      requires dst in tables && src in tables && Level(owner[dst]) == Level(owner[src]) == level
      requires NoHugeOnPath(tables, dst, level, i) && Link(tables, src, level, i, srcTable)
      requires cached ==> Link(tables, dst, level, i, dstCached) && srcCached == At(srcTable)
      requires |free| >= level - 1
      modifies this`tables, this`owner, this`free
      ensures Valid() && |free| >= |old(free)| - 1
      ensures Grows(old(Spaces()), old(free), Spaces(), free)
      ensures Link(tables, dst, level, i, dstNext) && dstNext in tables && Level(owner[dstNext]) == level - 1
      ensures NoHugeOnPath(tables, dstNext, level - 1, i)
      ensures srcNext == At(srcTable)
      ensures StepTo(old(Spaces()), dst, level, i, dstNext, Spaces())
    {
      if cached { return dstCached, srcCached; }
      AtMostThreeMissing(tables, dst, level, i);
      dstNext := NextTable(dst, level, i);
      srcNext := At(tables[src][Index(level, i)].base);
    }

    /** Brings the cache to page `i`, visiting only the levels whose index changed since the page before. */
    method UpdateCache(dst: Frame, src: Frame, i: nat, cache: Cache, ghost prev: nat,
                       ghost sp: Frame, ghost sd: Frame, ghost st: Frame)
      returns (c: Cache, ghost frames: seq<Frame>)
      requires Valid() && Context(dst) && Context(src)
      requires cache == NO_CACHE || (i == prev + 0x1000 && CacheFor(tables, dst, src, cache, prev))
      requires OnPath(tables, src, i, sp, sd, st)
      requires NoHugeOnPath(tables, dst, 4, i)
      requires |free| >= 3
      modifies this`tables, this`owner, this`free
      ensures Valid() && |free| >= |old(free)| - 3
      ensures Grows(old(Spaces()), old(free), Spaces(), free)
      ensures CacheFor(tables, dst, src, c, i) && c.srcPt.table == st
      ensures CanReach(old(Spaces()), dst, 4, i, frames) && Spaces() == WithPath(old(Spaces()), dst, 4, i, frames)
    {
      if cache != NO_CACHE { CachedLinks(tables, dst, src, cache, prev, i, sp, sd, st); }
      ghost var s0, free0 := Spaces(), free;
      var dstPdp, srcPdp, dstPd, srcPd;
      ghost var s1;
      dstPdp, srcPdp, dstPd, srcPd, s1 := UpdateUpper(dst, src, i, cache, sp, sd, st);
      ghost var s2, free2 := Spaces(), free;
      OnPathKept(s0, s2, src, i, sp, sd, st);
      OnPathKept(s2, s2, src, i, sp, sd, st);
      var pd := Index(2, i);
      var same := cache.srcPt.At? && pd == cache.pd;
      var dstPt, srcPt := StepLevel(dstPd, srcPd.table, 2, i, same, cache.dstPt, cache.srcPt, st);
      OnPathKept(s2, Spaces(), src, i, sp, sd, st);
      GrowsTransitive(s0, free0, s2, free2, Spaces(), free);
      frames := ThreeSteps(s0, dst, i, dstPdp, s1, dstPd, s2, dstPt, Spaces());
      c := Cache(srcPdp, srcPd, srcPt, dstPdp, dstPd, dstPt, Index(4, i), Index(3, i), pd);
    }

    /** The two upper levels of the cached walk. */
    method UpdateUpper(dst: Frame, src: Frame, i: nat, cache: Cache, ghost sp: Frame, ghost sd: Frame, ghost st: Frame)
      returns (dstPdp: Frame, srcPdp: Reached, dstPd: Frame, srcPd: Reached, ghost s1: Space)
      requires Valid() && Context(dst) && Context(src) && |free| >= 3
      requires CachedFor(tables, dst, cache, i, sp, sd, st)
      requires OnPath(tables, src, i, sp, sd, st) && NoHugeOnPath(tables, dst, 4, i)
      modifies this`tables, this`owner, this`free
      ensures Valid() && |free| >= |old(free)| - 2
      ensures Grows(old(Spaces()), old(free), Spaces(), free)
      ensures Link(tables, dst, 4, i, dstPdp) && Link(tables, dstPdp, 3, i, dstPd) && NoHugeOnPath(tables, dstPd, 2, i)
      ensures dstPdp in tables && Level(owner[dstPdp]) == 3 && dstPd in tables && Level(owner[dstPd]) == 2
      ensures srcPdp == At(sp) && srcPd == At(sd)
      ensures StepTo(old(Spaces()), dst, 4, i, dstPdp, s1) && StepTo(s1, dstPdp, 3, i, dstPd, Spaces())
    {
      ghost var s0, free0 := Spaces(), free;
      OnPathKept(s0, s0, src, i, sp, sd, st);
      var same := cache.srcPdp.At? && Index(4, i) == cache.pml4;
      dstPdp, srcPdp := StepLevel(dst, src, 4, i, same, cache.dstPdp, cache.srcPdp, sp);
      ghost var free1 := free;
      s1 := Spaces();
      OnPathKept(s0, s1, src, i, sp, sd, st);
      same := cache.srcPd.At? && Index(3, i) == cache.pdp;
      dstPd, srcPd := StepLevel(dstPdp, srcPdp.table, 3, i, same, cache.dstPd, cache.srcPd, sd);
      GrowsTransitive(s0, free0, s1, free1, Spaces(), free);
    }

    /** Gives `dst` its own copy of the page that `src` maps at `i`, if there is one. */
    method CopyLeaf(dst: Frame, src: Frame, i: nat, cache: Cache, ghost w0: World, ghost from: nat)
      returns (ghost op: Option<Op>)
      requires Valid() && Context(dst) && Context(src) && CacheFor(tables, dst, src, cache, i) && free != {}
      requires Copied(w0, Everything(), dst, src, from, i) && IsContext(w0.s, dst) && IsContext(w0.s, src)
      requires from <= i && i % 0x1000 == 0 && i < USER_END
      requires Lookup(w0.s.tables, dst, i).Absent? && Lookup(w0.s.tables, src, i) == Lookup(tables, src, i)
      requires PageTables.Valid(w0.s) && FreeUnmapped(w0.s, w0.free)
      modifies this`tables, this`free, this`data
      ensures Valid() && |free| >= |old(free)| - 1
      ensures KeepsLinks(old(Spaces()), Spaces())
      ensures Copied(w0, Everything(), dst, src, from, i + 0x1000)
      ensures DidOp(old(Spaces()), op, Spaces()) && (op.Some? ==> op.value.Map? && op.value.c == dst && op.value.v == i)
    {
      ghost var w1 := Everything();
      op := None;
      CachedLeaves(w1.s, dst, src, cache, i);
      var e := tables[cache.srcPt.table][Index(1, i)];
      if !e.present {
        CopiedAbsentPage(w0, w1, dst, src, from, i);
        return;
      }
      MappedNotFree(w0.s, w0.free, src, i);
      op := CopyFrame(dst, src, i, cache.dstPt, e, w0, from);
    }

    /** A new frame with the contents of the source's, mapped with the source's flags. */
    method CopyFrame(dst: Frame, src: Frame, i: nat, pt: Frame, e: Entry, ghost w0: World, ghost from: nat)
      returns (ghost op: Option<Op>)
      requires Valid() && Context(dst) && LeafTable(tables, dst, 4, i) == At(pt) && free != {}
      requires Copied(w0, Everything(), dst, src, from, i) && IsContext(w0.s, dst)
      requires from <= i && i % 0x1000 == 0 && i < USER_END
      requires e.present && Lookup(w0.s.tables, src, i) == Small(e) && e.base !in w0.free
      modifies this`tables, this`free, this`data
      ensures Valid() && |free| >= |old(free)| - 1
      ensures KeepsLinks(old(Spaces()), Spaces())
      ensures Copied(w0, Everything(), dst, src, from, i + 0x1000)
      ensures DidOp(old(Spaces()), op, Spaces()) && op.Some? && op.value.Map? && op.value.c == dst && op.value.v == i
    {
      ghost var w1 := Everything();
      var f := AllocFrame();
      op := Some(Op.Map(dst, i, e.(base := f), []));
      WrittenByOp(Spaces(), dst, i, pt, e.(base := f));
      WriteLeaf(dst, i, pt, e.(base := f));
      data := data[f := Read(data, e.base)];
      CopiedPage(w0, w1, Everything(), dst, src, from, i, e, f);
    }

    /** One round of the copy loop. */
    method CopyPage(dst: Frame, src: Frame, i: nat, cache: Cache, ghost w0: World, ghost from: nat, ghost to: nat,
                    ghost prev: nat, ghost before: seq<Op>)
      returns (c: Cache, ghost ops: seq<Op>)
      requires Valid() && Context(dst) && |free| >= 4
      requires InProgress(w0, Everything(), dst, src, from, to, i, cache, prev, before)
      requires PageTables.Valid(w0.s) && FreeUnmapped(w0.s, w0.free) && IsContext(w0.s, dst) && IsContext(w0.s, src)
      requires from <= i < to && i % 0x1000 == 0 && i < USER_END
      requires LeafTable(w0.s.tables, src, 4, i).At? && Lookup(w0.s.tables, dst, i).Absent?
      modifies this`tables, this`owner, this`free, this`data
      ensures Valid() && |free| >= |old(free)| - 4
      ensures InProgress(w0, Everything(), dst, src, from, to, i + 0x1000, c, i, ops)
    {
      PageStart(i, i);
      assert !InRange(from, i, i);
      ghost var sp, sd, st := PathAfter(w0.s, before, Spaces(), src, i);
      AbsentNoHuge(tables, dst, 4, i);
      ghost var w1 := Everything();
      ghost var frames;
      c, frames := UpdateCache(dst, src, i, cache, prev, sp, sd, st);
      ghost var w2 := Everything();
      CopiedEnsure(w0, w1, w2, dst, src, from, i);
      ghost var op := CopyLeaf(dst, src, i, c, w0, from);
      ops := PageCopied(w0.s, before, w1.s, dst, from, to, i, frames, w2.s, op, Spaces());
      CacheKept(w2.s, Spaces(), dst, src, c, i);
    }

    /** `vm_copy_range` where every table above the range exists in `src` and `dst` maps nothing in it yet. */
    method CopyRange(dst: Frame, src: Frame, addr: nat, size: nat) returns (ghost ops: seq<Op>)
      requires Valid() && Context(dst) && Context(src)
      requires addr % 0x1000 == 0 && addr + size <= USER_END
      requires Copyable(tables, dst, src, addr, addr + size)
      requires |free| >= 4 * ((size + 0xFFF) / 0x1000)
      modifies this`tables, this`owner, this`free, this`data
      ensures Valid() && Copied(old(Everything()), Everything(), dst, src, addr, addr + size)
      ensures Ran(old(Spaces()), ops, Spaces()) && StaysIn(ops, dst, addr, addr + size)
    {
      ghost var w0, k := Everything(), 0;
      NothingCopied(w0, dst, src, addr, addr + size);
      k, ops := CopyLoop(dst, src, addr, size, w0, (size + 0xFFF) / 0x1000);
      CopiedWholeRange(w0, Everything(), dst, src, addr, addr + size, PageAt(addr, k), k);
    }

    /** The loop over the `n` pages of the range. */
    method CopyLoop(dst: Frame, src: Frame, addr: nat, size: nat, ghost w0: World, ghost n: nat)
      returns (ghost k: nat, ghost ops: seq<Op>)
      requires Valid() && addr % 0x1000 == 0 && addr + size <= USER_END
      requires addr + size <= PageAt(addr, n) && |free| >= 4 * n
      requires CanCopy(w0, dst, src, addr, addr + size)
      requires InProgress(w0, Everything(), dst, src, addr, addr + size, addr, NO_CACHE, 0, [])
      modifies this`tables, this`owner, this`free, this`data
      ensures Valid() && addr + size <= PageAt(addr, k) && k <= n
      ensures Copied(w0, Everything(), dst, src, addr, PageAt(addr, k))
      ensures Ran(w0.s, ops, Spaces()) && StaysIn(ops, dst, addr, addr + size)
    {
      ghost var prev: nat, w := 0, Everything();
      var cache := NO_CACHE;
      var i := addr;
      k, ops := 0, [];
      while i < addr + size
        invariant Valid() && w == Everything() && i == PageAt(addr, k) && k <= n && |free| >= 4 * (n - k)
        invariant InProgress(w0, w, dst, src, addr, addr + size, i, cache, prev, ops)
      {
        cache, w, ops := CopyNext(dst, src, addr, size, i, cache, w0, k, n, prev, w, ops);
        prev, i, k := i, i + 0x1000, k + 1;
      }
    }

    /** The copy of the `k`-th page of `n`, with four frames at hand for every page to come. */
    method CopyNext(dst: Frame, src: Frame, addr: nat, size: nat, i: nat, cache: Cache, ghost w0: World,
                    ghost k: nat, ghost n: nat, ghost prev: nat, ghost w: World, ghost before: seq<Op>)
      returns (c: Cache, ghost w': World, ghost ops: seq<Op>)
      requires Valid() && w == Everything() && i == PageAt(addr, k) < addr + size <= USER_END && addr % 0x1000 == 0
      requires CanCopy(w0, dst, src, addr, addr + size)
      requires addr + size <= PageAt(addr, n) && k <= n && |free| >= 4 * (n - k)
      requires InProgress(w0, w, dst, src, addr, addr + size, i, cache, prev, before)
      modifies this`tables, this`owner, this`free, this`data
      ensures Valid() && w' == Everything() && k < n && |free| >= 4 * (n - (k + 1))
      ensures InProgress(w0, w', dst, src, addr, addr + size, i + 0x1000, c, i, ops)
    {
      PageOfRange(w0.s.tables, dst, src, addr, size, k, n);
      c, ops := CopyPage(dst, src, i, cache, w0, addr, addr + size, prev, before);
      w' := Everything();
    }

    method WriteLeaf(context: Frame, virt: nat, pt: Frame, e: Entry)
      requires Valid() && Context(context)
      requires LeafTable(tables, context, 4, virt) == At(pt)
      requires e.present ==> e.base !in free
      modifies this`tables
      ensures Valid() && tables.Keys == old(tables.Keys) && KeepsLinks(old(Spaces()), Spaces())
      ensures UpdatesPage(old(Spaces()), Spaces(), context, virt, if e.present then Small(e) else Absent)
      ensures pt in old(tables) && Index(1, virt) < |old(tables)[pt]|
      ensures Spaces() == SetEntry(old(Spaces()), pt, Index(1, virt), e)
    {
      LeafWriteUpdatesPage(Spaces(), context, virt, pt, e);
      PutLeaf(context, virt, pt, e);
    }

    method PutLeaf(context: Frame, virt: nat, pt: Frame, e: Entry)
      requires Valid() && Context(context)
      requires LeafTable(tables, context, 4, virt) == At(pt)
      requires e.present ==> e.base !in free
      modifies this`tables
      ensures Valid() && pt in old(tables) && Index(1, virt) < |old(tables)[pt]|
      ensures Spaces() == SetEntry(old(Spaces()), pt, Index(1, virt), e)
    {
      LeafTableOwner(Spaces(), context, 4, virt);
      SetLeafValid(Spaces(), pt, Index(1, virt), e);
      tables := tables[pt := tables[pt][Index(1, virt) := e]];
      assert FreeUnmapped(Spaces(), free);
    }
  }
}
