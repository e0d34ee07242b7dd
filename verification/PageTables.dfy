/**
  Four-level page tables as a radix tree in a heap of frames, and the proof
  that writing one leaf of that tree updates exactly one page of a flat map.

  A `Space` holds every paging table of the machine, keyed by the physical frame
  it lives in. `owner` records, for the proof, which node of which context's
  tree a frame implements. Tables below PML4 entries 256-511 belong to no
  single context: they are shared by all of them.
 */
module PageTables {

  type Frame = nat

  const ENTRIES: nat := 512
  const FIRST_KERNEL_INDEX: nat := 256

  datatype Entry = Entry(present: bool, writeable: bool, userspace: bool,
                         pat0: bool, pat1: bool, huge: bool, base: Frame)

  const ZERO_ENTRY := Entry(false, false, false, false, false, false, 0)

  type Tables = map<Frame, seq<Entry>>

  /** What a walk finds: a 4 KiB leaf, a leaf at a higher level, or nothing. */
  datatype Hit = Absent | Small(e: Entry) | Huge(level: nat, e: Entry)

  // --- Addresses ---

  function Shift(level: nat): (s: nat)
    requires 1 <= level <= 4
    ensures s > 0
  {
    if level == 1 then 0x1000
    else if level == 2 then 0x20_0000
    else if level == 3 then 0x4000_0000
    else 0x80_0000_0000
  }

  /** The index an address selects in a table of the given level (PT is 1, PML4 is 4). */
  function Index(level: nat, v: nat): (i: nat)
    requires 1 <= level <= 4
    ensures i < ENTRIES
  {
    (v / Shift(level)) % ENTRIES
  }

  /** The 36-bit page number that the four indices of an address encode. */
  function PageNumber(v: nat): nat {
    (v / 0x1000) % 0x10_0000_0000
  }

  predicate InKernelHalf(v: nat) {
    Index(4, v) >= FIRST_KERNEL_INDEX
  }

  predicate SameIndices(v: nat, w: nat) {
    Index(1, v) == Index(1, w) && Index(2, v) == Index(2, w) && Index(3, v) == Index(3, w) && Index(4, v) == Index(4, w)
  }

  /** All four indices together identify exactly one 4 KiB page of the 48-bit address space. */
  lemma SameIndicesIffSamePage(v: nat, w: nat)
    ensures SameIndices(v, w) <==> PageNumber(v) == PageNumber(w)
  {
    IndicesOfPage(v);
    IndicesOfPage(w);
    if PageNumber(v) == PageNumber(w) {
      var high, high' := Index(3, v) + 512 * Index(4, v), Index(3, w) + 512 * Index(4, w);
      SameDigit(Index(1, v), Index(2, v) + 512 * high, Index(1, w), Index(2, w) + 512 * high');
      SameDigit(Index(2, v), high, Index(2, w), high');
      SameDigit(Index(3, v), Index(4, v), Index(3, w), Index(4, w));
    }
  }

  lemma SameDigit(a: nat, x: nat, b: nat, y: nat)
    requires a < 512 && b < 512 && a + 512 * x == b + 512 * y
    ensures a == b && x == y
  {
  }

  lemma IndicesOfPage(v: nat)
    ensures PageNumber(v) == Index(1, v) + 512 * Index(2, v) + 0x4_0000 * Index(3, v) + 0x800_0000 * Index(4, v)
  {
    ShiftsNest(v);
    var n := v / 0x1000;
    LowDigit36(n);
    LowDigit27(n / 512);
    LowDigit18(n / 512 / 512);
  }

  lemma ShiftsNest(v: nat)
    ensures v / 0x20_0000 == v / 0x1000 / 512
    ensures v / 0x4000_0000 == v / 0x1000 / 512 / 512
    ensures v / 0x80_0000_0000 == v / 0x1000 / 512 / 512 / 512
  {
    NextShift21(v);
    NextShift30(v);
    NextShift39(v);
  }

  lemma NextShift21(v: nat)
    ensures v / 0x20_0000 == v / 0x1000 / 512
  {
  }

  lemma NextShift30(v: nat)
    ensures v / 0x4000_0000 == v / 0x20_0000 / 512
  {
  }

  lemma NextShift39(v: nat)
    ensures v / 0x80_0000_0000 == v / 0x4000_0000 / 512
  {
  }

  lemma LowDigit36(n: nat)
    ensures n % 0x10_0000_0000 == n % 512 + 512 * (n / 512 % 0x800_0000)
  {
  }

  lemma LowDigit27(n: nat)
    ensures n % 0x800_0000 == n % 512 + 512 * (n / 512 % 0x4_0000)
  {
  }

  lemma LowDigit18(n: nat)
    ensures n % 0x4_0000 == n % 512 + 512 * (n / 512 % 512)
  {
  }

  // --- Walking ---

  /** A table entry; frames that hold no table read as zeroes. */
  function Get(t: Tables, f: Frame, i: nat): Entry
    requires i < ENTRIES
  {
    if f in t && i < |t[f]| then t[f][i] else ZERO_ENTRY
  }

  /** The walk from a table of the given level; huge entries stop it below the PML4. */
  function Walk(t: Tables, f: Frame, level: nat, v: nat): Hit
    requires 1 <= level <= 4
    decreases level
  {
    var e := Get(t, f, Index(level, v));
    if !e.present then Absent
    else if level == 1 then Small(e)
    else if level < 4 && e.huge then Huge(level, e)
    else Walk(t, e.base, level - 1, v)
  }

  function Lookup(t: Tables, context: Frame, v: nat): Hit {
    Walk(t, context, 4, v)
  }

  /** The frame of the level 1 table a walk ends in, whether or not its leaf is present. */
  datatype Reached = Nowhere | At(table: Frame)

  function LeafTable(t: Tables, f: Frame, level: nat, v: nat): Reached
    requires 1 <= level <= 4
    decreases level
  {
    if level == 1 then At(f)
    else
      var e := Get(t, f, Index(level, v));
      if !e.present || (level < 4 && e.huge) then Nowhere else LeafTable(t, e.base, level - 1, v)
  }

  /** No table on the way to `v` is replaced by a huge page. */
  predicate NoHugeOnPath(t: Tables, f: Frame, level: nat, v: nat)
    requires 1 <= level <= 4
    decreases level
  {
    level == 1 ||
    var e := Get(t, f, Index(level, v));
    (e.present ==> !(level < 4 && e.huge) && NoHugeOnPath(t, e.base, level - 1, v))
  }

  // --- The shape of the tree ---

  datatype Half = Kernel | User(context: Frame)
  datatype Node = Root(context: Frame) | Inner(half: Half, path: seq<nat>)

  datatype Space = Space(tables: Tables, owner: map<Frame, Node>, kernel: Frame)

  function Level(n: Node): int {
    match n
    case Root(_) => 4
    case Inner(_, path) => 4 - |path|
  }

  function Child(n: Node, i: nat): Node {
    match n
    case Root(c) => Inner(if i >= FIRST_KERNEL_INDEX then Kernel else User(c), [i])
    case Inner(h, path) => Inner(h, path + [i])
  }

  predicate Interior(level: int, e: Entry) {
    level >= 2 && e.present && (level == 4 || !e.huge)
  }

  ghost predicate Shaped(s: Space) {
    && s.tables.Keys == s.owner.Keys
    && (forall f :: f in s.tables ==> |s.tables[f]| == ENTRIES && 1 <= Level(s.owner[f]) <= 4)
    && (forall f :: f in s.owner && s.owner[f].Root? ==> s.owner[f].context == f)
    && s.kernel in s.owner && s.owner[s.kernel].Root?
  }

  /** Every interior entry leads to the table that its position in the tree names. */
  ghost predicate Linked(s: Space)
    requires Shaped(s)
  {
    forall f, i :: f in s.tables && 0 <= i < ENTRIES && Interior(Level(s.owner[f]), s.tables[f][i]) ==>
      var b := s.tables[f][i].base;
      b in s.owner && s.owner[b] == Child(s.owner[f], i)
  }

  ghost predicate NoStaleHuge(s: Space)
    requires Shaped(s)
  {
    forall f, i :: f in s.tables && 0 <= i < ENTRIES && Level(s.owner[f]) >= 2 && !s.tables[f][i].present ==>
      !s.tables[f][i].huge
  }

  /** Entry `i` of table `g` leads to the table in `f`. */
  ghost predicate HeldBy(s: Space, f: Frame, g: Frame, i: nat)
    requires Shaped(s)
  {
    g in s.tables && i < ENTRIES && Interior(Level(s.owner[g]), s.tables[g][i]) && s.tables[g][i].base == f
  }

  ghost predicate Held(s: Space, f: Frame)
    requires Shaped(s)
  {
    exists g, i :: HeldBy(s, f, g, i)
  }

  /** No table is lost: some entry leads to every table but the contexts' own. */
  ghost predicate Rooted(s: Space)
    requires Shaped(s)
  {
    forall f {:trigger Held(s, f)} :: f in s.owner && !s.owner[f].Root? ==> Held(s, f)
  }

  /** A context holds the kernel's PML4 entries 256-511, all of them present. */
  ghost predicate SharesKernelHalf(t: Tables, kernel: Frame, c: Frame) {
    forall i :: FIRST_KERNEL_INDEX <= i < ENTRIES ==> Get(t, c, i).present && Get(t, c, i) == Get(t, kernel, i)
  }

  ghost predicate NoUserHalf(t: Tables, c: Frame) {
    forall i :: 0 <= i < FIRST_KERNEL_INDEX ==> !Get(t, c, i).present
  }

  ghost predicate Sharing(s: Space)
    requires Shaped(s)
  {
    forall c :: IsContext(s, c) ==> SharesKernelHalf(s.tables, s.kernel, c)
  }

  ghost predicate IsContext(s: Space, c: Frame)
    requires Shaped(s)
  {
    c in s.owner && s.owner[c].Root?
  }

  /** The trees are well formed; contexts need not share anything yet. */
  ghost predicate Structured(s: Space) {
    Shaped(s) && Linked(s) && NoStaleHuge(s) && Rooted(s)
  }

  ghost predicate Valid(s: Space) {
    Structured(s) && Sharing(s)
  }

  // --- Operations on values ---

  function ZeroTable(): (t: seq<Entry>)
    ensures |t| == ENTRIES && forall i :: 0 <= i < ENTRIES ==> t[i] == ZERO_ENTRY
  {
    seq(ENTRIES, i => ZERO_ENTRY)
  }

  function SetEntry(s: Space, f: Frame, i: nat, e: Entry): Space
    requires f in s.tables && i < |s.tables[f]|
  {
    Space(s.tables[f := s.tables[f][i := e]], s.owner, s.kernel)
  }

  /** A new, empty table behind an entry that was absent. */
  function LinkTable(s: Space, f: Frame, i: nat, e: Entry): Space
    requires f in s.tables && f in s.owner && i < |s.tables[f]|
  {
    Space(s.tables[f := s.tables[f][i := e]][e.base := ZeroTable()], s.owner[e.base := Child(s.owner[f], i)], s.kernel)
  }

  ghost predicate CanLink(s: Space, f: Frame, i: nat, e: Entry) {
    && Structured(s)
    && f in s.tables && i < ENTRIES && Level(s.owner[f]) >= 2 && !s.tables[f][i].present
    && e.present && !e.huge && e.base !in s.tables
  }

  lemma KeepsSharing(s: Space, s': Space)
    requires Shaped(s) && Shaped(s') && Sharing(s) && s.kernel == s'.kernel
    requires forall c :: IsContext(s', c) ==> IsContext(s, c)
    requires forall c, i :: IsContext(s, c) && FIRST_KERNEL_INDEX <= i < ENTRIES ==>
               Get(s'.tables, c, i) == Get(s.tables, c, i)
    ensures Sharing(s')
  {
    forall c | IsContext(s', c)
      ensures SharesKernelHalf(s'.tables, s'.kernel, c)
    {
      assert IsContext(s, c) && IsContext(s, s.kernel) && SharesKernelHalf(s.tables, s.kernel, c);
    }
  }

  lemma LinkTableStructured(s: Space, f: Frame, i: nat, e: Entry)
    requires CanLink(s, f, i, e)
    ensures Structured(LinkTable(s, f, i, e))
  {
    var s' := LinkTable(s, f, i, e);
    assert Shaped(s');
    assert Linked(s');
    assert NoStaleHuge(s');
    forall g | g in s'.owner && !s'.owner[g].Root?
      ensures Held(s', g)
    {
      if g == e.base {
        assert HeldBy(s', g, f, i);
      } else {
        assert Held(s, g);
        var h, j :| HeldBy(s, g, h, j);
        assert HeldBy(s', g, h, j);
      }
    }
  }

  lemma LinkTableValid(s: Space, f: Frame, i: nat, e: Entry)
    requires CanLink(s, f, i, e) && Sharing(s)
    ensures Valid(LinkTable(s, f, i, e))
  {
    LinkTableStructured(s, f, i, e);
    assert IsContext(s, f) ==> Get(s.tables, f, i).present || i < FIRST_KERNEL_INDEX;
    KeepsSharing(s, LinkTable(s, f, i, e));
  }

  /** Adding an empty table changes the result of no walk. */
  lemma {:induction false} LinkTableKeepsWalk(s: Space, f: Frame, i: nat, e: Entry, g: Frame, level: nat, v: nat)
    requires CanLink(s, f, i, e)
    requires g in s.tables && 1 <= level == Level(s.owner[g])
    ensures Walk(LinkTable(s, f, i, e).tables, g, level, v) == Walk(s.tables, g, level, v)
    decreases level
  {
    var s' := LinkTable(s, f, i, e);
    var old_e := Get(s.tables, g, Index(level, v));
    if g == f && Index(level, v) == i {
      assert Get(s'.tables, e.base, Index(level - 1, v)) == ZERO_ENTRY;
    } else if Interior(level, old_e) {
      LinkTableKeepsWalk(s, f, i, e, old_e.base, level - 1, v);
    }
  }

  /** Writing a leaf entry is seen by exactly the walks that end in that table at that index. */
  lemma {:induction false} SetLeafWalk(s: Space, pt: Frame, i: nat, e: Entry, g: Frame, level: nat, v: nat)
    requires Valid(s)
    requires pt in s.tables && Level(s.owner[pt]) == 1 && i < ENTRIES
    requires g in s.tables && 1 <= level == Level(s.owner[g])
    ensures Walk(SetEntry(s, pt, i, e).tables, g, level, v)
         == if LeafTable(s.tables, g, level, v) == At(pt) && Index(1, v) == i
            then (if e.present then Small(e) else Absent)
            else Walk(s.tables, g, level, v)
    decreases level
  {
    var old_e := Get(s.tables, g, Index(level, v));
    if level > 1 && Interior(level, old_e) {
      SetLeafWalk(s, pt, i, e, old_e.base, level - 1, v);
    }
  }

  lemma SetLeafValid(s: Space, pt: Frame, i: nat, e: Entry)
    requires Valid(s)
    requires pt in s.tables && Level(s.owner[pt]) == 1 && i < ENTRIES
    ensures Valid(SetEntry(s, pt, i, e))
  {
    var s' := SetEntry(s, pt, i, e);
    assert forall f :: f in s.tables && f != pt ==> s'.tables[f] == s.tables[f];
    assert Shaped(s');
    assert Linked(s');
    assert NoStaleHuge(s');
    forall g | g in s'.owner && !s'.owner[g].Root?
      ensures Held(s', g)
    {
      assert Held(s, g);
      var h, j :| HeldBy(s, g, h, j);
      assert HeldBy(s', g, h, j);
    }
    KeepsSharing(s, s');
  }

  /** The tree node an address selects below the node `n` of the given level. */
  function Descend(n: Node, level: nat, v: nat): Node
    requires 1 <= level <= 4
    decreases level
  {
    if level == 1 then n else Descend(Child(n, Index(level, v)), level - 1, v)
  }

  lemma {:induction false} LeafTableOwner(s: Space, g: Frame, level: nat, v: nat)
    requires Valid(s)
    requires g in s.tables && 1 <= level == Level(s.owner[g])
    requires LeafTable(s.tables, g, level, v).At?
    ensures var pt := LeafTable(s.tables, g, level, v).table;
            pt in s.tables && Level(s.owner[pt]) == 1 && s.owner[pt] == Descend(s.owner[g], level, v)
    decreases level
  {
    if level > 1 {
      var e := Get(s.tables, g, Index(level, v));
      LeafTableOwner(s, e.base, level - 1, v);
    }
  }

  function HalfOf(c: Frame, v: nat): Half {
    if InKernelHalf(v) then Kernel else User(c)
  }

  lemma DescendFromRoot(c: Frame, v: nat)
    ensures Descend(Root(c), 4, v) == Inner(HalfOf(c, v), [Index(4, v), Index(3, v), Index(2, v)])
  {
    var n3 := Child(Root(c), Index(4, v));
    var n2 := Child(n3, Index(3, v));
    var n1 := Child(n2, Index(2, v));
    assert Descend(Root(c), 4, v) == Descend(n3, 3, v) == Descend(n2, 2, v) == Descend(n1, 1, v) == n1;
    assert n2.path == [Index(4, v), Index(3, v)];
    assert n1.path == [Index(4, v), Index(3, v), Index(2, v)];
  }

  /** A level 1 table is reached by one index path only: from one context, or from all through the kernel half. */
  lemma LeafTablePathUnique(s: Space, c: Frame, v: nat, d: Frame, w: nat)
    requires Valid(s) && IsContext(s, c) && IsContext(s, d)
    requires LeafTable(s.tables, c, 4, v).At?
    requires LeafTable(s.tables, c, 4, v) == LeafTable(s.tables, d, 4, w)
    ensures Index(4, v) == Index(4, w) && Index(3, v) == Index(3, w) && Index(2, v) == Index(2, w)
    ensures InKernelHalf(v) || c == d
  {
    LeafTableOwner(s, c, 4, v);
    LeafTableOwner(s, d, 4, w);
    DescendFromRoot(c, v);
    DescendFromRoot(d, w);
    var p := [Index(4, v), Index(3, v), Index(2, v)];
    var q := [Index(4, w), Index(3, w), Index(2, w)];
    assert p == q;
    assert p[0] == q[0] && p[1] == q[1] && p[2] == q[2];
  }

  // --- Index paths ---

  /** The table that a path of indices leads to, from a table of the given level. */
  function TableAt(t: Tables, f: Frame, level: nat, path: seq<nat>): Reached
    requires |path| < level <= 4 && forall k :: 0 <= k < |path| ==> path[k] < ENTRIES
    decreases level
  {
    if path == [] then At(f)
    else
      var e := Get(t, f, path[0]);
      if Interior(level, e) then TableAt(t, e.base, level - 1, path[1..]) else Nowhere
  }

  predicate IsPath(path: seq<nat>) {
    |path| < 4 && forall k :: 0 <= k < |path| ==> path[k] < ENTRIES
  }

  /** The tree node at the end of a path. */
  function NodeAt(n: Node, path: seq<nat>): Node
    decreases |path|
  {
    if path == [] then n else NodeAt(Child(n, path[0]), path[1..])
  }

  lemma {:induction false} TableAtOwner(s: Space, f: Frame, level: nat, path: seq<nat>)
    requires Structured(s) && f in s.tables && level == Level(s.owner[f]) && IsPath(path) && |path| < level
    requires TableAt(s.tables, f, level, path).At?
    ensures var g := TableAt(s.tables, f, level, path).table;
            g in s.tables && Level(s.owner[g]) == level - |path| && s.owner[g] == NodeAt(s.owner[f], path)
    decreases level
  {
    if path != [] {
      TableAtOwner(s, Get(s.tables, f, path[0]).base, level - 1, path[1..]);
    }
  }

  lemma {:induction false} InnerNodeAt(h: Half, before: seq<nat>, path: seq<nat>)
    ensures NodeAt(Inner(h, before), path) == Inner(h, before + path)
    decreases |path|
  {
    if path == [] {
      assert before + path == before;
    } else {
      InnerNodeAt(h, before + [path[0]], path[1..]);
      assert before + [path[0]] + path[1..] == before + path;
    }
  }

  lemma RootNodeAt(c: Frame, path: seq<nat>)
    requires path != []
    ensures NodeAt(Root(c), path) == Inner(if path[0] >= FIRST_KERNEL_INDEX then Kernel else User(c), path)
  {
    InnerNodeAt(if path[0] >= FIRST_KERNEL_INDEX then Kernel else User(c), [path[0]], path[1..]);
    assert [path[0]] + path[1..] == path;
  }

  /** Two paths to one table are the same path, from the same context unless it leads through the kernel half. */
  lemma PathUnique(s: Space, c: Frame, p: seq<nat>, d: Frame, q: seq<nat>)
    requires Structured(s) && IsContext(s, c) && IsContext(s, d) && IsPath(p) && IsPath(q)
    requires TableAt(s.tables, c, 4, p).At? && TableAt(s.tables, c, 4, p) == TableAt(s.tables, d, 4, q)
    ensures p == q && (c == d || (p != [] && p[0] >= FIRST_KERNEL_INDEX))
  {
    TableAtOwner(s, c, 4, p);
    TableAtOwner(s, d, 4, q);
    if p != [] { RootNodeAt(c, p); }
    if q != [] { RootNodeAt(d, q); }
  }

  lemma {:induction false} TableAtNext(t: Tables, f: Frame, level: nat, path: seq<nat>, i: nat)
    requires |path| + 1 < level <= 4 && i < ENTRIES && IsPath(path) && TableAt(t, f, level, path).At?
    requires Interior(level - |path|, Get(t, TableAt(t, f, level, path).table, i))
    ensures TableAt(t, f, level, path + [i]) == At(Get(t, TableAt(t, f, level, path).table, i).base)
    decreases level
  {
    if path == [] {
      assert path + [i] == [i] && [i][1..] == [];
    } else {
      assert (path + [i])[1..] == path[1..] + [i];
      TableAtNext(t, Get(t, f, path[0]).base, level - 1, path[1..], i);
    }
  }

  /** Every table is at the end of a path from some context. */
  lemma {:induction false} PathExists(s: Space, f: Frame) returns (c: Frame, p: seq<nat>)
    requires Structured(s) && f in s.tables
    ensures IsContext(s, c) && IsPath(p) && TableAt(s.tables, c, 4, p) == At(f)
    decreases 4 - Level(s.owner[f])
  {
    if s.owner[f].Root? {
      c, p := f, [];
    } else {
      assert Held(s, f);
      var g, i :| HeldBy(s, f, g, i);
      assert s.owner[f] == Child(s.owner[g], i);
      c, p := PathExists(s, g);
      TableAtOwner(s, c, 4, p);
      assert Level(s.owner[f]) == 4 - (|p| + 1);
      TableAtNext(s.tables, c, 4, p, i);
      p := p + [i];
    }
  }

  /** A path that leads through the kernel half leads to the same table from every context. */
  lemma KernelPathShared(s: Space, c: Frame, d: Frame, p: seq<nat>)
    requires Valid(s) && IsContext(s, c) && IsContext(s, d) && IsPath(p) && p != [] && p[0] >= FIRST_KERNEL_INDEX
    ensures TableAt(s.tables, c, 4, p) == TableAt(s.tables, d, 4, p)
  {
    assert Get(s.tables, c, p[0]) == Get(s.tables, s.kernel, p[0]) == Get(s.tables, d, p[0]);
  }

  /**
    Every table of every level is reached by exactly one path: from one context,
    or from all through the kernel half.
   */
  lemma EveryTableHasOnePath(s: Space, f: Frame) returns (c: Frame, p: seq<nat>)
    requires Valid(s) && f in s.tables
    ensures IsContext(s, c) && IsPath(p)
    ensures forall d, q :: IsContext(s, d) && IsPath(q) ==>
      (TableAt(s.tables, d, 4, q) == At(f) <==> q == p && (d == c || (p != [] && p[0] >= FIRST_KERNEL_INDEX)))
  {
    c, p := PathExists(s, f);
    forall d, q | IsContext(s, d) && IsPath(q)
      ensures TableAt(s.tables, d, 4, q) == At(f) <==> q == p && (d == c || (p != [] && p[0] >= FIRST_KERNEL_INDEX))
    {
      if TableAt(s.tables, d, 4, q) == At(f) {
        PathUnique(s, c, p, d, q);
      } else if q == p && p != [] && p[0] >= FIRST_KERNEL_INDEX {
        KernelPathShared(s, c, d, p);
      }
    }
  }

  lemma {:induction false} SameIndicesSameLeafTable(t: Tables, g: Frame, level: nat, v: nat, w: nat)
    requires 1 <= level <= 4
    requires SameIndices(v, w)
    ensures LeafTable(t, g, level, v) == LeafTable(t, g, level, w)
    ensures Walk(t, g, level, v) == Walk(t, g, level, w)
    decreases level
  {
    assert Index(level, v) == Index(level, w);
    if level > 1 {
      SameIndicesSameLeafTable(t, Get(t, g, Index(level, v)).base, level - 1, v, w);
    }
  }

  /** Kernel half walks do not depend on the context they start from. */
  lemma KernelHalfShared(s: Space, c: Frame, d: Frame, v: nat)
    requires Valid(s) && IsContext(s, c) && IsContext(s, d) && InKernelHalf(v)
    ensures Lookup(s.tables, c, v) == Lookup(s.tables, d, v)
    ensures LeafTable(s.tables, c, 4, v) == LeafTable(s.tables, d, 4, v)
  {
    assert Get(s.tables, c, Index(4, v)) == Get(s.tables, s.kernel, Index(4, v)) == Get(s.tables, d, Index(4, v));
  }

  /** Whether writing page `v` through context `c` is meant to be seen at `w` through `d`. */
  predicate Affects(c: Frame, v: nat, d: Frame, w: nat) {
    PageNumber(v) == PageNumber(w) && (c == d || InKernelHalf(v))
  }

  /** The flat map law: one leaf write updates one page, in one context or in all of them. */
  lemma SetLeafLookup(s: Space, c: Frame, v: nat, pt: Frame, e: Entry, d: Frame, w: nat)
    requires Valid(s) && IsContext(s, c) && IsContext(s, d)
    requires LeafTable(s.tables, c, 4, v).At?
    requires pt == LeafTable(s.tables, c, 4, v).table
    ensures pt in s.tables && Level(s.owner[pt]) == 1
    ensures Lookup(SetEntry(s, pt, Index(1, v), e).tables, d, w)
         == if Affects(c, v, d, w) then (if e.present then Small(e) else Absent) else Lookup(s.tables, d, w)
  {
    LeafTableOwner(s, c, 4, v);
    SetLeafWalk(s, pt, Index(1, v), e, d, 4, w);
    SameIndicesIffSamePage(v, w);
    if Affects(c, v, d, w) {
      SameIndicesSameLeafTable(s.tables, d, 4, v, w);
      if c != d { KernelHalfShared(s, c, d, v); }
    } else if LeafTable(s.tables, d, 4, w) == At(pt) && Index(1, w) == Index(1, v) {
      LeafTablePathUnique(s, c, v, d, w);
    }
  }

  /** An absent page has no huge page above it. */
  lemma {:induction false} AbsentNoHuge(t: Tables, g: Frame, level: nat, v: nat)
    requires 1 <= level <= 4
    requires Walk(t, g, level, v) == Absent
    ensures NoHugeOnPath(t, g, level, v)
    decreases level
  {
    var e := Get(t, g, Index(level, v));
    if level > 1 && e.present { AbsentNoHuge(t, e.base, level - 1, v); }
  }

  /** How many tables a mapping of `v` has to add. */
  function MissingTables(t: Tables, g: Frame, level: nat, v: nat): nat
    requires 1 <= level <= 4
    decreases level
  {
    if level == 1 then 0
    else
      var e := Get(t, g, Index(level, v));
      if e.present then MissingTables(t, e.base, level - 1, v) else level - 1
  }

  /** An added table leaves every page of every context alone. */
  lemma LinkTableKeepsLookups(s: Space, f: Frame, i: nat, e: Entry)
    requires CanLink(s, f, i, e)
    ensures Structured(LinkTable(s, f, i, e))
    ensures forall d :: IsContext(LinkTable(s, f, i, e), d) <==> IsContext(s, d)
    ensures forall d, w :: IsContext(s, d) ==> Lookup(LinkTable(s, f, i, e).tables, d, w) == Lookup(s.tables, d, w)
  {
    LinkTableStructured(s, f, i, e);
    forall d, w | IsContext(s, d)
      ensures Lookup(LinkTable(s, f, i, e).tables, d, w) == Lookup(s.tables, d, w)
    {
      LinkTableKeepsWalk(s, f, i, e, d, 4, w);
    }
  }

  /** The three tables on the way from a context to the leaf table of `v`. */
  predicate OnPath(t: Tables, c: Frame, v: nat, pdp: Frame, pd: Frame, pt: Frame) {
    && Link(t, c, 4, v, pdp)
    && Link(t, pdp, 3, v, pd)
    && Link(t, pd, 2, v, pt)
  }

  predicate Link(t: Tables, f: Frame, level: nat, v: nat, next: Frame)
    requires 2 <= level <= 4
  {
    var e := Get(t, f, Index(level, v));
    e.present && (level == 4 || !e.huge) && e.base == next
  }

  lemma OnPathLeafTable(t: Tables, c: Frame, v: nat, pdp: Frame, pd: Frame, pt: Frame)
    requires OnPath(t, c, v, pdp, pd, pt)
    ensures LeafTable(t, c, 4, v) == At(pt)
  {
    assert LeafTable(t, c, 4, v) == LeafTable(t, pdp, 3, v) == LeafTable(t, pd, 2, v) == LeafTable(t, pt, 1, v);
  }

  /** A new context that starts as a copy of the kernel's table. */
  function AddContext(s: Space, f: Frame): Space
    requires s.kernel in s.tables
  {
    Space(s.tables[f := s.tables[s.kernel]], s.owner[f := Root(f)], s.kernel)
  }

  lemma {:induction false} AddContextKeepsWalk(s: Space, f: Frame, g: Frame, level: nat, v: nat)
    requires Valid(s) && f !in s.tables
    requires g in s.tables && 1 <= level == Level(s.owner[g])
    ensures Walk(AddContext(s, f).tables, g, level, v) == Walk(s.tables, g, level, v)
    decreases level
  {
    var e := Get(s.tables, g, Index(level, v));
    assert Get(AddContext(s, f).tables, g, Index(level, v)) == e;
    if Interior(level, e) {
      AddContextKeepsWalk(s, f, e.base, level - 1, v);
    }
  }

  lemma AddContextValid(s: Space, f: Frame)
    requires Valid(s) && f !in s.tables && NoUserHalf(s.tables, s.kernel)
    ensures Valid(AddContext(s, f))
  {
    var s' := AddContext(s, f);
    assert IsContext(s, s.kernel) && SharesKernelHalf(s.tables, s.kernel, s.kernel);
    forall i | 0 <= i < ENTRIES && s.tables[s.kernel][i].present
      ensures Child(Root(f), i) == Child(Root(s.kernel), i)
    {
      assert Get(s.tables, s.kernel, i).present;
    }
    assert Shaped(s');
    assert Linked(s');
    assert NoStaleHuge(s');
    forall g | g in s'.owner && !s'.owner[g].Root?
      ensures Held(s', g)
    {
      assert Held(s, g);
      var h, j :| HeldBy(s, g, h, j);
      assert HeldBy(s', g, h, j);
    }
    forall c | IsContext(s', c)
      ensures SharesKernelHalf(s'.tables, s'.kernel, c)
    {
      var b := if c == f then s.kernel else c;
      assert IsContext(s, b) && SharesKernelHalf(s.tables, s.kernel, b);
      assert forall i :: 0 <= i < ENTRIES ==> Get(s'.tables, c, i) == Get(s.tables, b, i);
      assert forall i :: 0 <= i < ENTRIES ==> Get(s'.tables, s.kernel, i) == Get(s.tables, s.kernel, i);
    }
  }

  /** A new context sees the kernel's pages and no others; no other context notices. */
  lemma AddContextLookup(s: Space, f: Frame, d: Frame, w: nat)
    requires Valid(s) && f !in s.tables && IsContext(s, d)
    ensures Lookup(AddContext(s, f).tables, d, w) == Lookup(s.tables, d, w)
    ensures Lookup(AddContext(s, f).tables, f, w) == Lookup(s.tables, s.kernel, w)
  {
    AddContextKeepsWalk(s, f, d, 4, w);
    AddContextKeepsWalk(s, f, s.kernel, 4, w);
    assert Get(AddContext(s, f).tables, f, Index(4, w)) == Get(AddContext(s, f).tables, s.kernel, Index(4, w));
  }

  /** Copying the kernel's table makes a context of its own exactly when the kernel maps nothing in the user half. */
  lemma AddContextValidIff(s: Space, f: Frame)
    requires Valid(s) && f !in s.tables
    ensures Valid(AddContext(s, f)) <==> NoUserHalf(s.tables, s.kernel)
  {
    if NoUserHalf(s.tables, s.kernel) {
      AddContextValid(s, f);
    } else if Valid(AddContext(s, f)) {
      var i :| 0 <= i < FIRST_KERNEL_INDEX && Get(s.tables, s.kernel, i).present;
      TableHasOneContext(s, f, i);
      assert false;
    }
  }

  lemma TableHasOneContext(s: Space, f: Frame, i: nat)
    requires Valid(s) && f !in s.tables && i < FIRST_KERNEL_INDEX && Get(s.tables, s.kernel, i).present
    ensures !Linked(AddContext(s, f))
  {
    var s' := AddContext(s, f);
    var b := s.tables[s.kernel][i].base;
    assert Interior(Level(s.owner[s.kernel]), s.tables[s.kernel][i]);
    assert Interior(Level(s'.owner[f]), s'.tables[f][i]);
    assert s'.owner[b] == Child(Root(s.kernel), i) != Child(Root(f), i);
  }

  /** A context copied from a kernel that maps user pages shares those tables: a write for one is seen by both. */
  lemma CopiedUserHalfIsShared(s: Space, f: Frame, v: nat, pt: Frame, e: Entry)
    requires Valid(s) && f !in s.tables && LeafTable(s.tables, s.kernel, 4, v) == At(pt) && e.present
    ensures var s1 := AddContext(s, f);
      && pt in s1.tables && Index(1, v) < |s1.tables[pt]|
      && var s2 := SetEntry(s1, pt, Index(1, v), e);
         Lookup(s2.tables, f, v) == Lookup(s2.tables, s.kernel, v) == Small(e)
  {
    SetLeafLookup(s, s.kernel, v, pt, e, s.kernel, v);
    SetLeafValid(s, pt, Index(1, v), e);
    AddContextLookup(SetEntry(s, pt, Index(1, v), e), f, s.kernel, v);
    SetThenAdd(s, f, pt, Index(1, v), e);
  }

  lemma SetThenAdd(s: Space, f: Frame, pt: Frame, i: nat, e: Entry)
    requires Shaped(s) && f !in s.tables && pt in s.tables && Level(s.owner[pt]) == 1 && i < ENTRIES
    ensures pt in AddContext(s, f).tables && i < |AddContext(s, f).tables[pt]|
    ensures SetEntry(AddContext(s, f), pt, i, e).tables == AddContext(SetEntry(s, pt, i, e), f).tables
  {
    assert pt != s.kernel && pt != f;
  }
}
