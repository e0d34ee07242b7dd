/**
  Whole runs of mapping, unmapping and context creation: the tables stay well
  formed, and every context reads as a flat map that remembers, for each page,
  the last write that concerned it.
 */
module AddressSpaceRuns {
  import opened Basics
  import opened PageTables
  import opened FlatView
  import opened AddressSpaces

  /** Each operation is possible where it comes up. Only the first state is assumed to be well formed. */
  ghost predicate CanRun(s: Space, ops: seq<Op>)
    requires PageTables.Valid(s)
    decreases |ops|, 0
  {
    ops == [] || (CanRun(s, ops[..|ops| - 1]) && CanDo(Run(s, ops[..|ops| - 1]), ops[|ops| - 1]))
  }

  ghost function Run(s: Space, ops: seq<Op>): (s': Space)
    requires PageTables.Valid(s) && CanRun(s, ops)
    ensures PageTables.Valid(s')
    decreases |ops|, 1
  {
    if ops == [] then s
    else
      AfterLaw(Run(s, ops[..|ops| - 1]), ops[|ops| - 1]);
      After(Run(s, ops[..|ops| - 1]), ops[|ops| - 1])
  }

  /** The flat map: how `d` sees `w` after the operations, given what `start` looked like. */
  function View(start: Space, ops: seq<Op>, d: Frame, w: nat): Hit {
    if ops == [] then Lookup(start.tables, d, w)
    else
      var last, before := ops[|ops| - 1], ops[..|ops| - 1];
      match last
      case Prepare(_, _, _) => View(start, before, d, w)
      case Map(c, v, leaf, _) => if Affects(c, v, d, w) then Small(leaf) else View(start, before, d, w)
      case Unmap(c, v) => if Affects(c, v, d, w) then Absent else View(start, before, d, w)
      case Create(c, v, _) =>
        var seen := if d == c then start.kernel else d;
        if Affects(start.kernel, v, seen, w) then Small(FrameLeaf(c)) else View(start, before, seen, w)
  }

  lemma {:induction false} KernelKept(s: Space, ops: seq<Op>)
    requires PageTables.Valid(s) && CanRun(s, ops)
    ensures Run(s, ops).kernel == s.kernel
    decreases |ops|
  {
    if ops != [] {
      var n := |ops| - 1;
      KernelKept(s, ops[..n]);
      AfterLaw(Run(s, ops[..n]), ops[n]);
    }
  }

  /** The tables refine the flat map over every run. */
  lemma {:induction false} RunRefinesFlatMap(s: Space, ops: seq<Op>, d: Frame, w: nat)
    requires PageTables.Valid(s) && CanRun(s, ops) && IsContext(Run(s, ops), d)
    ensures Lookup(Run(s, ops).tables, d, w) == View(s, ops, d, w)
    decreases |ops|
  {
    if ops != [] {
      var n := |ops| - 1;
      var before := Run(s, ops[..n]);
      AfterLaw(before, ops[n]);
      KernelKept(s, ops[..n]);
      var seen := SeenBefore(before, ops[n], Run(s, ops), d, w);
      RunRefinesFlatMap(s, ops[..n], seen, w);
    }
  }

  /** One operation on the flat map: what `d` sees at `w` was just written, or seen before by `d` or by the kernel. */
  lemma SeenBefore(s: Space, op: Op, s': Space, d: Frame, w: nat) returns (seen: Frame)
    requires Shaped(s) && Shaped(s') && Does(s, op, s') && IsContext(s', d)
    ensures seen == (if op.Create? && d == op.c then s.kernel else d) && IsContext(s, seen)
    ensures Lookup(s'.tables, d, w) ==
      match op
      case Prepare(_, _, _) => Lookup(s.tables, d, w)
      case Map(c, v, leaf, _) => if Affects(c, v, d, w) then Small(leaf) else Lookup(s.tables, d, w)
      case Unmap(c, v) => if Affects(c, v, d, w) then Absent else Lookup(s.tables, d, w)
      case Create(c, v, _) => if Affects(s.kernel, v, seen, w) then Small(FrameLeaf(c)) else Lookup(s.tables, seen, w)
  {
    seen := if op.Create? && d == op.c then s.kernel else d;
  }

  /** After every run, all contexts agree on the whole kernel half. */
  lemma KernelHalfAgreesForever(s: Space, ops: seq<Op>, c: Frame, d: Frame, w: nat)
    requires PageTables.Valid(s) && CanRun(s, ops) && InKernelHalf(w)
    requires IsContext(Run(s, ops), c) && IsContext(Run(s, ops), d)
    ensures Lookup(Run(s, ops).tables, c, w) == Lookup(Run(s, ops).tables, d, w)
  {
    KernelHalfShared(Run(s, ops), c, d, w);
  }

  /** User half pages of a context change only through that context itself. */
  lemma {:induction false} UserHalfIsPrivate(s: Space, ops: seq<Op>, d: Frame, w: nat)
    requires PageTables.Valid(s) && CanRun(s, ops) && IsContext(s, d) && !InKernelHalf(w)
    requires forall k :: 0 <= k < |ops| && (ops[k].Map? || ops[k].Unmap?) ==>
      ops[k].c != d || PageNumber(ops[k].v) != PageNumber(w)
    ensures IsContext(Run(s, ops), d)
    ensures Lookup(Run(s, ops).tables, d, w) == Lookup(s.tables, d, w)
    decreases |ops|
  {
    if ops != [] {
      var n := |ops| - 1;
      UserHalfIsPrivate(s, ops[..n], d, w);
      AfterLaw(Run(s, ops[..n]), ops[n]);
      OthersDoNotShow(Run(s, ops[..n]), ops[n], Run(s, ops), d, w);
    }
  }

  lemma OthersDoNotShow(s: Space, op: Op, s': Space, d: Frame, w: nat)
    requires Shaped(s) && Shaped(s') && Does(s, op, s') && IsContext(s, d) && !InKernelHalf(w)
    requires op.Map? || op.Unmap? ==> op.c != d || PageNumber(op.v) != PageNumber(w)
    ensures IsContext(s', d) && Lookup(s'.tables, d, w) == Lookup(s.tables, d, w)
  {
    SameIndicesIffSamePage(op.v, w);
  }

  /** A context starts with an empty user half, whatever others have mapped. */
  lemma NewContextUserHalfEmpty(s: Space, c: Frame, v: nat, frames: seq<Frame>, w: nat)
    requires PageTables.Valid(s) && CanDo(s, Create(c, v, frames)) && !InKernelHalf(w)
    ensures Lookup(After(s, Create(c, v, frames)).tables, c, w).Absent?
  {
    MapPageLaw(s, s.kernel, v, FrameLeaf(c), frames);
    MapPageFrame(s, s.kernel, v, FrameLeaf(c), frames);
    var s1 := MapPage(s, s.kernel, v, FrameLeaf(c), frames);
    assert !Get(s1.tables, s1.kernel, Index(4, w)).present;
  }

  /** The kernel's user half is empty after a run exactly when it was before and no operation filled it. */
  lemma {:induction false} UserHalfEmptyIff(s: Space, ops: seq<Op>)
    requires PageTables.Valid(s) && CanRun(s, ops)
    ensures NoUserHalf(Run(s, ops).tables, s.kernel) <==>
      NoUserHalf(s.tables, s.kernel) && NeverFilled(s.kernel, ops)
    decreases |ops|
  {
    if ops != [] {
      var n := |ops| - 1;
      UserHalfEmptyIff(s, ops[..n]);
      KernelKept(s, ops[..n]);
      AfterUserHalfIff(Run(s, ops[..n]), ops[n]);
      NeverFilledLast(s.kernel, ops);
    }
  }

  predicate NeverFilled(kernel: Frame, ops: seq<Op>) {
    forall k :: 0 <= k < |ops| ==> !FillsUserHalf(kernel, ops[k])
  }

  lemma NeverFilledLast(kernel: Frame, ops: seq<Op>)
    requires ops != []
    ensures NeverFilled(kernel, ops) <==>
      NeverFilled(kernel, ops[..|ops| - 1]) && !FillsUserHalf(kernel, ops[|ops| - 1])
  {
    assert forall k :: 0 <= k < |ops| - 1 ==> ops[..|ops| - 1][k] == ops[k];
  }

  /** The operations lead from one state to the other. */
  ghost predicate Ran(s: Space, ops: seq<Op>, s': Space) {
    PageTables.Valid(s) && CanRun(s, ops) && s' == Run(s, ops)
  }

  lemma RunAndOne(s: Space, ops: seq<Op>, s1: Space, op: Op)
    requires Ran(s, ops, s1) && CanDo(s1, op)
    ensures Ran(s, ops + [op], After(s1, op))
  {
    assert (ops + [op])[..|ops|] == ops;
  }

  /** The operations map the pages from `v` on to the given frames, one by one. */
  predicate MapsRun(ops: seq<Op>, c: Frame, v: nat, frames: seq<Frame>) {
    && |ops| == |frames|
    && forall i :: 0 <= i < |ops| ==> MapsPage(ops[i], c, v, i, frames[i])
  }

  predicate MapsPage(op: Op, c: Frame, v: nat, i: nat, f: Frame) {
    op.Map? && op.c == c && op.v == Wrapped(PageAt(v, i)) && op.leaf == FrameLeaf(f)
  }

  /** A run of pages was mapped to free frames by these operations. */
  ghost predicate Allotted(s: Space, free: set<Frame>, s': Space, free': set<Frame>, c: Frame, v: nat,
                           frames: seq<Frame>, ops: seq<Op>)
  {
    FreshRun(s, free, s', free', c, v, frames) && Ran(s, ops, s') && MapsRun(ops, c, v, frames)
  }

  lemma AllottedNext(s: Space, free: set<Frame>, s1: Space, free1: set<Frame>, s2: Space, free2: set<Frame>, c: Frame,
                     v: nat, frames: seq<Frame>, ops: seq<Op>, f: Frame, op: Op)
    requires Allotted(s, free, s1, free1, c, v, frames, ops)
    requires FreshRun(s, free, s2, free2, c, v, frames + [f])
    requires DidOp(s1, Some(op), s2) && MapsPage(op, c, v, |frames|, f)
    ensures Allotted(s, free, s2, free2, c, v, frames + [f], ops + [op])
  {
    RunAndOne(s, ops, s1, op);
  }

  /** Mapping a run of pages keeps the kernel's user half empty exactly when none of them lies in it. */
  lemma MapsRunUserHalfIff(s: Space, ops: seq<Op>, s': Space, c: Frame, v: nat, frames: seq<Frame>)
    requires Ran(s, ops, s') && MapsRun(ops, c, v, frames) && NoUserHalf(s.tables, s.kernel)
    ensures NoUserHalf(s'.tables, s.kernel) <==>
      c != s.kernel || forall i :: 0 <= i < |frames| ==> InKernelHalf(PageAt(v, i))
  {
    UserHalfEmptyIff(s, ops);
    forall i | 0 <= i < |frames|
      ensures FillsUserHalf(s.kernel, ops[i]) <==> c == s.kernel && !InKernelHalf(PageAt(v, i))
    {
      assert MapsPage(ops[i], c, v, i, frames[i]);
      WrappedPage(PageAt(v, i));
    }
  }

  lemma {:induction false} RunKeepsLinks(s: Space, ops: seq<Op>)
    requires PageTables.Valid(s) && CanRun(s, ops)
    ensures KeepsLinks(s, Run(s, ops))
    decreases |ops|
  {
    if ops != [] {
      var s1 := Run(s, ops[..|ops| - 1]);
      RunKeepsLinks(s, ops[..|ops| - 1]);
      AfterKeepsLinks(s1, ops[|ops| - 1]);
      KeepsLinksTransitive(s, s1, Run(s, ops));
    }
  }

  /** At most one operation leads from one state to the other. */
  ghost predicate DidOp(s: Space, op: Option<Op>, s': Space) {
    PageTables.Valid(s) &&
    match op
    case None => s' == s
    case Some(o) => CanDo(s, o) && s' == After(s, o)
  }

  /** The operations add tables and map pages in one context and one range only. */
  predicate StaysIn(ops: seq<Op>, c: Frame, from: nat, to: nat) {
    forall i :: 0 <= i < |ops| ==> (ops[i].Prepare? || ops[i].Map?) && ops[i].c == c && from <= ops[i].v < to
  }

  /** Copying a page prepares the way to it, and maps it if there is something to map. */
  lemma PageCopied(s: Space, ops: seq<Op>, s1: Space, c: Frame, from: nat, to: nat, v: nat,
                   frames: seq<Frame>, s2: Space, op: Option<Op>, s3: Space)
    returns (ops': seq<Op>)
    requires Ran(s, ops, s1) && StaysIn(ops, c, from, to) && from <= v < to && PageTables.Valid(s1) && IsContext(s1, c)
    requires CanReach(s1, c, 4, v, frames) && s2 == WithPath(s1, c, 4, v, frames)
    requires DidOp(s2, op, s3) && (op.Some? ==> op.value.Map? && op.value.c == c && op.value.v == v)
    ensures Ran(s, ops', s3) && StaysIn(ops', c, from, to)
  {
    ops' := ops + [Prepare(c, v, frames)];
    RunStaysIn(s, ops, s1, Prepare(c, v, frames), c, from, to);
    if op.Some? {
      RunStaysIn(s, ops', s2, op.value, c, from, to);
      ops' := ops' + [op.value];
    }
  }

  lemma RunStaysIn(s: Space, ops: seq<Op>, s1: Space, op: Op, c: Frame, from: nat, to: nat)
    requires Ran(s, ops, s1) && StaysIn(ops, c, from, to) && PageTables.Valid(s1) && CanDo(s1, op)
    requires (op.Prepare? || op.Map?) && op.c == c && from <= op.v < to
    ensures Ran(s, ops + [op], After(s1, op)) && StaysIn(ops + [op], c, from, to)
  {
    RunAndOne(s, ops, s1, op);
  }

  /** After every run, every table is reached by exactly one path of indices. */
  lemma EveryTableHasOnePathForever(s: Space, ops: seq<Op>, f: Frame) returns (c: Frame, p: seq<nat>)
    requires PageTables.Valid(s) && CanRun(s, ops) && f in Run(s, ops).tables
    ensures IsContext(Run(s, ops), c) && IsPath(p)
    ensures forall d, q :: IsContext(Run(s, ops), d) && IsPath(q) ==>
      (TableAt(Run(s, ops).tables, d, 4, q) == At(f)
       <==> q == p && (d == c || (p != [] && p[0] >= FIRST_KERNEL_INDEX)))
  {
    c, p := EveryTableHasOnePath(Run(s, ops), f);
  }
}
