/**
  The image under construction: the table in memory, the allocation hints and
  the data area of the output file.
 */
module FatImages {
  import opened Basics
  import opened FatLayout
  import opened FatChains

  class Image {
    const clusterSize: nat
    const fat: array<nat>
    var lastAllocated: nat
    var free: nat
    /** What was written to the data area, by offset. */
    var disk: map<nat, seq<byte>>

    ghost var chains: Chains
    ghost var files: Files

    ghost predicate Valid()
      reads this, fat
    {
      Consistent(clusterSize, fat[..], free, disk, chains, files)
    }

    constructor (clusters: nat, sectorSize: nat)
      requires SectorSize(sectorSize) && clusters + 2 <= END
      ensures Valid() && clusterSize == sectorSize && fresh(fat) && fat.Length == clusters + 2
      ensures chains == map[] && free == clusters
    {
      clusterSize := sectorSize;
      fat := new nat[clusters + 2](i => if i == 0 then 0xFFFFFFF8 else if i == 1 then 0x0FFFFFFF else 0);
      lastAllocated := 1;
      free := clusters;
      disk, chains, files := map[], map[], map[];
      new;
      FreeCountEmpty(fat[..]);
    }

    /** The nearest free cluster from the hint on, or else the first one of all, or none if none is free. */
    method FindFree() returns (r: Option<nat>)
      ensures r.None? <==> forall c :: 0 <= c < fat.Length ==> fat[c] != 0
      ensures r.Some? ==>
        && r.value < fat.Length && fat[r.value] == 0
        && (forall c :: lastAllocated <= c < fat.Length && (c < r.value || r.value < lastAllocated) ==> fat[c] != 0)
        && (r.value < lastAllocated ==> forall c :: 0 <= c < r.value ==> fat[c] != 0)
    {
      var c := lastAllocated;
      while c < fat.Length
        invariant c >= lastAllocated
        invariant forall d :: lastAllocated <= d < c && d < fat.Length ==> fat[d] != 0
      {
        if fat[c] == 0 { return Some(c); }
        c := c + 1;
      }
      c := 0;
      while c < fat.Length
        invariant 0 <= c <= fat.Length
        invariant forall d :: 0 <= d < c ==> fat[d] != 0
      {
        if fat[c] == 0 { return Some(c); }
        c := c + 1;
      }
      return None;
    }

    method AllocateCluster() returns (r: Option<nat>)
      requires Valid()
      ensures r.None? <==> free == 0
      ensures r.Some? ==> 2 <= r.value < fat.Length && fat[r.value] == 0 && r.value !in chains
    {
      r := FindFree();
      FreeCountZero(fat[..]);
      assert forall c :: 0 <= c < fat.Length ==> fat[..][c] == fat[c];
      if r.Some? { NewChain(fat[..], chains, r.value); }
    }

    /** Mark cluster `c` used, if it is not yet, and hang it behind `prev`, if there is one. */
    method Mark(prev: nat, c: nat)
      requires prev < fat.Length && c < fat.Length && (fat[c] == 0 ==> free > 0)
      modifies `lastAllocated, `free, fat
      ensures fat[..] == Attach(old(fat[..]), prev, c)
      ensures old(fat[c]) == 0 ==> lastAllocated == c && free == old(free) - 1
      ensures old(fat[c]) != 0 ==> lastAllocated == old(lastAllocated) && free == old(free)
    {
      if fat[c] == 0 {
        lastAllocated := c;
        free := free - 1;
      }
      if fat[c] == 0 {
        fat[c] := END;
      }
      if prev != 0 {
        fat[prev] := c;
      }
    }

    /** One round of the loop: mark, link and write cluster `c`, the one at position `i` of chain `h`. */
    method WriteCluster(prev: nat, c: nat, chunk: seq<byte>, ghost h: nat, ghost i: nat)
      requires Valid() && Fits(fat[..], chains, h, i, c) && prev == Before(chains, h, i)
      modifies `lastAllocated, `free, `disk, `chains, `files, fat
      ensures Valid()
      ensures chains == old(chains)[h := Put(Get(old(chains), h), i, c)]
      ensures |Get(old(files), h)| == |Get(old(chains), h)|
      ensures files == old(files)[h := Put(Get(old(files), h), i, chunk)]
      ensures free == old(free) - (if i < |Get(old(chains), h)| then 0 else 1)
    {
      ghost var chains', files' := PutConsistent(clusterSize, fat[..], free, disk, chains, files, h, i, c, chunk);
      Mark(prev, c);
      chains, files := chains', files';
      disk := disk[Offset(c, clusterSize) := chunk];
    }

    /** What comes after position `i` of chain `h`: the next cluster of an old chain, or a free one. */
    method NextCluster(cur: nat, start: nat, ghost h: nat, ghost i: nat) returns (r: Option<nat>)
      requires Valid() && h in chains && i < |chains[h]| && cur == chains[h][i]
      requires start == 0 ==> i + 1 == |chains[h]|
      ensures r.None? <==> i + 1 == |chains[h]| && free == 0
      ensures r.Some? ==> Fits(fat[..], chains, h, i + 1, r.value)
    {
      assert Linked(fat[..], chains[h]);
      assert fat[cur] == fat[..][chains[h][i]];
      var next := if start != 0 then fat[cur] else 0;
      if next == 0 || next == END {
        r := AllocateCluster();
      } else {
        r := Some(next);
      }
    }

    /** Clusters taken from the free ones to hold `n` clusters of data in chain `start`, or in a new one. */
    ghost function Needed(start: nat, n: nat): nat
      reads this
    {
      if start == 0 then (if n == 0 then 1 else n)
      else if n <= |Get(chains, start)| then 0 else n - |Get(chains, start)|
    }

    /**
      Stores data in a chain of its own, or over the contents of an old chain,
      which grows if it is too short. Ends the program if there are too few
      free clusters; nothing is said about the image then.
     */
    method StoreData(data: seq<byte>, start: nat) returns (r: Option<nat>)
      requires Valid() && (start != 0 ==> start in chains)
      modifies `lastAllocated, `free, `disk, `chains, `files, fat
      ensures r.None? <==> old(free) < old(Needed(start, |Chunks(data, clusterSize)|))
      ensures r.Some? ==> Valid() && r.value >= 2 && (start != 0 ==> r.value == start)
      ensures r.Some? && start == 0 ==> r.value !in old(chains)
      ensures r.Some? && data == [] ==>
        && fat[..] == old(fat[..]) && disk == old(disk) && free == old(free)
        && chains == old(chains) && files == old(files)
      ensures r.Some? && data != [] ==>
        && chains == old(chains)[r.value := Get(chains, r.value)]
        && Get(old(chains), start) <= Get(chains, r.value)
        && files == old(files)[r.value := Overwrite(Get(old(files), start), Chunks(data, clusterSize))]
        && free == old(free) - |Get(chains, r.value)| + |Get(old(chains), start)|
    {
      var n := (|data| + clusterSize - 1) / clusterSize;
      ChunkCount(data, clusterSize);
      r := FirstCluster(start);
      if r.None? { return; }
      ghost var job := Job(chains, files, free, start, r.value, Chunks(data, clusterSize));
      if n != 0 {
        var ok := StoreClusters(data, n, start, r.value, job);
        if !ok { return None; }
        assert job.chunks[..n] == job.chunks;
      }
    }

    method FirstCluster(start: nat) returns (r: Option<nat>)
      requires Valid() && (start != 0 ==> start in chains)
      ensures r.None? <==> start == 0 && free == 0
      ensures r.Some? ==> r.value >= 2 && Fits(fat[..], chains, r.value, 0, r.value)
      ensures r.Some? ==> forall chunks :: Startable(Job(chains, files, free, start, r.value, chunks))
    {
      HeadsAreClusters(fat[..], chains);
      if start != 0 {
        r := Some(start);
      } else {
        r := AllocateCluster();
      }
    }

    method StoreClusters(data: seq<byte>, n: nat, start: nat, first: nat, ghost job: Job) returns (ok: bool)
      requires Valid() && job == Job(chains, files, free, start, first, Chunks(data, clusterSize))
      requires 0 < n == |job.chunks| && Startable(job) && Fits(fat[..], chains, first, 0, first)
      modifies `lastAllocated, `free, `disk, `chains, `files, fat
      ensures ok <==> n <= |Get(job.chains, start)| + job.free
      ensures ok ==> Valid() && Progress(job, n, chains, files, free)
    {
      var prev, cur := 0, first;
      var i := 0;
      StoringStarts(job, n, fat[..]);
      while i < n
        invariant 0 <= i <= n && Valid() && Storing(job, n, i, fat[..], chains, files, free, prev, cur)
      {
        var next := StoreCluster(data, n, start, prev, cur, i, job);
        if next.None? { return false; }
        prev, cur, i := cur, next.value, i + 1;
      }
      StoringEnds(job, n, fat[..], chains, files, free, prev, cur);
      return true;
    }

    /** One round: writes the next cluster's worth and finds where the one after that goes, if there is one. */
    method StoreCluster(data: seq<byte>, n: nat, start: nat, prev: nat, cur: nat, i: nat, ghost job: Job)
      returns (next: Option<nat>)
      requires Valid() && job.chunks == Chunks(data, clusterSize) && i < n == |job.chunks| && start == job.start
      requires Storing(job, n, i, fat[..], chains, files, free, prev, cur)
      modifies `lastAllocated, `free, `disk, `chains, `files, fat
      ensures next.Some? ==> Valid() && Storing(job, n, i + 1, fat[..], chains, files, free, cur, next.value)
      ensures next.None? ==> |Get(job.chains, start)| + job.free < n
    {
      var from := i * clusterSize;
      ChunkAt(data, clusterSize, i, from);
      var amount := |data| - from;
      if amount > clusterSize { amount := clusterSize; }
      assert Pad(data[from..from + amount], clusterSize) == job.chunks[i];
      ghost var chains0, files0, free0 := chains, files, free;
      WriteCluster(prev, cur, Pad(data[from..from + amount], clusterSize), job.h, i);
      ProgressStep(job, i, chains0, files0, free0, cur, free);
      next := Some(cur);
      if i < n - 1 {
        next := NextCluster(cur, start, job.h, i);
      }
    }

    /** Hangs the chain `g` behind the chain `h`, whose last cluster is `last`. */
    method Link(last: nat, g: nat, ghost h: nat)
      requires Valid() && h in chains && g in chains && h != g && last == chains[h][|chains[h]| - 1]
      modifies `chains, `files, fat
      ensures Valid() && chains == Joined(old(chains), h, g)
      ensures files == (old(files) - {g})[h := old(files)[h] + old(files)[g]]
    {
      HeadsAreClusters(fat[..], chains);
      JoinConsistent(clusterSize, fat[..], free, disk, chains, files, h, g);
      fat[last] := g;
      chains, files := Joined(chains, h, g), (files - {g})[h := files[h] + files[g]];
    }

    /** Stores a file, cluster by cluster; an empty one gets no cluster. */
    method StoreFile(data: seq<byte>) returns (r: Option<nat>)
      requires Valid()
      modifies `lastAllocated, `free, `disk, `chains, `files, fat
      ensures r.None? <==> old(free) < |Chunks(data, clusterSize)|
      ensures r.Some? ==> Valid() && free == old(free) - |Chunks(data, clusterSize)|
      ensures r.Some? && data == [] ==>
        && r.value == 0 && fat[..] == old(fat[..]) && disk == old(disk)
        && chains == old(chains) && files == old(files)
      ensures r.Some? && data != [] ==>
        && r.value !in old(chains) && chains == old(chains)[r.value := Get(chains, r.value)]
        && files == old(files)[r.value := Chunks(data, clusterSize)]
    {
      var first, last := 0, 0;
      var pos := 0;
      ghost var chunks, i := Chunks(data, clusterSize), 0;
      assert data[0..] == data && chunks[0..] == chunks;
      while pos < |data|
        invariant Valid() && ReadTo(data, clusterSize, chunks, pos, i)
        invariant FileProgress(old(chains), old(files), old(free), chunks, i, chains, files, free, first, last)
        invariant i == 0 ==> fat[..] == old(fat[..]) && disk == old(disk)
      {
        var amount := |data| - pos;
        if amount > clusterSize { amount := clusterSize; }
        ReadNext(data, clusterSize, chunks, pos, amount, i);
        var cluster := AppendCluster(Pad(data[pos..pos + amount], clusterSize), first, last,
                                     old(chains), old(files), old(free), chunks, i);
        if cluster.None? { return None; }
        if first == 0 {
          first := cluster.value;
        }
        last := cluster.value;
        pos, i := pos + amount, i + 1;
      }
      ReadAll(data, clusterSize, chunks, pos, i);
      return Some(first);
    }

    method AppendCluster(buffer: seq<byte>, first: nat, last: nat, ghost chains0: Chains, ghost files0: Files,
                         ghost free0: nat, ghost chunks: seq<seq<byte>>, ghost i: nat)
      returns (r: Option<nat>)
      requires Valid() && |buffer| == clusterSize && i < |chunks| && chunks[i] == buffer
      requires FileProgress(chains0, files0, free0, chunks, i, chains, files, free, first, last)
      modifies `lastAllocated, `free, `disk, `chains, `files, fat
      ensures r.None? <==> old(free) == 0
      ensures r.Some? ==> Valid()
      ensures r.Some? ==> FileProgress(chains0, files0, free0, chunks, i + 1, chains, files, free,
                                       if first == 0 then r.value else first, r.value)
    {
      HeadsAreClusters(fat[..], chains);
      SingleChunk(buffer, clusterSize);
      ghost var was, had := chains, files;
      r := StoreData(buffer, 0);
      if r.None? { return; }
      ghost var g := r.value;
      SingletonStored(clusterSize, fat[..], free, disk, was, had, chains, files, g, buffer);
      FileStep(chains0, files0, free0, chunks, i, was, had, free + 1, first, last, g);
      if last != 0 {
        Link(last, r.value, first);
      }
    }
  }

  /** What is to be stored where: the image before, the chain to store in and the contents. */
  datatype Job = Job(chains: Chains, files: Files, free: nat, start: nat, h: nat, chunks: seq<seq<byte>>)

  /** The first `i` clusters of the job are done. */
  ghost predicate Progress(job: Job, i: nat, chains: Chains, files: Files, free: nat)
  {
    var was, now := Get(job.chains, job.start), Get(chains, job.h);
    && Startable(job) && i <= |job.chunks|
    && chains == (if i == 0 then job.chains else job.chains[job.h := now])
    && files == (if i == 0 then job.files
                 else job.files[job.h := Overwrite(Get(job.files, job.start), job.chunks[..i])])
    && was <= now && |now| == (if i < |was| then |was| else i)
    && free == job.free - (|now| - |was|)
  }

  ghost predicate Ready(table: seq<nat>, chains: Chains, h: nat, i: nat, prev: nat, cur: nat) {
    Fits(table, chains, h, i, cur) && prev == Before(chains, h, i)
  }

  /** The job has come to cluster `i` of `n`, which is to go to `cur`. */
  ghost predicate Storing(job: Job, n: nat, i: nat, table: seq<nat>, chains: Chains, files: Files, free: nat,
                          prev: nat, cur: nat)
  {
    && Progress(job, i, chains, files, free)
    && (i < n ==> Ready(table, chains, job.h, i, prev, cur))
  }

  lemma StoringStarts(job: Job, n: nat, table: seq<nat>)
    requires 0 < n && Startable(job) && Fits(table, job.chains, job.h, 0, job.h)
    ensures Storing(job, n, 0, table, job.chains, job.files, job.free, 0, job.h)
  {
  }

  lemma StoringEnds(job: Job, n: nat, table: seq<nat>, chains: Chains, files: Files, free: nat, prev: nat, cur: nat)
    requires Storing(job, n, n, table, chains, files, free, prev, cur)
    ensures Progress(job, n, chains, files, free) && n <= |Get(job.chains, job.start)| + job.free
  {
  }

  /** The chain to store in is either an old one or not there yet. */
  ghost predicate Startable(job: Job) {
    && job.chains.Keys == job.files.Keys && 0 !in job.chains
    && |Get(job.files, job.start)| == |Get(job.chains, job.start)|
    && (if job.start == 0 then job.h !in job.chains else job.h == job.start && job.h in job.chains)
  }

  lemma ProgressStep(job: Job, i: nat, chains: Chains, files: Files, free: nat, c: nat, free': nat)
    requires Progress(job, i, chains, files, free) && i < |job.chunks|
    requires i < |Get(chains, job.h)| ==> Get(chains, job.h)[i] == c
    requires free' == free - (if i < |Get(chains, job.h)| then 0 else 1)
    ensures i <= |Get(chains, job.h)| == |Get(files, job.h)|
    ensures Progress(job, i + 1, chains[job.h := Put(Get(chains, job.h), i, c)],
                     files[job.h := Put(Get(files, job.h), i, job.chunks[i])], free')
  {
    var f0 := Get(job.files, job.start);
    assert job.chunks[..0] == [];
    assert Overwrite(f0, job.chunks[..0]) == f0;
    OverwriteStep(f0, job.chunks, i);
  }

  lemma HeadsAreClusters(table: seq<nat>, chains: Chains)
    requires WellFormed(table, chains)
    ensures forall h :: h in chains ==> 2 <= h < |table|
  {
    forall h | h in chains
      ensures 2 <= h < |table|
    {
      assert Linked(table, chains[h]) && chains[h][0] == h;
    }
  }

  lemma ChunkCount(data: seq<byte>, clusterSize: nat)
    requires clusterSize > 0
    ensures |Chunks(data, clusterSize)| == (|data| + clusterSize - 1) / clusterSize
  {
    ChunksHoldData(data, clusterSize);
    CeilIs(|data|, clusterSize);
    CeilUnique(|data|, clusterSize, |Chunks(data, clusterSize)|, (|data| + clusterSize - 1) / clusterSize);
  }

  /** The table, the free count and the written clusters agree with the chains and the files. */
  ghost predicate Consistent(clusterSize: nat, table: seq<nat>, free: nat, disk: map<nat, seq<byte>>,
                             chains: Chains, files: Files)
  {
    && SectorSize(clusterSize)
    && WellFormed(table, chains)
    && free == FreeCount(table)
    && chains.Keys == files.Keys && (forall h :: h in chains ==> |files[h]| == |chains[h]|)
    && (Reachable(|table| - 2, clusterSize) ==> Holds(disk, clusterSize, chains, files))
  }

  lemma PutConsistent(clusterSize: nat, table: seq<nat>, free: nat, disk: map<nat, seq<byte>>,
                      chains: Chains, files: Files, h: nat, i: nat, c: nat, chunk: seq<byte>)
    returns (chains': Chains, files': Files)
    requires Consistent(clusterSize, table, free, disk, chains, files) && Fits(table, chains, h, i, c)
    ensures |Get(files, h)| == |Get(chains, h)| && Before(chains, h, i) < |table|
    ensures chains' == chains[h := Put(Get(chains, h), i, c)]
    ensures files' == files[h := Put(Get(files, h), i, chunk)]
    ensures i < |Get(chains, h)| <==> table[c] != 0
    ensures table[c] == 0 ==> free > 0
    ensures Consistent(clusterSize, Attach(table, Before(chains, h, i), c), free - (if table[c] == 0 then 1 else 0),
                       disk[Offset(c, clusterSize) := chunk], chains', files')
  {
    chains' := chains[h := Put(Get(chains, h), i, c)];
    files' := files[h := Put(Get(files, h), i, chunk)];
    PutCluster(table, chains, h, i, c);
    var table' := Attach(table, Before(chains, h, i), c);
    if Reachable(|table| - 2, clusterSize) {
      PutHolds(disk, clusterSize, table', chains, files, h, i, c, chunk);
    }
  }

  lemma {:induction false} FreeCountEmpty(table: seq<nat>)
    requires |table| >= 2 && table[0] != 0 && table[1] != 0
    requires forall c :: 2 <= c < |table| ==> table[c] == 0
    ensures FreeCount(table) == |table| - 2
  {
    var n := |table| - 1;
    if n == 1 {
      assert table[..1][..0] == [] && FreeCount(table[..1]) == 0;
    } else {
      FreeCountEmpty(table[..n]);
    }
  }

  lemma JoinConsistent(clusterSize: nat, table: seq<nat>, free: nat, disk: map<nat, seq<byte>>,
                       chains: Chains, files: Files, h: nat, g: nat)
    requires Consistent(clusterSize, table, free, disk, chains, files) && h in chains && g in chains && h != g && g != 0
    ensures var last := chains[h][|chains[h]| - 1];
      && last < |table|
      && Consistent(clusterSize, table[last := g], free, disk, Joined(chains, h, g),
                    (files - {g})[h := files[h] + files[g]])
  {
    JoinChains(table, chains, h, g);
    ChainedNotFree(table, chains, h, |chains[h]| - 1);
    FreeCountSet(table, chains[h][|chains[h]| - 1], g);
    if Reachable(|table| - 2, clusterSize) {
      JoinHolds(disk, clusterSize, chains, files, h, g);
    }
  }

  /** The first `i` clusters of a file are stored and linked. */
  ghost predicate FileProgress(chains0: Chains, files0: Files, free0: nat, chunks: seq<seq<byte>>, i: nat,
                               chains: Chains, files: Files, free: nat, first: nat, last: nat)
  {
    && i <= |chunks| && free == free0 - i
    && if i == 0 then
         chains == chains0 && files == files0 && first == last == 0
       else
         && first >= 2 && first !in chains0 && first in chains
         && chains == chains0[first := chains[first]] && files == files0[first := chunks[..i]]
         && |chains[first]| == i && chains[first][i - 1] == last >= 2
  }

  lemma FileStep(chains0: Chains, files0: Files, free0: nat, chunks: seq<seq<byte>>, i: nat,
                 chains: Chains, files: Files, free: nat, first: nat, last: nat, g: nat)
    requires FileProgress(chains0, files0, free0, chunks, i, chains, files, free, first, last)
    requires i < |chunks| && free > 0 && g >= 2 && g !in chains && g !in files && g !in chains0
    ensures first == 0 <==> last == 0
    ensures first == 0 ==>
      FileProgress(chains0, files0, free0, chunks, i + 1, chains[g := [g]], files[g := [chunks[i]]],
                   free - 1, g, g)
    ensures first != 0 ==>
      && first in chains && first != g && first in files
      && FileProgress(chains0, files0, free0, chunks, i + 1, Joined(chains[g := [g]], first, g),
                      (files[g := [chunks[i]]] - {g})[first := files[first] + [chunks[i]]], free - 1, first, g)
  {
    assert chunks[..i + 1] == chunks[..i] + [chunks[i]];
    assert i == 0 ==> chunks[..i + 1] == [chunks[i]];
    assert first != 0 ==> first in chains && Joined(chains[g := [g]], first, g) == chains[first := chains[first] + [g]];
    assert first != 0 ==>
      first in files &&
        (files[g := [chunks[i]]] - {g})[first := files[first] + [chunks[i]]] == files[first := chunks[..i + 1]];
  }

  lemma SingleChunk(buffer: seq<byte>, clusterSize: nat)
    requires |buffer| == clusterSize > 0
    ensures Chunks(buffer, clusterSize) == [buffer]
  {
    assert Pad(buffer, clusterSize) == buffer;
  }

  lemma SingletonStored(clusterSize: nat, table: seq<nat>, free: nat, disk: map<nat, seq<byte>>, was: Chains,
                        had: Files, chains: Chains, files: Files, g: nat, buffer: seq<byte>)
    requires Consistent(clusterSize, table, free, disk, chains, files)
    requires g !in was && g !in had && g in chains && files == had[g := Overwrite([], [buffer])]
    ensures chains[g] == [g] && files == had[g := [buffer]]
  {
    assert Overwrite([], [buffer]) == [buffer];
    assert |chains[g]| == 1 && Linked(table, chains[g]) && chains[g][0] == g;
  }

  /** Up to `pos`, the data fills the first `i` chunks. */
  ghost predicate ReadTo(data: seq<byte>, clusterSize: nat, chunks: seq<seq<byte>>, pos: nat, i: nat) {
    && clusterSize > 0 && pos <= |data| && i <= |chunks| && (i == 0 <==> pos == 0)
    && chunks[i..] == Chunks(data[pos..], clusterSize)
  }

  lemma ReadNext(data: seq<byte>, clusterSize: nat, chunks: seq<seq<byte>>, pos: nat, amount: nat, i: nat)
    requires ReadTo(data, clusterSize, chunks, pos, i) && pos < |data|
    requires amount == if |data| - pos > clusterSize then clusterSize else |data| - pos
    ensures i < |chunks| && chunks[i] == Pad(data[pos..pos + amount], clusterSize)
    ensures ReadTo(data, clusterSize, chunks, pos + amount, i + 1)
  {
    ChunksTail(data, pos, amount, clusterSize);
    assert chunks[i..][1..] == chunks[i + 1..];
  }

  lemma ReadAll(data: seq<byte>, clusterSize: nat, chunks: seq<seq<byte>>, pos: nat, i: nat)
    requires ReadTo(data, clusterSize, chunks, pos, i) && pos == |data|
    ensures i == |chunks| && chunks[..i] == chunks
  {
    assert data[pos..] == [];
  }

  lemma ChunksTail(data: seq<byte>, pos: nat, amount: nat, clusterSize: nat)
    requires clusterSize > 0 && pos < |data|
    requires amount == if |data| - pos > clusterSize then clusterSize else |data| - pos
    ensures Chunks(data[pos..], clusterSize) ==
            [Pad(data[pos..pos + amount], clusterSize)] + Chunks(data[pos + amount..], clusterSize)
  {
    var rest := data[pos..];
    assert rest[..amount] == data[pos..pos + amount] && rest[amount..] == data[pos + amount..];
    if |rest| > clusterSize {
      assert Pad(rest[..clusterSize], clusterSize) == rest[..clusterSize];
    } else {
      assert rest[..amount] == rest && data[pos + amount..] == [];
    }
  }

  // --- Reading the image ---

  /** The clusters from `c` on, following the table for at most `n` steps. */
  function Follow(table: seq<nat>, c: nat, n: nat): seq<nat>
    decreases n
  {
    if n == 0 then []
    else [c] + if c < |table| && table[c] != END then Follow(table, table[c], n - 1) else []
  }

  lemma {:induction false} FollowIsChain(table: seq<nat>, chains: Chains, h: nat, i: nat, n: nat)
    requires WellFormed(table, chains) && h in chains && i < |chains[h]| && n >= |chains[h]| - i
    ensures Follow(table, chains[h][i], n) == chains[h][i..]
    decreases n
  {
    assert Linked(table, chains[h]);
    var c := chains[h][i];
    if i + 1 < |chains[h]| {
      assert table[c] == chains[h][i + 1];
      FollowIsChain(table, chains, h, i + 1, n - 1);
    } else {
      assert table[c] == END;
    }
  }

  function ReadClusters(disk: map<nat, seq<byte>>, clusterSize: nat, p: seq<nat>): seq<byte> {
    if p == [] then []
    else
      (if p[0] >= 2 && Offset(p[0], clusterSize) in disk then disk[Offset(p[0], clusterSize)] else [])
      + ReadClusters(disk, clusterSize, p[1..])
  }

  lemma {:induction false} ReadsContents(disk: map<nat, seq<byte>>, clusterSize: nat, p: seq<nat>, f: seq<seq<byte>>)
    requires |p| == |f| && forall i :: 0 <= i < |p| ==> At(disk, clusterSize, p[i], f[i])
    ensures ReadClusters(disk, clusterSize, p) == Concat(f)
  {
    if p != [] {
      assert At(disk, clusterSize, p[0], f[0]);
      forall i | 0 <= i < |p[1..]|
        ensures At(disk, clusterSize, p[1..][i], f[1..][i])
      {
        assert At(disk, clusterSize, p[i + 1], f[i + 1]);
      }
      ReadsContents(disk, clusterSize, p[1..], f[1..]);
    }
  }

  /** Whoever follows the table from the head of a chain reads the file, whatever else was stored before and after. */
  lemma FileReadsBack(clusterSize: nat, table: seq<nat>, free: nat, disk: map<nat, seq<byte>>,
                      chains: Chains, files: Files, h: nat, n: nat)
    requires Consistent(clusterSize, table, free, disk, chains, files)
    requires Reachable(|table| - 2, clusterSize) && h in chains && n >= |chains[h]|
    ensures ReadClusters(disk, clusterSize, Follow(table, h, n)) == Concat(files[h])
  {
    assert Linked(table, chains[h]) && chains[h][0] == h;
    FollowIsChain(table, chains, h, 0, n);
    assert chains[h][0..] == chains[h];
    ReadsContents(disk, clusterSize, chains[h], files[h]);
  }

  /** Reading a stored file gives its data, and zeros up to the end of its last cluster. */
  lemma DataReadsBack(clusterSize: nat, table: seq<nat>, free: nat, disk: map<nat, seq<byte>>,
                      chains: Chains, files: Files, h: nat, n: nat, data: seq<byte>)
    requires Consistent(clusterSize, table, free, disk, chains, files)
    requires Reachable(|table| - 2, clusterSize) && h in chains && n >= |chains[h]|
    requires files[h] == Chunks(data, clusterSize)
    ensures |data| <= clusterSize * |chains[h]| < |data| + clusterSize
    ensures ReadClusters(disk, clusterSize, Follow(table, h, n)) == Pad(data, clusterSize * |chains[h]|)
  {
    FileReadsBack(clusterSize, table, free, disk, chains, files, h, n);
    ChunksHoldData(data, clusterSize);
  }
}
