/**
  Cluster chains of a FAT32 image: which table entries belong to which stored
  file or directory, how chains grow, and what reads back from them.
 */
module FatChains {
  import opened Basics
  import opened FatLayout

  /** From the first cluster of a chain to all its clusters, in order. */
  type Chains = map<nat, seq<nat>>

  /** From the first cluster of a chain to what its clusters hold, in order. */
  type Files = map<nat, seq<seq<byte>>>

  /** Table entry of the last cluster of a chain. */
  const END: nat := 0x0FFFFFF8

  // --- The table ---

  predicate Linked(table: seq<nat>, p: seq<nat>) {
    && |p| > 0
    && (forall i {:trigger p[i]} :: 0 <= i < |p| ==> 2 <= p[i] < |table|)
    && (forall i {:trigger table[p[i]]} :: 0 <= i < |p| ==> table[p[i]] == if i + 1 < |p| then p[i + 1] else END)
  }

  function ClusterAt(chains: Chains, h: nat, i: int): nat
    requires h in chains && 0 <= i < |chains[h]|
  {
    chains[h][i]
  }

  /** No cluster is in two chains, or twice in one. */
  predicate Disjoint(chains: Chains) {
    forall g, h, i, j {:trigger ClusterAt(chains, g, i), ClusterAt(chains, h, j)} ::
      g in chains && h in chains && 0 <= i < |chains[g]| && 0 <= j < |chains[h]| ==>
        ClusterAt(chains, g, i) == ClusterAt(chains, h, j) ==> g == h && i == j
  }

  predicate Owned(chains: Chains, c: nat) {
    exists h :: h in chains && c in chains[h]
  }

  /** Every used entry is part of exactly one chain, and every chain runs from its head to an end marker. */
  predicate WellFormed(table: seq<nat>, chains: Chains) {
    && 2 <= |table| <= END && table[0] == 0xFFFF_FFF8 && table[1] == 0x0FFF_FFFF
    && (forall h :: h in chains ==> Linked(table, chains[h]) && chains[h][0] == h)
    && Disjoint(chains)
    && (forall c {:trigger Owned(chains, c)} :: 2 <= c < |table| && table[c] != 0 ==> Owned(chains, c))
  }

  function FreeCount(table: seq<nat>): nat {
    if table == [] then 0 else FreeCount(table[..|table| - 1]) + (if table[|table| - 1] == 0 then 1 else 0)
  }

  lemma {:induction false} FreeCountSet(table: seq<nat>, c: nat, v: nat)
    requires c < |table|
    ensures FreeCount(table[c := v]) ==
            FreeCount(table) - (if table[c] == 0 then 1 else 0) + (if v == 0 then 1 else 0)
  {
    var n := |table| - 1;
    if c == n {
      assert table[c := v][..n] == table[..n];
    } else {
      assert table[c := v][..n] == table[..n][c := v];
      FreeCountSet(table[..n], c, v);
    }
  }

  lemma {:induction false} FreeCountZero(table: seq<nat>)
    ensures FreeCount(table) == 0 <==> forall c :: 0 <= c < |table| ==> table[c] != 0
  {
    if table != [] {
      var n := |table| - 1;
      FreeCountZero(table[..n]);
      assert forall c :: 0 <= c < n ==> table[..n][c] == table[c];
    }
  }

  // --- Growing chains ---

  /** Clusters of a chain hold links or the end marker, never the free mark. */
  lemma ChainedNotFree(table: seq<nat>, chains: Chains, h: nat, i: nat)
    requires WellFormed(table, chains) && h in chains && i < |chains[h]|
    ensures table[chains[h][i]] != 0
  {
    assert Linked(table, chains[h]);
  }

  lemma NewChain(table: seq<nat>, chains: Chains, c: nat)
    requires WellFormed(table, chains) && 2 <= c < |table| && table[c] == 0
    ensures c !in chains
    ensures WellFormed(table[c := END], chains[c := [c]])
  {
    var table', chains' := table[c := END], chains[c := [c]];
    forall h, i | h in chains && 0 <= i < |chains[h]|
      ensures chains[h][i] != c
    {
      ChainedNotFree(table, chains, h, i);
    }
    forall h | h in chains'
      ensures Linked(table', chains'[h]) && chains'[h][0] == h
    {
      if h != c {
        assert Linked(table, chains[h]);
      }
    }
    forall g, h, i, j | g in chains' && h in chains' && 0 <= i < |chains'[g]| && 0 <= j < |chains'[h]|
                        && ClusterAt(chains', g, i) == ClusterAt(chains', h, j)
      ensures g == h && i == j
    {
      if g != c && h != c {
        assert ClusterAt(chains, g, i) == ClusterAt(chains, h, j);
      }
    }
    forall d | 2 <= d < |table'| && table'[d] != 0
      ensures Owned(chains', d)
    {
      if d == c {
        assert c in chains'[c];
      } else {
        assert Owned(chains, d);
        var h :| h in chains && d in chains[h];
        assert h in chains' && d in chains'[h];
      }
    }
  }

  function Joined(chains: Chains, h: nat, g: nat): Chains
    requires h in chains && g in chains
  {
    (chains - {g})[h := chains[h] + chains[g]]
  }

  lemma JoinChains(table: seq<nat>, chains: Chains, h: nat, g: nat)
    requires WellFormed(table, chains) && h in chains && g in chains && h != g
    ensures var last := chains[h][|chains[h]| - 1];
      last < |table| && WellFormed(table[last := g], Joined(chains, h, g))
  {
    var p, q := chains[h], chains[g];
    assert Linked(table, p) && Linked(table, q);
    var last := p[|p| - 1];
    var table', chains' := table[last := g], Joined(chains, h, g);
    assert last == ClusterAt(chains, h, |p| - 1);
    forall i | 0 <= i < |p + q|
      ensures table'[(p + q)[i]] == if i + 1 < |p + q| then (p + q)[i + 1] else END
    {
      if i < |p| {
        assert (p + q)[i] == ClusterAt(chains, h, i) && table[p[i]] == if i + 1 < |p| then p[i + 1] else END;
      } else {
        assert (p + q)[i] == ClusterAt(chains, g, i - |p|);
        assert table[q[i - |p|]] == if i - |p| + 1 < |q| then q[i - |p| + 1] else END;
      }
    }
    assert Linked(table', p + q);
    forall f | f in chains' && f != h
      ensures Linked(table', chains'[f]) && chains'[f][0] == f
    {
      assert Linked(table, chains[f]);
      assert forall i :: 0 <= i < |chains[f]| ==> ClusterAt(chains, f, i) != last;
      assert forall i :: 0 <= i < |chains[f]| ==> chains[f][i] == ClusterAt(chains, f, i);
    }
    JoinDisjoint(chains, h, g);
    forall d | 2 <= d < |table'| && table'[d] != 0
      ensures Owned(chains', d)
    {
      assert table[d] != 0 && Owned(chains, d);
      var f :| f in chains && d in chains[f];
      if f == g {
        assert d in p + q;
        assert h in chains' && d in chains'[h];
      } else {
        assert f in chains' && d in chains'[f];
      }
    }
  }

  lemma JoinDisjoint(chains: Chains, h: nat, g: nat)
    requires Disjoint(chains) && h in chains && g in chains && h != g
    ensures Disjoint(Joined(chains, h, g))
  {
    var chains' := Joined(chains, h, g);
    var n := |chains[h]|;
    forall a, b, i, j | a in chains' && b in chains' && 0 <= i < |chains'[a]| && 0 <= j < |chains'[b]|
                        && ClusterAt(chains', a, i) == ClusterAt(chains', b, j)
      ensures a == b && i == j
    {
      var (a0, i0) := if a != h || i < n then (a, i) else (g, i - n);
      var (b0, j0) := if b != h || j < n then (b, j) else (g, j - n);
      assert chains'[a][i] == ClusterAt(chains, a0, i0) && chains'[b][j] == ClusterAt(chains, b0, j0);
    }
  }

  function Get<T>(m: map<nat, seq<T>>, h: nat): seq<T> {
    if h in m then m[h] else []
  }

  /** `s` with position `i` set to `x`, which may be one past the end. */
  function Put<T>(s: seq<T>, i: nat, x: T): (r: seq<T>)
    requires i <= |s|
    ensures |r| == (if i < |s| then |s| else |s| + 1) && r[i] == x
  {
    if i < |s| then s[i := x] else s + [x]
  }

  /** The table after cluster `c` was marked used, if it was not yet, and hung behind `prev`, if there is one. */
  function Attach(table: seq<nat>, prev: nat, c: nat): (r: seq<nat>)
    requires prev < |table| && c < |table|
    ensures |r| == |table|
  {
    var marked := if table[c] == 0 then table[c := END] else table;
    if prev != 0 then marked[prev := c] else marked
  }

  /** Cluster `c` is the one at position `i` of chain `h`, or a free one that is to become that. */
  predicate Fits(table: seq<nat>, chains: Chains, h: nat, i: nat, c: nat) {
    && 2 <= c < |table| && i <= |Get(chains, h)|
    && (if i < |Get(chains, h)| then Get(chains, h)[i] == c else table[c] == 0)
    && (i == 0 ==> h == c)
  }

  function Before(chains: Chains, h: nat, i: nat): nat
    requires i <= |Get(chains, h)|
  {
    if i == 0 then 0 else Get(chains, h)[i - 1]
  }

  lemma PutAgain(table: seq<nat>, chains: Chains, h: nat, i: nat, c: nat)
    requires WellFormed(table, chains) && h in chains && i < |chains[h]| && c == chains[h][i]
    ensures c < |table| && table[c] != 0 && Before(chains, h, i) < |table|
    ensures Attach(table, Before(chains, h, i), c) == table
    ensures chains[h := Put(chains[h], i, c)] == chains
  {
    assert Linked(table, chains[h]);
    ChainedNotFree(table, chains, h, i);
    assert i > 0 ==> table[chains[h][i - 1]] == c;
    assert Put(chains[h], i, c) == chains[h];
  }

  lemma Append(table: seq<nat>, chains: Chains, h: nat, c: nat)
    requires WellFormed(table, chains) && h in chains && 2 <= c < |table| && table[c] == 0
    ensures var last := chains[h][|chains[h]| - 1];
      && 2 <= last < |table|
      && WellFormed(Attach(table, last, c), chains[h := chains[h] + [c]])
      && FreeCount(Attach(table, last, c)) == FreeCount(table) - 1
  {
    assert Linked(table, chains[h]);
    var last := chains[h][|chains[h]| - 1];
    ChainedNotFree(table, chains, h, |chains[h]| - 1);
    NewChain(table, chains, c);
    JoinChains(table[c := END], chains[c := [c]], h, c);
    assert Joined(chains[c := [c]], h, c) == chains[h := chains[h] + [c]];
    FreeCountSet(table, c, END);
    FreeCountSet(table[c := END], last, c);
  }

  lemma PutCluster(table: seq<nat>, chains: Chains, h: nat, i: nat, c: nat)
    requires WellFormed(table, chains) && Fits(table, chains, h, i, c)
    ensures Before(chains, h, i) < |table|
    ensures WellFormed(Attach(table, Before(chains, h, i), c), chains[h := Put(Get(chains, h), i, c)])
    ensures FreeCount(Attach(table, Before(chains, h, i), c)) ==
            FreeCount(table) - (if table[c] == 0 then 1 else 0)
    ensures i < |Get(chains, h)| <==> table[c] != 0
  {
    if i < |Get(chains, h)| {
      PutAgain(table, chains, h, i, c);
    } else if i > 0 {
      Append(table, chains, h, c);
    } else {
      NewChain(table, chains, c);
      FreeCountSet(table, c, END);
      assert Put(Get(chains, h), i, c) == [c];
    }
  }

  // --- Contents ---

  /** Where a cluster is written, from the start of the data area: a product in 32-bit arithmetic. */
  function Offset(c: nat, clusterSize: nat): nat
    requires c >= 2
  {
    clusterSize * (c - 2) % 0x1_0000_0000
  }

  predicate SectorSize(n: nat) {
    n == 512 || n == 4096
  }

  /** All clusters lie within the first four gigabytes of the data area. */
  predicate Reachable(clusters: nat, clusterSize: nat)
    requires clusterSize > 0
  {
    clusters <= 0x1_0000_0000 / clusterSize
  }

  lemma OffsetInRange(c: nat, clusters: nat, clusterSize: nat)
    requires SectorSize(clusterSize) && Reachable(clusters, clusterSize) && 2 <= c < clusters + 2
    ensures Offset(c, clusterSize) == clusterSize * (c - 2)
  {
    if clusterSize == 512 {
      assert 512 * (c - 2) < 0x1_0000_0000;
    } else {
      assert 4096 * (c - 2) < 0x1_0000_0000;
    }
  }

  lemma OffsetsApart(c: nat, d: nat, clusters: nat, clusterSize: nat)
    requires SectorSize(clusterSize) && Reachable(clusters, clusterSize)
    requires 2 <= c < d < clusters + 2
    ensures Offset(c, clusterSize) + clusterSize <= Offset(d, clusterSize)
  {
    OffsetInRange(c, clusters, clusterSize);
    OffsetInRange(d, clusters, clusterSize);
  }

  /** Within reach, the clusters lie back to back from the start of the data area on, which is cluster 2. */
  lemma ClustersBackToBack(clusters: nat, clusterSize: nat, c: nat)
    requires SectorSize(clusterSize) && Reachable(clusters, clusterSize) && 2 <= c < clusters + 2
    ensures Offset(2, clusterSize) == 0
    ensures c + 1 < clusters + 2 ==> Offset(c + 1, clusterSize) == Offset(c, clusterSize) + clusterSize
  {
    OffsetInRange(c, clusters, clusterSize);
    if c + 1 < clusters + 2 { OffsetInRange(c + 1, clusters, clusterSize); }
  }

  /** Clusters are written to places of their own exactly when they are all within the first four gigabytes. */
  lemma OffsetsApartIff(clusters: nat, clusterSize: nat)
    requires SectorSize(clusterSize)
    ensures (forall c, d :: 2 <= c < d < clusters + 2 ==>
               Abs(Offset(c, clusterSize) - Offset(d, clusterSize)) >= clusterSize)
            <==> Reachable(clusters, clusterSize)
  {
    var n := 0x1_0000_0000 / clusterSize;
    if clusters > n {
      assert Offset(2, clusterSize) == Offset(2 + n, clusterSize);
    } else {
      forall c, d | 2 <= c < d < clusters + 2
        ensures Abs(Offset(c, clusterSize) - Offset(d, clusterSize)) >= clusterSize
      {
        OffsetsApart(c, d, clusters, clusterSize);
      }
    }
  }

  /** The clusters of the chains hold the files. */
  predicate Holds(disk: map<nat, seq<byte>>, clusterSize: nat, chains: Chains, files: Files) {
    forall h :: h in chains ==>
      && h in files && |files[h]| == |chains[h]|
      && forall i {:trigger chains[h][i]} :: 0 <= i < |chains[h]| ==> At(disk, clusterSize, chains[h][i], files[h][i])
  }

  predicate At(disk: map<nat, seq<byte>>, clusterSize: nat, c: nat, chunk: seq<byte>) {
    c >= 2 && Offset(c, clusterSize) in disk && disk[Offset(c, clusterSize)] == chunk
  }

  /** Past four gigabytes, some cluster's contents are lost as soon as another cluster is written. */
  lemma BeyondReach(clusters: nat, clusterSize: nat, disk: map<nat, seq<byte>>, x: seq<byte>, y: seq<byte>)
    requires SectorSize(clusterSize) && !Reachable(clusters, clusterSize) && x != y
    ensures exists c, d ::
      && 2 <= c < d < clusters + 2
      && !At(disk[Offset(c, clusterSize) := x][Offset(d, clusterSize) := y], clusterSize, c, x)
  {
    var d := 2 + 0x1_0000_0000 / clusterSize;
    assert Offset(2, clusterSize) == Offset(d, clusterSize) == 0;
    assert !At(disk[Offset(2, clusterSize) := x][Offset(d, clusterSize) := y], clusterSize, 2, x);
  }

  lemma PutHolds(disk: map<nat, seq<byte>>, clusterSize: nat, table: seq<nat>, chains: Chains, files: Files,
                 h: nat, i: nat, c: nat, chunk: seq<byte>)
    requires SectorSize(clusterSize) && |table| >= 2 && Reachable(|table| - 2, clusterSize)
    requires Holds(disk, clusterSize, chains, files) && chains.Keys == files.Keys
    requires c >= 2 && i <= |Get(chains, h)|
    requires WellFormed(table, chains[h := Put(Get(chains, h), i, c)])
    ensures |Get(files, h)| == |Get(chains, h)|
    ensures Holds(disk[Offset(c, clusterSize) := chunk], clusterSize,
                  chains[h := Put(Get(chains, h), i, c)], files[h := Put(Get(files, h), i, chunk)])
  {
    var chains' := chains[h := Put(Get(chains, h), i, c)];
    var files' := files[h := Put(Get(files, h), i, chunk)];
    var disk' := disk[Offset(c, clusterSize) := chunk];
    assert ClusterAt(chains', h, i) == c;
    forall g, j | g in chains' && 0 <= j < |chains'[g]|
      ensures At(disk', clusterSize, chains'[g][j], files'[g][j])
    {
      assert Linked(table, chains'[g]) && Linked(table, chains'[h]);
      var d := ClusterAt(chains', g, j);
      if d != c {
        assert d == chains[g][j];
        if c < d {
          OffsetsApart(c, d, |table| - 2, clusterSize);
        } else {
          OffsetsApart(d, c, |table| - 2, clusterSize);
        }
      }
    }
  }

  lemma JoinHolds(disk: map<nat, seq<byte>>, clusterSize: nat, chains: Chains, files: Files, h: nat, g: nat)
    requires Holds(disk, clusterSize, chains, files) && h in chains && g in chains && h != g
    ensures Holds(disk, clusterSize, Joined(chains, h, g), (files - {g})[h := files[h] + files[g]])
  {
    var chains', files' := Joined(chains, h, g), (files - {g})[h := files[h] + files[g]];
    forall f, i | f in chains' && 0 <= i < |chains'[f]|
      ensures At(disk, clusterSize, chains'[f][i], files'[f][i])
    {
      if f == h && i >= |chains[h]| {
        assert At(disk, clusterSize, chains[g][i - |chains[h]|], files[g][i - |chains[h]|]);
      } else {
        assert At(disk, clusterSize, chains[f][i], files[f][i]);
      }
    }
  }

  // --- Cutting data into clusters ---

  function Pad(s: seq<byte>, n: nat): (r: seq<byte>)
    requires |s| <= n
    ensures |r| == n && s <= r && forall i :: |s| <= i < n ==> r[i] == 0
  {
    s + seq(n - |s|, _ => 0)
  }

  function Chunks(data: seq<byte>, clusterSize: nat): seq<seq<byte>>
    requires clusterSize > 0
  {
    if |data| == 0 then []
    else if |data| <= clusterSize then [Pad(data, clusterSize)]
    else [data[..clusterSize]] + Chunks(data[clusterSize..], clusterSize)
  }

  function Concat(chunks: seq<seq<byte>>): seq<byte> {
    if chunks == [] then [] else chunks[0] + Concat(chunks[1..])
  }

  /** Reading the clusters in order gives the data back, followed by zeros up to the end of the last cluster. */
  lemma {:induction false} ChunksHoldData(data: seq<byte>, clusterSize: nat)
    requires clusterSize > 0
    ensures IsCeil(|data|, clusterSize, |Chunks(data, clusterSize)|)
    ensures |Concat(Chunks(data, clusterSize))| == clusterSize * |Chunks(data, clusterSize)|
    ensures |data| <= clusterSize * |Chunks(data, clusterSize)|
    ensures Concat(Chunks(data, clusterSize)) == Pad(data, clusterSize * |Chunks(data, clusterSize)|)
  {
    var chunks := Chunks(data, clusterSize);
    if 0 < |data| <= clusterSize {
      assert Concat(chunks) == chunks[0] + [];
    } else if |data| > clusterSize {
      var rest := Chunks(data[clusterSize..], clusterSize);
      assert chunks[1..] == rest;
      ChunksHoldData(data[clusterSize..], clusterSize);
      assert clusterSize * |chunks| == clusterSize * |rest| + clusterSize;
      assert data == data[..clusterSize] + data[clusterSize..];
    }
  }

  /** The cluster's worth of data from position `from` on, filled up with zeros. */
  function ChunkFrom(data: seq<byte>, from: nat, clusterSize: nat): seq<byte>
    requires from <= |data|
  {
    if |data| - from > clusterSize then data[from..from + clusterSize] else Pad(data[from..], clusterSize)
  }

  lemma ChunkFromLater(data: seq<byte>, from: nat, clusterSize: nat)
    requires clusterSize + from <= |data|
    ensures ChunkFrom(data[clusterSize..], from, clusterSize) == ChunkFrom(data, clusterSize + from, clusterSize)
  {
    assert data[clusterSize..][from..] == data[clusterSize + from..];
    assert |data| - from > 2 * clusterSize ==>
      data[clusterSize..][from..from + clusterSize] == data[clusterSize + from..from + 2 * clusterSize];
  }

  lemma OneMore(i: int, k: int)
    ensures (i - 1) * k + k == i * k
  {
  }

  lemma {:induction false} ChunkAt(data: seq<byte>, clusterSize: nat, i: nat, from: nat)
    requires clusterSize > 0 && i < |Chunks(data, clusterSize)| && from == i * clusterSize
    ensures from < |data| && Chunks(data, clusterSize)[i] == ChunkFrom(data, from, clusterSize)
  {
    if i == 0 {
      assert data[0..] == data;
    } else {
      var before := (i - 1) * clusterSize;
      assert before + clusterSize == from by { OneMore(i, clusterSize); }
      ChunkAt(data[clusterSize..], clusterSize, i - 1, before);
      ChunkFromLater(data, before, clusterSize);
    }
  }

  /** Later contents over earlier contents: whatever the new ones do not reach stays. */
  function Overwrite<T>(was: seq<T>, now: seq<T>): seq<T> {
    now + (if |now| < |was| then was[|now|..] else [])
  }

  lemma OverwriteStep<T>(was: seq<T>, now: seq<T>, i: nat)
    requires i < |now|
    ensures i <= |Overwrite(was, now[..i])|
    ensures Put(Overwrite(was, now[..i]), i, now[i]) == Overwrite(was, now[..i + 1])
  {
    assert now[..i + 1] == now[..i] + [now[i]];
  }
}
