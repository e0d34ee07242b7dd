/**
  The size of the file allocation table and of the data area, which depend on
  each other, found by iterating until the cluster count stops changing. One
  sector per cluster, two tables, four bytes per entry.
 */
module FatLayout {
  import opened Basics

  // --- Rounding up ---

  function Ceil(x: nat, k: nat): nat
    requires k > 0
  {
    (x + k - 1) / k
  }

  /** `c` is `x / k`, rounded up. */
  predicate IsCeil(x: int, k: int, c: int) {
    k * c - k < x <= k * c
  }

  lemma CeilIs(x: nat, k: nat)
    requires k > 0
    ensures IsCeil(x, k, Ceil(x, k))
  {
    var y := x + k - 1;
    assert y == k * (y / k) + y % k;
  }

  lemma CeilUnique(x: int, k: int, c: int, d: int)
    requires k > 0 && IsCeil(x, k, c) && IsCeil(x, k, d)
    ensures c == d
  {
    assert k * (c - d) == k * c - k * d;
    SmallMultiple(k, c - d, k * c - k * d);
  }

  // --- One round ---

  /** Sectors that each table needs for all clusters, when the tables take `s` sectors each now. */
  function NextSize(space: nat, perSector: nat, s: nat): nat
    requires perSector > 0 && 2 * s <= space
  {
    Ceil(space - 2 * s + 2, perSector)
  }

  /** There is room for a table at all, and entries are small against a sector. */
  predicate Sane(space: nat, perSector: nat) {
    space >= 4 && perSector >= 8
  }

  lemma NextSizeFits(space: nat, perSector: nat, s: nat)
    requires Sane(space, perSector) && 2 * s <= space
    ensures 1 <= NextSize(space, perSector, s) && 2 * NextSize(space, perSector, s) <= space
  {
    var q := NextSize(space, perSector, s);
    CeilIs(space - 2 * s + 2, perSector);
    SmallCeil(space + 2, perSector, q);
  }

  lemma SmallCeil(x: int, k: int, q: int)
    requires k >= 8 && x >= 6 && k * q - k < x
    ensures 2 * q <= x - 2
  {
    assert k * (q - 1) == k * q - k;
    assert q >= 1 ==> (k - 8) * (q - 1) >= 0;
    assert (k - 8) * (q - 1) == k * (q - 1) - 8 * (q - 1);
  }

  /** The table size that the iteration aims for. */
  function Target(space: nat, perSector: nat): nat
    requires perSector > 0
  {
    (space + 1) / (perSector + 2) + 1
  }

  /** The iteration has a size to settle at. */
  predicate Settles(space: nat, perSector: nat)
    requires perSector > 0
  {
    space % (perSector + 2) != 0 && space % (perSector + 2) != perSector + 1
  }

  lemma SettlesShifted(space: nat, m: nat)
    requires m > 2
    ensures (space % m != 0 && space % m != m - 1) <==> (space + 1) % m >= 2
  {
    var q, r := space / m, space % m;
    assert space == m * q + r;
    if r + 1 < m {
      RemainderUnique(space + 1, m, q, r + 1);
    } else {
      assert m * (q + 1) == m * q + m;
      RemainderUnique(space + 1, m, q + 1, 0);
    }
  }

  /** A size is stable exactly when rounding puts it there. */
  lemma StableIff(space: nat, perSector: nat, s: nat)
    requires perSector > 0 && 2 * s <= space
    ensures NextSize(space, perSector, s) == s <==> IsCeil(space - 2 * s + 2, perSector, s)
  {
    CeilIs(space - 2 * s + 2, perSector);
    if IsCeil(space - 2 * s + 2, perSector, s) {
      CeilUnique(space - 2 * s + 2, perSector, s, NextSize(space, perSector, s));
    }
  }

  /** Stable sizes exist exactly for the spaces that settle, and then there is only the target. */
  lemma StableIsTarget(space: nat, perSector: nat, s: nat)
    requires perSector > 0 && 2 * s <= space
    ensures NextSize(space, perSector, s) == s <==> Settles(space, perSector) && s == Target(space, perSector)
  {
    var m := perSector + 2;
    var q, r := (space + 1) / m, (space + 1) % m;
    StableIff(space, perSector, s);
    SettlesShifted(space, m);
    assert space + 1 == m * q + r;
    assert m * s == perSector * s + 2 * s;
    assert m * (s - q) == m * s - m * q;
    WithinOneMultiple(m, s - q, m * (s - q), r);
  }

  /** Of all multiples of `m`, only `m` itself can lie in the window that rounding leaves. */
  lemma WithinOneMultiple(m: int, d: int, product: int, r: int)
    requires m > 2 && 0 <= r < m && product == m * d
    ensures r + 1 <= product < r + m - 1 <==> r >= 2 && d == 1
  {
    assert d <= 0 ==> product <= 0;
    assert d >= 2 ==> product >= 2 * m;
  }

  // --- Convergence ---

  lemma AtLeastEightfold(k: int, x: int)
    requires k >= 8 && x >= 0
    ensures k * x >= 8 * x
  {
    assert (k - 8) * x >= 0;
    assert (k - 8) * x == k * x - 8 * x;
  }

  lemma ContractionAbove(k: int, u: int, e: int)
    requires k >= 8 && e >= 1 && k * u + k > -2 * e && k * u - k < -2 * e
    ensures -e <= u <= 0 && (e >= 2 ==> u > -e)
  {
    assert u >= 1 ==> k * u >= k;
    if u <= -1 {
      AtLeastEightfold(k, -u - 1);
      assert k * (-u - 1) == -(k * u) - k;
    }
  }

  /** How far the next size is from the target, given how far this one is: no further, and on the other side. */
  lemma Contraction(k: int, u: int, e: int)
    requires k >= 8 && k * u + k > -2 * e && k * u - k < -2 * e
    ensures e >= 1 ==> -e <= u <= 0 && (e >= 2 ==> u > -e)
    ensures e <= -1 ==> 0 <= u <= -e && (e <= -2 ==> u < -e)
  {
    if e >= 1 {
      ContractionAbove(k, u, e);
    } else if e <= -1 {
      assert k * (-u) == -(k * u);
      ContractionAbove(k, -u, -e);
    }
  }

  lemma NextSizeNear(space: nat, perSector: nat, s: nat)
    requires Sane(space, perSector) && Settles(space, perSector) && 2 * s <= space
    ensures var e, u := s - Target(space, perSector), NextSize(space, perSector, s) - Target(space, perSector);
      && (e >= 1 ==> -e <= u <= 0) && (e >= 2 ==> u > -e)
      && (e <= -1 ==> 0 <= u <= -e) && (e <= -2 ==> u < -e)
  {
    var k, t, n: int := perSector, Target(space, perSector), NextSize(space, perSector, s);
    TargetFits(space, perSector);
    StableIsTarget(space, perSector, t);
    CeilIs(space - 2 * s + 2, k);
    CeilIs(space - 2 * t + 2, k);
    assert k * (n - t) == k * n - k * t;
    Contraction(k, n - t, s - t);
  }

  lemma TargetFits(space: nat, perSector: nat)
    requires Sane(space, perSector)
    ensures 2 * Target(space, perSector) <= space
  {
    var m, q := perSector + 2, (space + 1) / (perSector + 2);
    assert space + 1 == m * q + (space + 1) % m;
    assert (m - 10) * q >= 0 && (m - 10) * q == m * q - 10 * q;
  }

  lemma RoundsTheSame(k: int, x: int, t: int)
    requires k >= 8 && IsCeil(x, k, t)
    ensures IsCeil(x - 2, k, t - 1) ==> IsCeil(x + 2, k, t)
    ensures IsCeil(x + 2, k, t + 1) ==> IsCeil(x - 2, k, t)
  {
    assert k * (t - 1) == k * t - k && k * (t + 1) == k * t + k;
  }

  /** Overshooting by one to the other side happens at most once. */
  lemma NoPingPong(space: nat, perSector: nat)
    requires Sane(space, perSector) && Settles(space, perSector)
    ensures var t := Target(space, perSector);
      2 * (t + 1) <= space ==>
        && (NextSize(space, perSector, t + 1) == t - 1 ==> NextSize(space, perSector, t - 1) == t)
        && (NextSize(space, perSector, t - 1) == t + 1 ==> NextSize(space, perSector, t + 1) == t)
  {
    var k, t := perSector, Target(space, perSector);
    var x := space - 2 * t + 2;
    TargetFits(space, perSector);
    StableIsTarget(space, perSector, t);
    if 2 * (t + 1) <= space {
      CeilIs(x, k);
      RoundsTheSame(k, x, t);
      CeilIs(x - 2, k);
      CeilIs(x + 2, k);
      if NextSize(space, k, t + 1) == t - 1 { CeilUnique(x + 2, k, t, NextSize(space, k, t - 1)); }
      if NextSize(space, k, t - 1) == t + 1 { CeilUnique(x - 2, k, t, NextSize(space, k, t + 1)); }
    }
  }

  /** Rounds left, at most, until the size settles. */
  function Rank(space: nat, perSector: nat, s: nat): nat
    requires perSector > 0 && 2 * s <= space
  {
    var t := Target(space, perSector);
    if s == t then 0
    else if NextSize(space, perSector, s) == t then 1
    else if Abs(s - t) == 1 then 2
    else Abs(s - t) + 1
  }

  lemma RankDecreases(space: nat, perSector: nat, s: nat)
    requires Sane(space, perSector) && Settles(space, perSector) && 2 * s <= space && s != Target(space, perSector)
    ensures 2 * NextSize(space, perSector, s) <= space
    ensures Rank(space, perSector, NextSize(space, perSector, s)) < Rank(space, perSector, s)
  {
    NextSizeFits(space, perSector, s);
    NextSizeNear(space, perSector, s);
    NoPingPong(space, perSector);
  }

  // --- The loop ---

  /** The table size after `n` rounds, starting from no table at all. */
  ghost function Rounds(space: nat, perSector: nat, n: nat): (s: nat)
    requires Sane(space, perSector)
    ensures 2 * s <= space
  {
    if n == 0 then 0
    else
      NextSizeFits(space, perSector, Rounds(space, perSector, n - 1));
      NextSize(space, perSector, Rounds(space, perSector, n - 1))
  }

  /** Round `n + 1` changes nothing, so the loop ends. */
  ghost predicate EndsAfter(space: nat, perSector: nat, n: nat)
    requires Sane(space, perSector)
  {
    Rounds(space, perSector, n + 1) == Rounds(space, perSector, n)
  }

  /** The loop ends exactly when the space settles; otherwise the cluster count changes in every round. */
  lemma EndsIffSettles(space: nat, perSector: nat)
    requires Sane(space, perSector)
    ensures (exists n: nat :: EndsAfter(space, perSector, n)) <==> Settles(space, perSector)
  {
    forall n: nat | EndsAfter(space, perSector, n)
      ensures Settles(space, perSector)
    {
      StableIsTarget(space, perSector, Rounds(space, perSector, n));
    }
    if Settles(space, perSector) {
      var n := SettlesWithin(space, perSector, 0);
      assert EndsAfter(space, perSector, n);
    }
  }

  /** A volume of 132 sectors of 512 bytes, two of them reserved, is accepted and never settles. */
  lemma NeverSettles(n: nat)
    ensures Sane(132 - 2, 512 / 4) && !EndsAfter(132 - 2, 512 / 4, n)
  {
    EndsIffSettles(132 - 2, 512 / 4);
  }

  lemma {:induction false} SettlesWithin(space: nat, perSector: nat, n: nat) returns (k: nat)
    requires Sane(space, perSector) && Settles(space, perSector)
    ensures Rounds(space, perSector, k + 1) == Rounds(space, perSector, k) == Target(space, perSector)
    decreases Rank(space, perSector, Rounds(space, perSector, n))
  {
    var s := Rounds(space, perSector, n);
    if s == Target(space, perSector) {
      StableIsTarget(space, perSector, s);
      k := n;
    } else {
      RankDecreases(space, perSector, s);
      k := SettlesWithin(space, perSector, n + 1);
    }
  }

  /** One pass through the loop body. */
  method Round(sectors: nat, reserved: nat, bytesPerSector: nat, sectorsPerFat: nat)
    returns (clusters: nat, next: nat)
    requires bytesPerSector % 4 == 0 && bytesPerSector >= 32 && reserved + 4 <= sectors
    requires reserved + 2 * sectorsPerFat <= sectors
    ensures clusters == sectors - reserved - 2 * sectorsPerFat
    ensures next == NextSize(sectors - reserved, bytesPerSector / 4, sectorsPerFat)
    ensures reserved + 2 * next <= sectors
  {
    clusters := sectors - reserved - sectorsPerFat * 2;
    var fatSize := 4 * (clusters + 2);
    next := (fatSize + bytesPerSector - 1) / bytesPerSector;
    BytesToSectors(clusters + 2, bytesPerSector / 4, bytesPerSector);
    NextSizeFits(sectors - reserved, bytesPerSector / 4, sectorsPerFat);
  }

  /** On exit the table holds an entry for every cluster and two more, wastes no sector, and everything fits exactly. */
  method InitializeFat(sectors: nat, reserved: nat, bytesPerSector: nat) returns (clusters: nat, sectorsPerFat: nat)
    requires bytesPerSector % 4 == 0 && bytesPerSector >= 32 && reserved + 4 <= sectors
    requires Settles(sectors - reserved, bytesPerSector / 4)
    ensures reserved + 2 * sectorsPerFat + clusters == sectors
    ensures IsCeil(4 * (clusters + 2), bytesPerSector, sectorsPerFat)
    ensures sectorsPerFat == Target(sectors - reserved, bytesPerSector / 4)
  {
    ghost var space, k := sectors - reserved, bytesPerSector / 4;
    var lastClusters;
    clusters, sectorsPerFat := 0, 0;
    lastClusters := clusters;
    clusters, sectorsPerFat := Round(sectors, reserved, bytesPerSector, sectorsPerFat);
    ghost var s: nat := 0;
    while clusters != lastClusters
      invariant 2 * sectorsPerFat <= space && 2 * s <= space && clusters == space - 2 * s
      invariant sectorsPerFat == NextSize(space, k, s)
      invariant clusters == lastClusters ==> sectorsPerFat == s
      decreases clusters != lastClusters, Rank(space, k, s)
    {
      StableIsTarget(space, k, s);
      if s != Target(space, k) { RankDecreases(space, k, s); }
      s := sectorsPerFat;
      lastClusters := clusters;
      clusters, sectorsPerFat := Round(sectors, reserved, bytesPerSector, sectorsPerFat);
    }
    StableIsTarget(space, k, s);
    BytesToSectors(clusters + 2, k, bytesPerSector);
  }

  lemma BytesToSectors(entries: nat, k: nat, bytes: nat)
    requires k > 0 && bytes == 4 * k
    ensures (4 * entries + bytes - 1) / bytes == Ceil(entries, k)
    ensures IsCeil(4 * entries, bytes, Ceil(entries, k))
  {
    var c, d := Ceil(entries, k), (4 * entries + bytes - 1) / bytes;
    CeilIs(entries, k);
    CeilIs(4 * entries, bytes);
    assert bytes * c == 4 * (k * c);
    CeilUnique(4 * entries, bytes, c, d);
  }
}
