/** Values used throughout. */
module Basics {

  type byte = x: int | 0 <= x < 256

  datatype Option<+T> = None | Some(value: T)

  function Abs(x: int): nat {
    if x < 0 then -x else x
  }

  lemma SmallMultiple(m: int, d: int, product: int)
    requires m > 0 && product == m * d && -m < product < m
    ensures d == 0
  {
    assert d >= 1 ==> m * d >= m;
    assert d <= -1 ==> m * d + m <= 0;
  }

  lemma RemainderUnique(x: nat, m: nat, q: int, r: nat)
    requires r < m && x == m * q + r
    ensures x % m == r
  {
    assert x == m * (x / m) + x % m;
    assert m * (x / m - q) == m * (x / m) - m * q;
    SmallMultiple(m, x / m - q, r - x % m);
  }
}
