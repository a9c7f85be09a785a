/** Reducing a hash to a range. */
module Hashing {

  /** The remainder of a hash. */
  function Reduce(hash: nat, n: nat): (b: nat)
    requires n > 0
    ensures b < n
  {
    if hash < n then hash else Reduce(hash - n, n)
  }

  lemma {:induction false} ReduceIs(hash: nat, n: nat)
    requires n > 0
    ensures Reduce(hash, n) == hash % n
  {
    if hash >= n {
      ReduceIs(hash - n, n);
      Again(hash - n, n);
    }
  }

  lemma Again(x: nat, n: nat)
    requires n > 0
    ensures (x + n) % n == x % n
  {
    var q, r := (x + n) / n, (x + n) % n;
    assert x + n == n * q + r;
    assert n * (q - 1) == n * q - n;
    Unique(x, n, q - 1, r);
  }

  lemma Unique(x: nat, n: nat, q: int, r: nat)
    requires n > 0 && r < n && x == n * q + r
    ensures x % n == r
  {
    var k := q - x / n;
    assert x == n * (x / n) + x % n;
    assert n * k == n * q - n * (x / n);
    assert k >= 1 ==> n * k >= n;
    assert k <= -1 ==> n * k + n <= 0;
  }

  /** Bitwise and. */
  function And(a: nat, b: nat): nat {
    if a == 0 || b == 0 then 0 else (a % 2) * (b % 2) + 2 * And(a / 2, b / 2)
  }

  predicate PowerOfTwo(n: nat) {
    n == 1 || (n > 1 && n % 2 == 0 && PowerOfTwo(n / 2))
  }

  lemma {:induction false} ReduceHalves(hash: nat, m: nat)
    requires m > 0
    ensures Reduce(hash, 2 * m) == hash % 2 + 2 * Reduce(hash / 2, m)
  {
    if hash >= 2 * m {
      ReduceHalves(hash - 2 * m, m);
    }
  }

  lemma {:induction false} ReduceToZero(hash: nat)
    ensures Reduce(hash, 1) == 0
  {
    if hash > 0 {
      ReduceToZero(hash - 1);
    }
  }

  /** For a power of two, masking the low bits gives the remainder. */
  lemma {:induction false} MaskReduces(hash: nat, n: nat)
    requires PowerOfTwo(n)
    ensures And(hash, n - 1) == Reduce(hash, n)
    decreases n
  {
    if n == 1 {
      ReduceToZero(hash);
    } else {
      MaskReduces(hash / 2, n / 2);
      ReduceHalves(hash, n / 2);
    }
  }
}
