/** Facts about slices and concatenations. */
module Sequences {

  lemma Associate<T>(a: seq<T>, b: seq<T>, c: seq<T>)
    ensures a + (b + c) == (a + b) + c
  {
  }

  lemma Parted<T>(q: seq<T>, n: nat)
    requires n <= |q|
    ensures q == q[..n] + q[n..]
  {
  }

  lemma SubSlice<T>(m: seq<T>, a: nat, n: nat, off: nat, k: nat)
    requires a + n <= |m| && off + k <= n
    ensures m[a..a + n][off..off + k] == m[a + off..a + off + k]
  {
    var part := m[a..a + n];
    var x, y := part[off..off + k], m[a + off..a + off + k];
    forall i | 0 <= i < k ensures x[i] == y[i] {
      assert part[off + i] == m[a + off + i];
    }
  }
}
