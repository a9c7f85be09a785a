/** Bloom filters: a filter made from some keys matches each of them. */
module Bloom {
  import opened Hashing

  const TWO32: nat := 0x1_0000_0000

  /** The bit `j` of a byte. */
  function Mask(j: nat): bv8
    requires j < 8
  {
    match j
    case 0 => 0x01
    case 1 => 0x02
    case 2 => 0x04
    case 3 => 0x08
    case 4 => 0x10
    case 5 => 0x20
    case 6 => 0x40
    case 7 => 0x80
  }

  predicate Marked(byte: bv8, mask: bv8) {
    byte & mask != 0
  }

  function Mark(byte: bv8, mask: bv8): bv8 {
    byte | mask
  }

  /** Bits are counted from the least significant. */
  lemma MarkedIs(byte: bv8, j: nat)
    requires j < 8
    ensures Marked(byte, Mask(j)) <==> (byte >> j) & 1 == 1
  {
  }

  lemma MarkKeeps(byte: bv8, mask: bv8, other: bv8)
    ensures Marked(byte, other) ==> Marked(Mark(byte, mask), other)
  {
  }

  lemma MarkOnly(byte: bv8, i: nat, j: nat)
    requires i < 8 && j < 8 && Marked(Mark(byte, Mask(i)), Mask(j))
    ensures Marked(byte, Mask(j)) || i == j
  {
    if i != j {
      MasksApart(byte, Mask(i), Mask(j));
    }
  }

  lemma MasksApart(byte: bv8, a: bv8, b: bv8)
    requires a & b == 0 && (byte | a) & b != 0
    ensures byte & b != 0
  {
  }

  lemma MarkMarks(byte: bv8, j: nat)
    requires j < 8
    ensures Marked(Mark(byte, Mask(j)), Mask(j))
  {
  }

  predicate BitSet(arr: seq<bv8>, pos: nat)
    requires pos < 8 * |arr|
  {
    Marked(arr[pos / 8], Mask(pos % 8))
  }

  function SetBit(arr: seq<bv8>, pos: nat): seq<bv8>
    requires pos < 8 * |arr|
  {
    arr[pos / 8 := Mark(arr[pos / 8], Mask(pos % 8))]
  }

  lemma SetBitSets(arr: seq<bv8>, pos: nat)
    requires pos < 8 * |arr|
    ensures BitSet(SetBit(arr, pos), pos)
  {
    hide Mark;
    hide Marked;
    hide Mask;
    MarkMarks(arr[pos / 8], pos % 8);
  }

  lemma SetBitKeeps(arr: seq<bv8>, pos: nat, other: nat)
    requires pos < 8 * |arr| && other < 8 * |arr| && BitSet(arr, other)
    ensures BitSet(SetBit(arr, pos), other)
  {
    hide Mark;
    hide Marked;
    hide Mask;
    if pos / 8 == other / 8 {
      MarkKeeps(arr[pos / 8], Mask(pos % 8), Mask(other % 8));
    }
  }

  /** Setting a bit sets no other. */
  lemma SetBitOnly(arr: seq<bv8>, pos: nat, other: nat)
    requires pos < 8 * |arr| && other < 8 * |arr| && |SetBit(arr, pos)| == |arr| && BitSet(SetBit(arr, pos), other)
    ensures BitSet(arr, other) || other == pos
  {
    hide Mark, Marked, Mask;
    if pos / 8 == other / 8 {
      MarkOnly(arr[pos / 8], pos % 8, other % 8);
    }
  }

  lemma ClearAtFirst(arr: seq<bv8>, pos: nat)
    requires pos < 8 * |arr| && forall i :: 0 <= i < |arr| ==> arr[i] == 0
    ensures !BitSet(arr, pos)
  {
    assert 0 as bv8 & Mask(pos % 8) == 0;
  }

  // ---- Probes ----

  /** The hash rotated right by 17 bits. */
  function Delta(h: nat): nat {
    h / 0x2_0000 + h % 0x2_0000 * 0x8000
  }

  /** The `j`th hash of a key by double hashing. */
  function Probe(h: nat, j: nat): nat {
    if j == 0 then h % TWO32 else (Probe(h, j - 1) + Delta(h % TWO32)) % TWO32
  }

  function Position(h: nat, j: nat, bits: nat): (p: nat)
    requires bits > 0
    ensures p < bits
  {
    Reduce(Probe(h, j), bits)
  }

  lemma {:induction false} ProbeSum(h: nat, j: nat)
    requires h < TWO32
    ensures Probe(h, j) == (h + j * Delta(h)) % TWO32
  {
    hide Delta;
    assert h % TWO32 == h;
    if j > 0 {
      ProbeSum(h, j - 1);
      OneStep(h, j - 1, Delta(h));
    }
  }

  /** Double hashing, written out: the `j`th probe is the hash plus `j` times the hash rotated right by 17 bits. */
  lemma ProbeIs(h: nat, j: nat)
    requires h < TWO32
    ensures var d := h / 0x2_0000 + h % 0x2_0000 * 0x8000; Probe(h, j) == (h + j * d) % TWO32
  {
    ProbeSum(h, j);
    hide Probe;
  }

  lemma OneStep(h: nat, n: nat, d: nat)
    ensures ((h + n * d) % TWO32 + d) % TWO32 == (h + (n + 1) * d) % TWO32
  {
    AddMod(h + n * d, d);
    assert (n + 1) * d == n * d + d;
  }

  lemma AddMod(x: nat, d: nat)
    ensures (x % TWO32 + d) % TWO32 == (x + d) % TWO32
  {
  }

  /** The first `n` probes of a key hit set bits. */
  ghost predicate AllSet(arr: seq<bv8>, h: nat, n: nat)
    requires |arr| > 0
  {
    forall j :: 0 <= j < n ==> BitSet(arr, Position(h, j, 8 * |arr|))
  }

  /** Bit `pos` is a probe of one of the keys, or among the first `n` of the one behind them. */
  ghost predicate Probed(hashes: seq<nat>, k: nat, n: nat, next: nat, bits: nat, pos: nat)
    requires bits > 0
  {
    || (exists i, j :: 0 <= i < |hashes| && 0 <= j < k && pos == Position(hashes[i], j, bits))
    || (exists j :: 0 <= j < n && pos == Position(next, j, bits))
  }

  /** Only bits that are probes of the keys are set. */
  ghost predicate NoneElse(arr: seq<bv8>, hashes: seq<nat>, k: nat, n: nat, next: nat)
    requires |arr| > 0
  {
    forall pos :: 0 <= pos < 8 * |arr| && BitSet(arr, pos) ==> Probed(hashes, k, n, next, 8 * |arr|, pos)
  }

  lemma NothingProbed(arr: seq<bv8>, k: nat)
    requires |arr| > 0 && forall i :: 0 <= i < |arr| ==> arr[i] == 0
    ensures NoneElse(arr, [], k, 0, 0)
  {
    forall pos | 0 <= pos < 8 * |arr| ensures !BitSet(arr, pos) {
      ClearAtFirst(arr, pos);
    }
  }

  lemma OneMoreProbed(arr: seq<bv8>, hashes: seq<nat>, k: nat, n: nat, next: nat, pos: nat)
    requires |arr| > 0 && NoneElse(arr, hashes, k, n, next) && pos == Position(next, n, 8 * |arr|)
    ensures |SetBit(arr, pos)| == |arr| && NoneElse(SetBit(arr, pos), hashes, k, n + 1, next)
  {
    hide BitSet, Position, SetBit;
    SetSize(arr, pos);
    forall q | 0 <= q < 8 * |arr| && BitSet(SetBit(arr, pos), q) ensures Probed(hashes, k, n + 1, next, 8 * |arr|, q) {
      SetBitOnly(arr, pos, q);
      if BitSet(arr, q) {
        assert Probed(hashes, k, n, next, 8 * |arr|, q);
      }
    }
  }

  /** A key all of whose probes are made is one of the keys. */
  lemma KeyProbed(arr: seq<bv8>, hashes: seq<nat>, k: nat, next: nat, any: nat)
    requires |arr| > 0 && NoneElse(arr, hashes, k, k, next)
    ensures NoneElse(arr, hashes + [next], k, 0, any)
  {
    hide BitSet, Position;
    var all := hashes + [next];
    forall pos | 0 <= pos < 8 * |arr| && BitSet(arr, pos) ensures Probed(all, k, 0, any, 8 * |arr|, pos) {
      assert Probed(hashes, k, k, next, 8 * |arr|, pos);
      if i, j :| 0 <= i < |hashes| && 0 <= j < k && pos == Position(hashes[i], j, 8 * |arr|) {
        assert pos == Position(all[i], j, 8 * |arr|);
      } else {
        var j :| 0 <= j < k && pos == Position(next, j, 8 * |arr|);
        assert pos == Position(all[|hashes|], j, 8 * |arr|);
      }
    }
  }

  // ---- The policy ----

  /** A filter and how many probes it was made with. */
  datatype Policy = Policy(bitsPerKey: nat, k: nat)

  /** `probes` is what `bitsPerKey * 0.69` rounds down to. */
  function MakePolicy(bitsPerKey: nat, probes: nat): (p: Policy)
    ensures 1 <= p.k <= 30
  {
    Policy(bitsPerKey, if probes < 1 then 1 else if probes > 30 then 30 else probes)
  }

  method CreateFilter(p: Policy, hashes: seq<nat>) returns (arr: seq<bv8>, k: nat)
    requires 1 <= p.k <= 30
    ensures k == p.k && |arr| >= 8 && 8 * |arr| >= |hashes| * p.bitsPerKey && (|arr| > 8 ==> 8 * (|arr| - 1) < |hashes| * p.bitsPerKey)
    ensures forall i :: 0 <= i < |hashes| ==> AllSet(arr, hashes[i], k)
    ensures forall pos :: 0 <= pos < 8 * |arr| && BitSet(arr, pos) ==>
              exists i, j :: 0 <= i < |hashes| && 0 <= j < k && pos == Position(hashes[i], j, 8 * |arr|)
  {
    hide BitSet, SetBit, Probe, Position, NoneElse;
    k := p.k;
    var bits := |hashes| * p.bitsPerKey;
    if bits < 64 {
      bits := 64;
    }
    var bytes := (bits + 7) / 8;
    bits := bytes * 8;
    arr := seq(bytes, _ => 0);
    NothingProbed(arr, k);
    for i := 0 to |hashes|
      invariant |arr| == bytes && NoneElse(arr, hashes[..i], k, 0, 0)
      invariant forall m :: 0 <= m < i ==> AllSet(arr, hashes[m], k)
    {
      var h := hashes[i] % TWO32;
      var delta := Delta(h);
      ProbeStarts(hashes[i]);
      NextProbed(arr, hashes[..i], k, hashes[i]);
      for j := 0 to k
        invariant |arr| == bytes && NoneElse(arr, hashes[..i], k, j, hashes[i])
        invariant h == Probe(hashes[i], j) && delta == Delta(hashes[i] % TWO32)
        invariant forall m :: 0 <= m < i ==> AllSet(arr, hashes[m], k)
        invariant AllSet(arr, hashes[i], j)
      {
        PositionIs(hashes[i], j, bits);
        var bitpos := Reduce(h, bits);
        Remembered(arr, bitpos, hashes[i], j);
        forall m | 0 <= m < i ensures AllSet(SetBit(arr, bitpos), hashes[m], k) {
          Kept(arr, bitpos, hashes[m], k);
        }
        SetSize(arr, bitpos);
        OneMoreProbed(arr, hashes[..i], k, j, hashes[i], bitpos);
        arr := SetBit(arr, bitpos);
        ProbeNext(hashes[i], j);
        h := (h + delta) % TWO32;
      }
      KeyProbed(arr, hashes[..i], k, hashes[i], 0);
      assert hashes[..i + 1] == hashes[..i] + [hashes[i]];
    }
    assert hashes[..|hashes|] == hashes;
    OnlyProbes(arr, hashes, k);
  }

  lemma NextProbed(arr: seq<bv8>, hashes: seq<nat>, k: nat, next: nat)
    requires |arr| > 0 && NoneElse(arr, hashes, k, 0, 0)
    ensures NoneElse(arr, hashes, k, 0, next)
  {
    hide BitSet, Position;
    forall pos | 0 <= pos < 8 * |arr| && BitSet(arr, pos) ensures Probed(hashes, k, 0, next, 8 * |arr|, pos) {
      assert Probed(hashes, k, 0, 0, 8 * |arr|, pos);
    }
  }

  lemma OnlyProbes(arr: seq<bv8>, hashes: seq<nat>, k: nat)
    requires |arr| > 0 && NoneElse(arr, hashes, k, 0, 0)
    ensures forall pos :: 0 <= pos < 8 * |arr| && BitSet(arr, pos) ==>
              exists i, j :: 0 <= i < |hashes| && 0 <= j < k && pos == Position(hashes[i], j, 8 * |arr|)
  {
    hide BitSet, Position;
    forall pos | 0 <= pos < 8 * |arr| && BitSet(arr, pos)
      ensures exists i, j :: 0 <= i < |hashes| && 0 <= j < k && pos == Position(hashes[i], j, 8 * |arr|)
    {
      assert Probed(hashes, k, 0, 0, 8 * |arr|, pos);
    }
  }

  lemma SetSize(arr: seq<bv8>, pos: nat)
    requires pos < 8 * |arr|
    ensures |SetBit(arr, pos)| == |arr|
  {
  }

  lemma ProbeStarts(h: nat)
    ensures Probe(h, 0) == h % TWO32
  {
  }

  lemma ProbeNext(h: nat, j: nat)
    ensures Probe(h, j + 1) == (Probe(h, j) + Delta(h % TWO32)) % TWO32
  {
  }

  lemma PositionIs(h: nat, j: nat, bits: nat)
    requires bits > 0
    ensures Position(h, j, bits) == Reduce(Probe(h, j), bits)
  {
  }

  lemma Kept(arr: seq<bv8>, pos: nat, h: nat, n: nat)
    requires |arr| > 0 && pos < 8 * |arr| && AllSet(arr, h, n)
    ensures |SetBit(arr, pos)| == |arr| && AllSet(SetBit(arr, pos), h, n)
  {
    hide Position;
    SetSize(arr, pos);
    forall j | 0 <= j < n ensures BitSet(SetBit(arr, pos), Position(h, j, 8 * |arr|)) {
      SetBitKeeps(arr, pos, Position(h, j, 8 * |arr|));
    }
  }

  lemma Remembered(arr: seq<bv8>, pos: nat, h: nat, n: nat)
    requires |arr| > 0 && pos == Position(h, n, 8 * |arr|) && AllSet(arr, h, n)
    ensures |SetBit(arr, pos)| == |arr| && AllSet(SetBit(arr, pos), h, n + 1)
  {
    Kept(arr, pos, h, n);
    SetBitSets(arr, pos);
  }

  /** A filter made with at most 30 probes matches a key exactly if all its probes are set. */
  method KeyMayMatch(arr: seq<bv8>, k: nat, hash: nat) returns (may: bool)
    ensures |arr| > 0 && k <= 30 ==> (may <==> AllSet(arr, hash, k))
    ensures |arr| == 0 ==> !may
    ensures |arr| > 0 && k > 30 ==> may
  {
    hide BitSet;
    hide Probe;
    hide Position;
    if |arr| == 0 {
      return false;
    }
    if k > 30 {
      return true;
    }
    var bits := |arr| * 8;
    var h := hash % TWO32;
    var delta := Delta(h);
    ProbeStarts(hash);
    for j := 0 to k
      invariant h == Probe(hash, j) && delta == Delta(hash % TWO32) && AllSet(arr, hash, j)
    {
      PositionIs(hash, j, bits);
      if !BitSet(arr, Reduce(h, bits)) {
        return false;
      }
      ProbeNext(hash, j);
      h := (h + delta) % TWO32;
    }
    return true;
  }
}
