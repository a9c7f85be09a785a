/** Prefix-compressed blocks: what the bytes of a block are. */
module BlockFormat {
  import opened InternalKeys
  import opened Sequences
  import opened Coding

  datatype Pair = Pair(key: Bytes, value: Bytes)

  /** How many bytes two keys share at the front. */
  function Common(a: Bytes, b: Bytes): (n: nat)
    ensures n <= |a| && n <= |b| && a[..n] == b[..n]
    ensures n < |a| && n < |b| ==> a[n] != b[n]
  {
    if a == [] || b == [] || a[0] != b[0] then 0
    else
      var n := 1 + Common(a[1..], b[1..]);
      assert a[..n] == [a[0]] + a[1..][..n - 1] && b[..n] == [b[0]] + b[1..][..n - 1];
      n
  }

  /** How many entries were added since the last restart point, after `n` entries. */
  function Counter(interval: nat, n: nat): nat {
    if n == 0 then 0 else if Counter(interval, n - 1) < interval then Counter(interval, n - 1) + 1 else 1
  }

  /** The `i`th entry starts a run of shared keys afresh. */
  predicate Restarts(interval: nat, i: nat) {
    Counter(interval, i) >= interval
  }

  /** Every `interval`th entry does. */
  lemma {:induction false} RestartsEvery(interval: nat, i: nat)
    requires interval >= 1
    ensures Counter(interval, i) == if i == 0 then 0 else (i - 1) % interval + 1
    ensures Restarts(interval, i) <==> i > 0 && i % interval == 0
  {
    if i == 1 {
      NextRemainder(0, interval);
      assert 0 % interval == 0;
    } else if i > 1 {
      RestartsEvery(interval, i - 1);
      NextRemainder(i - 2, interval);
      NextRemainder(i - 1, interval);
    }
  }

  lemma NextRemainder(n: nat, d: nat)
    requires d >= 1
    ensures (n + 1) % d == if n % d + 1 == d then 0 else n % d + 1
  {
    var q, r := n / d, n % d;
    assert n == d * q + r;
    if r + 1 == d {
      assert n + 1 == d * (q + 1) + 0;
      RemainderIs(n + 1, d, q + 1, 0);
    } else {
      RemainderIs(n + 1, d, q, r + 1);
    }
  }

  lemma RemainderIs(x: nat, d: nat, q: nat, r: nat)
    requires d > 0 && r < d && x == d * q + r
    ensures x % d == r
  {
    Quotient(x, d, q, r);
  }

  function SharedAt(es: seq<Pair>, interval: nat, i: nat): (n: nat)
    requires i < |es|
    ensures n <= |es[i].key| && (i > 0 ==> n <= |es[i - 1].key| && es[i - 1].key[..n] == es[i].key[..n]) && (i == 0 ==> n == 0)
  {
    if i == 0 || Restarts(interval, i) then 0 else Common(es[i - 1].key, es[i].key)
  }

  function EntryHead(shared: nat, unshared: nat, valueSize: nat): Bytes {
    Varint(shared) + Varint(unshared) + Varint(valueSize)
  }

  function EntryBytes(shared: nat, e: Pair): Bytes
    requires shared <= |e.key|
  {
    EntryHead(shared, |e.key| - shared, |e.value|) + (e.key[shared..] + e.value)
  }

  /** The first `n` entries. */
  function Data(es: seq<Pair>, interval: nat, n: nat): Bytes
    requires n <= |es|
  {
    if n == 0 then [] else Data(es, interval, n - 1) + EntryBytes(SharedAt(es, interval, n - 1), es[n - 1])
  }

  function Offset(es: seq<Pair>, interval: nat, i: nat): nat
    requires i <= |es|
  {
    |Data(es, interval, i)|
  }

  /** The entries at the restart points among the first `n`. */
  function RestartEntries(interval: nat, n: nat): (r: seq<nat>)
    ensures |r| > 0 && r[0] == 0
    ensures forall k :: 0 < k < |r| ==> 0 < r[k] < n && Restarts(interval, r[k])
    ensures forall j, k :: 0 <= j < k < |r| ==> r[j] < r[k]
    decreases n
  {
    if n == 0 then [0]
    else if n > 1 && Restarts(interval, n - 1) then RestartEntries(interval, n - 1) + [n - 1]
    else RestartEntries(interval, n - 1)
  }

  function RestartOffsets(es: seq<Pair>, interval: nat, n: nat): (r: seq<nat>)
    requires n <= |es|
    ensures |r| == |RestartEntries(interval, n)|
  {
    if n == 0 then [0]
    else if n > 1 && Restarts(interval, n - 1) then RestartOffsets(es, interval, n - 1) + [Offset(es, interval, n - 1)]
    else RestartOffsets(es, interval, n - 1)
  }

  function FixedAll(xs: seq<nat>): Bytes {
    if xs == [] then [] else FixedAll(xs[..|xs| - 1]) + Fixed(xs[|xs| - 1], 4)
  }

  lemma {:induction false} FixedAllAt(xs: seq<nat>, n: nat, k: nat)
    requires k < n <= |xs|
    ensures |FixedAll(xs[..n])| == 4 * n
    ensures FixedAll(xs[..n])[4 * k..4 * k + 4] == Fixed(xs[k], 4)
  {
    hide Fixed;
    assert xs[..n][..n - 1] == xs[..n - 1];
    var before := FixedAll(xs[..n - 1]);
    if k < n - 1 {
      FixedAllAt(xs, n - 1, k);
      assert FixedAll(xs[..n])[4 * k..4 * k + 4] == before[4 * k..4 * k + 4];
    } else {
      FixedAllSize(xs, n - 1);
    }
  }

  lemma {:induction false} FixedAllSize(xs: seq<nat>, n: nat)
    requires n <= |xs|
    ensures |FixedAll(xs[..n])| == 4 * n
  {
    hide Fixed;
    if n > 0 {
      assert xs[..n][..n - 1] == xs[..n - 1];
      FixedAllSize(xs, n - 1);
    }
  }

  /** The finished block. */
  function Block(es: seq<Pair>, interval: nat): Bytes {
    var restarts := RestartOffsets(es, interval, |es|);
    Data(es, interval, |es|) + FixedAll(restarts) + Fixed(|restarts|, 4)
  }

  // ---- Layout ----

  lemma {:induction false} OffsetsGrow(es: seq<Pair>, interval: nat, i: nat, j: nat)
    requires i <= j <= |es|
    ensures Offset(es, interval, i) <= Offset(es, interval, j)
    ensures i < j ==> Offset(es, interval, i) < Offset(es, interval, j)
    ensures Data(es, interval, j)[..Offset(es, interval, i)] == Data(es, interval, i)
  {
    hide EntryBytes;
    if i < j {
      EntrySize(SharedAt(es, interval, j - 1), es[j - 1]);
      hide SharedAt;
      OffsetsGrow(es, interval, i, j - 1);
      var d, before := Data(es, interval, j), Data(es, interval, j - 1);
      assert d[..|before|] == before;
      assert d[..Offset(es, interval, i)] == before[..Offset(es, interval, i)];
    } else {
      assert Data(es, interval, j)[..Offset(es, interval, j)] == Data(es, interval, j);
    }
  }

  lemma EntrySize(shared: nat, e: Pair)
    requires shared <= |e.key|
    ensures |EntryBytes(shared, e)| > 0
  {
  }

  /** The bytes of entry `i` in the data. */
  lemma EntryAt(es: seq<Pair>, interval: nat, i: nat)
    requires i < |es|
    ensures var s, e := Offset(es, interval, i), Offset(es, interval, i + 1);
            s < e <= |Data(es, interval, |es|)|
            && Data(es, interval, |es|)[s..e] == EntryBytes(SharedAt(es, interval, i), es[i])
  {
    hide EntryBytes;
    OffsetsGrow(es, interval, i + 1, |es|);
    OffsetsGrow(es, interval, i, i + 1);
    var all, part, s, e := Data(es, interval, |es|), Data(es, interval, i + 1), Offset(es, interval, i), Offset(es, interval, i + 1);
    assert part[s..e] == EntryBytes(SharedAt(es, interval, i), es[i]);
    assert all[..e] == part;
    SubSlice(all, 0, e, s, e - s);
  }

  lemma {:induction false} OffsetOfRestart(es: seq<Pair>, interval: nat, n: nat, k: nat)
    requires n <= |es| && k < |RestartEntries(interval, n)|
    ensures RestartEntries(interval, n)[k] <= |es|
    ensures RestartOffsets(es, interval, n)[k] == Offset(es, interval, RestartEntries(interval, n)[k])
  {
    hide Data;
    if n > 0 && k < |RestartEntries(interval, n - 1)| {
      OffsetOfRestart(es, interval, n - 1, k);
    }
    if n == 0 {
      NoData(es, interval);
    }
  }

  lemma NoData(es: seq<Pair>, interval: nat)
    ensures Offset(es, interval, 0) == 0
  {
  }

  // ---- Reading back ----

  /** An entry's numbers, and how many bytes they take. */
  datatype Head = Head(shared: nat, unshared: nat, valueSize: nat, size: nat)

  /** The numbers at the front of what is left before the restart array: one byte each when all are small. */
  function DecodeEntry(b: Bytes): (r: Option<Head>)
    ensures r.Some? ==> 3 <= r.value.size <= |b|
  {
    if |b| < 3 then None
    else
      var h := if b[0] < 128 && b[1] < 128 && b[2] < 128 then Some(Head(b[0], b[1], b[2], 3)) else SlowHead(b);
      if h.None? || |b| - h.value.size < (h.value.unshared + h.value.valueSize) % 0x1_0000_0000 then None else h
  }

  function SlowHead(b: Bytes): (r: Option<Head>)
    ensures r.Some? ==> 3 <= r.value.size <= |b|
  {
    match VarintIn(b, 5)
    case None => None
    case Some((x, i)) =>
      match VarintIn(b[i..], 5)
      case None => None
      case Some((y, j)) =>
        match VarintIn(b[i + j..], 5)
        case None => None
        case Some((z, k)) => Some(Head(x % 0x1_0000_0000, y % 0x1_0000_0000, z % 0x1_0000_0000, i + j + k))
  }

  lemma SlowHeadBack(x: nat, y: nat, z: nat, rest: Bytes)
    requires x < 0x1_0000_0000 && y < 0x1_0000_0000 && z < 0x1_0000_0000
    ensures SlowHead(EntryHead(x, y, z) + rest) == Some(Head(x, y, z, |EntryHead(x, y, z)|))
  {
    hide Varint;
    hide VarintIn;
    hide Pow;
    Pow128();
    VarintLength(x, 5);
    VarintLength(y, 5);
    VarintLength(z, 5);
    var b := EntryHead(x, y, z) + rest;
    assert b == Varint(x) + (Varint(y) + (Varint(z) + rest));
    VarintBack(x, Varint(y) + (Varint(z) + rest), 5);
    VarintBack(y, Varint(z) + rest, 5);
    VarintBack(z, rest, 5);
    assert b[|Varint(x)|..] == Varint(y) + (Varint(z) + rest);
    assert b[|Varint(x)| + |Varint(y)|..] == Varint(z) + rest;
  }

  /** A varint starts with a byte without the continuation bit exactly if it is that byte. */
  lemma OneByte(x: nat)
    ensures Varint(x)[0] < 128 <==> x < 128
    ensures x < 128 ==> Varint(x) == [x]
  {
  }

  lemma SmallHead(x: nat, y: nat, z: nat, rest: Bytes)
    requires var b := EntryHead(x, y, z) + rest; |b| >= 3 && b[0] < 128 && b[1] < 128 && b[2] < 128
    requires |Varint(x)| + |Varint(y)| + |Varint(z)| >= 3
    ensures x < 128 && y < 128 && z < 128 && EntryHead(x, y, z) == [x, y, z]
  {
    OneByte(x);
    OneByte(y);
    OneByte(z);
    hide Varint;
    var b := EntryHead(x, y, z) + rest;
    assert b[0] == Varint(x)[0];
    assert b[1] == Varint(y)[0];
    assert b[2] == Varint(z)[0];
  }

  lemma DecodeBack(x: nat, y: nat, z: nat, rest: Bytes)
    requires x < 0x1_0000_0000 && y + z < 0x1_0000_0000 && y + z <= |rest|
    ensures DecodeEntry(EntryHead(x, y, z) + rest) == Some(Head(x, y, z, |EntryHead(x, y, z)|))
  {
    hide SlowHead;
    SlowHeadBack(x, y, z, rest);
    HeadSize(x, y, z);
    var b := EntryHead(x, y, z) + rest;
    if b[0] < 128 && b[1] < 128 && b[2] < 128 {
      SmallHead(x, y, z, rest);
    }
  }

  lemma HeadSize(x: nat, y: nat, z: nat)
    ensures |EntryHead(x, y, z)| == |Varint(x)| + |Varint(y)| + |Varint(z)| >= 3
  {
    hide Varint;
  }

  // ---- Example ----

  const THREE: seq<Pair> := [Pair([0x61, 0x61], [0x78]), Pair([0x61, 0x62], [0x79]), Pair([0x62], [])]

  /** A block of three entries with a restart point at every second: shared, unshared and value size, the rest of the key
      and the value; then where the restart points are, and how many. */
  lemma BlockBytes()
    ensures Block(THREE, 2) == [0, 2, 1, 0x61, 0x61, 0x78, 1, 1, 1, 0x62, 0x79, 0, 1, 0, 0x62] + [0, 0, 0, 0, 11, 0, 0, 0] + [2, 0, 0, 0]
  {
    DataBytes();
    RestartBytes();
    hide Data, RestartOffsets;
  }

  lemma DataBytes()
    ensures Data(THREE, 2, 3) == [0, 2, 1, 0x61, 0x61, 0x78, 1, 1, 1, 0x62, 0x79, 0, 1, 0, 0x62]
    ensures Data(THREE, 2, 2) == [0, 2, 1, 0x61, 0x61, 0x78, 1, 1, 1, 0x62, 0x79]
  {
    SharedBytes();
    hide SharedAt;
    assert EntryBytes(0, THREE[0]) == [0, 2, 1, 0x61, 0x61, 0x78];
    assert EntryBytes(1, THREE[1]) == [1, 1, 1, 0x62, 0x79];
    assert EntryBytes(0, THREE[2]) == [0, 1, 0, 0x62];
    hide EntryBytes;
    assert Data(THREE, 2, 0) == [];
    assert Data(THREE, 2, 1) == [0, 2, 1, 0x61, 0x61, 0x78];
  }

  lemma SharedBytes()
    ensures SharedAt(THREE, 2, 0) == 0 && SharedAt(THREE, 2, 1) == 1 && SharedAt(THREE, 2, 2) == 0
    ensures !Restarts(2, 1) && Restarts(2, 2)
  {
    RestartsEvery(2, 1);
    RestartsEvery(2, 2);
    hide Counter;
    assert THREE[0].key[1..] == [0x61] && THREE[1].key[1..] == [0x62];
  }

  lemma RestartBytes()
    ensures RestartOffsets(THREE, 2, 3) == [0, 11]
    ensures FixedAll([0, 11]) == [0, 0, 0, 0, 11, 0, 0, 0] && Fixed(2, 4) == [2, 0, 0, 0]
  {
    DataBytes();
    SharedBytes();
    hide Data, SharedAt, Restarts;
    assert RestartOffsets(THREE, 2, 1) == [0];
    assert [0, 11][..1] == [0] && [0][..0] == [];
    assert Fixed(0, 4) == [0, 0, 0, 0] && Fixed(11, 4) == [11, 0, 0, 0];
    assert FixedAll([0]) == [0, 0, 0, 0];
  }
}
