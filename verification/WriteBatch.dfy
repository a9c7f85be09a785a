/** Write batches: the byte form of a group of operations, and replaying it. */
module WriteBatch {
  import opened InternalKeys
  import opened Coding

  const HEADER_SIZE: nat := 12

  datatype Op = Put(key: Bytes, value: Bytes) | Delete(key: Bytes)

  datatype Batch = Batch(sequence: nat, ops: seq<Op>)

  function EncodeOp(op: Op): (r: Bytes)
    ensures r != []
  {
    match op
    case Put(k, x) => [1] + Prefixed(k) + Prefixed(x)
    case Delete(k) => [0] + Prefixed(k)
  }

  function EncodeOps(ops: seq<Op>): Bytes {
    if ops == [] then [] else EncodeOps(ops[..|ops| - 1]) + EncodeOp(ops[|ops| - 1])
  }

  function Encode(b: Batch): (r: Bytes)
    ensures |r| >= HEADER_SIZE
  {
    Fixed(b.sequence, 8) + Fixed(|b.ops|, 4) + EncodeOps(b.ops)
  }

  predicate FitsOp(op: Op) {
    |op.key| < 0x1_0000_0000 && (op.Put? ==> |op.value| < 0x1_0000_0000)
  }

  ghost predicate FitsBatch(b: Batch) {
    && b.sequence + |b.ops| <= MAX_SEQUENCE && |b.ops| < 0x8000_0000
    && forall op :: op in b.ops ==> FitsOp(op)
  }

  // ---- Walking ----

  /** The operations met before the end of the input or the first malformed one. */
  datatype Walked = Walked(ops: seq<Op>, ok: bool)

  /** The operation at the front of the input, and what follows. */
  function OpIn(input: Bytes): (r: Option<(Op, Bytes)>)
    requires input != []
    ensures r.Some? ==> |r.value.1| < |input|
  {
    if input[0] == 1 then
      match PrefixedIn(input[1..])
      case None => None
      case Some((key, rest)) =>
        match PrefixedIn(rest)
        case None => None
        case Some((value, rest)) => Some((Put(key, value), rest))
    else if input[0] == 0 then
      match PrefixedIn(input[1..])
      case None => None
      case Some((key, rest)) => Some((Delete(key), rest))
    else None
  }

  function Walk(input: Bytes): Walked
    decreases |input|
  {
    if input == [] then Walked([], true)
    else
      match OpIn(input)
      case None => Walked([], false)
      case Some((op, rest)) =>
        var w := Walk(rest);
        Walked([op] + w.ops, w.ok)
  }

  function Count(rep: Bytes): nat
    requires |rep| >= HEADER_SIZE
  {
    FromFixed(rep[8..12])
  }

  function SequenceOf(rep: Bytes): nat
    requires |rep| >= HEADER_SIZE
  {
    FromFixed(rep[..8])
  }

  /** What iterating over the bytes of a batch hands out, and whether they are well formed. */
  function Iterated(rep: Bytes): Walked {
    if |rep| < HEADER_SIZE then Walked([], false)
    else
      var w := Walk(rep[HEADER_SIZE..]);
      Walked(w.ops, w.ok && |w.ops| == Count(rep))
  }

  method Iterate(rep: Bytes) returns (w: Walked)
    ensures w == Iterated(rep)
  {
    hide OpIn;
    if |rep| < HEADER_SIZE {
      return Walked([], false);
    }
    var input := rep[HEADER_SIZE..];
    var ops: seq<Op> := [];
    while input != []
      invariant Walk(rep[HEADER_SIZE..]) == Walked(ops + Walk(input).ops, Walk(input).ok)
      decreases |input|
    {
      var r := OpIn(input);
      if r.None? {
        assert ops + [] == ops;
        return Walked(ops, false);
      }
      var rest := Walk(r.value.1).ops;
      assert ops + ([r.value.0] + rest) == (ops + [r.value.0]) + rest;
      ops := ops + [r.value.0];
      input := r.value.1;
    }
    assert ops + [] == ops;
    w := Walked(ops, |ops| == Count(rep));
  }

  // ---- Round trip ----

  lemma OpBack(op: Op, rest: Bytes)
    requires FitsOp(op)
    ensures OpIn(EncodeOp(op) + rest) == Some((op, rest))
  {
    hide Prefixed;
    hide PrefixedIn;
    var b := EncodeOp(op) + rest;
    match op {
      case Put(k, x) =>
        assert b[1..] == Prefixed(k) + (Prefixed(x) + rest);
        PrefixedBack(k, Prefixed(x) + rest);
        PrefixedBack(x, rest);
      case Delete(k) =>
        assert b[1..] == Prefixed(k) + rest;
        PrefixedBack(k, rest);
    }
  }

  lemma {:induction false} OpsBack(ops: seq<Op>, rest: Bytes)
    requires forall op :: op in ops ==> FitsOp(op)
    ensures Walk(EncodeOps(ops) + rest) == Walked(ops + Walk(rest).ops, Walk(rest).ok)
  {
    hide OpIn;
    hide EncodeOp;
    hide FitsOp;
    if ops == [] {
      assert EncodeOps(ops) + rest == rest && ops + Walk(rest).ops == Walk(rest).ops;
    } else {
      var n := |ops| - 1;
      OpBack(ops[n], rest);
      var tail := EncodeOp(ops[n]) + rest;
      OpsBack(ops[..n], tail);
      assert EncodeOps(ops) + rest == EncodeOps(ops[..n]) + tail;
      assert ops == ops[..n] + [ops[n]];
      assert ops[..n] + ([ops[n]] + Walk(rest).ops) == ops + Walk(rest).ops;
    }
  }

  /** Iterating over an encoded batch hands out its operations, and the header gives its sequence and count. */
  lemma BatchBack(b: Batch)
    requires FitsBatch(b)
    ensures Iterated(Encode(b)) == Walked(b.ops, true)
    ensures SequenceOf(Encode(b)) == b.sequence && Count(Encode(b)) == |b.ops|
  {
    var rep := Encode(b);
    assert rep[..8] == Fixed(b.sequence, 8) && rep[8..12] == Fixed(|b.ops|, 4);
    assert rep[12..] == EncodeOps(b.ops) + [];
    hide Fixed;
    hide EncodeOps;
    Pow256();
    FixedBack(b.sequence, 8);
    FixedBack(|b.ops|, 4);
    OpsBack(b.ops, []);
  }

  // ---- Incomplete batches ----

  /** An operation cut short is malformed. */
  lemma OpCut(op: Op, n: nat)
    requires FitsOp(op) && 0 < n < |EncodeOp(op)|
    ensures OpIn(EncodeOp(op)[..n]).None?
  {
    hide Prefixed, PrefixedIn;
    var b := EncodeOp(op)[..n];
    match op {
      case Put(k, x) =>
        PutParts(k, x, n);
        var m := n - 1 - |Prefixed(k)|;
        if m < 0 {
          PrefixedCut(k, n - 1);
        } else {
          PrefixedBack(k, Prefixed(x)[..m]);
          PrefixedCut(x, m);
        }
      case Delete(k) =>
        assert b[1..] == Prefixed(k)[..n - 1];
        PrefixedCut(k, n - 1);
    }
  }

  lemma PutParts(k: Bytes, x: Bytes, n: nat)
    requires 0 < n < |EncodeOp(Put(k, x))|
    ensures var b, m := EncodeOp(Put(k, x))[..n], n - 1 - |Prefixed(k)|;
            b[0] == 1 && m < |Prefixed(x)| && b[1..] == if m < 0 then Prefixed(k)[..n - 1] else Prefixed(k) + Prefixed(x)[..m]
  {
    hide Prefixed;
  }

  /** Operations cut short are fewer or malformed. */
  lemma {:induction false} OpsCut(ops: seq<Op>, n: nat)
    requires (forall op :: op in ops ==> FitsOp(op)) && n < |EncodeOps(ops)|
    ensures var w := Walk(EncodeOps(ops)[..n]); w.ok ==> |w.ops| < |ops|
  {
    hide OpIn, EncodeOp, FitsOp;
    var k := |ops| - 1;
    var before := EncodeOps(ops[..k]);
    if n < |before| {
      OpsCut(ops[..k], n);
      assert EncodeOps(ops)[..n] == before[..n];
    } else {
      var part := EncodeOp(ops[k])[..n - |before|];
      assert EncodeOps(ops)[..n] == before + part;
      OpsBack(ops[..k], part);
      if part != [] {
        OpCut(ops[k], |part|);
      }
    }
  }

  /** A batch cut short anywhere is not taken for a batch. */
  lemma BatchCut(b: Batch, n: nat)
    requires FitsBatch(b) && n < |Encode(b)|
    ensures !Iterated(Encode(b)[..n]).ok
  {
    if n >= HEADER_SIZE {
      CutParts(b, n);
      CountBack(b);
      hide Fixed, EncodeOps, Walk, FromFixed, Encode;
      OpsCut(b.ops, n - 12);
    }
  }

  lemma CutParts(b: Batch, n: nat)
    requires 12 <= n <= |Encode(b)|
    ensures n - 12 <= |EncodeOps(b.ops)| == |Encode(b)| - 12
    ensures Encode(b)[..n][8..12] == Fixed(|b.ops|, 4) && Encode(b)[..n][12..] == EncodeOps(b.ops)[..n - 12]
  {
    hide Fixed, EncodeOps;
    Cut(Fixed(b.sequence, 8), Fixed(|b.ops|, 4), EncodeOps(b.ops), n);
  }

  lemma Cut(a: Bytes, c: Bytes, o: Bytes, n: nat)
    requires |a| == 8 && |c| == 4 && 12 <= n <= |a + c + o|
    ensures n - 12 <= |o| && (a + c + o)[..n][8..12] == c && (a + c + o)[..n][12..] == o[..n - 12]
  {
    var x, y := (a + c + o)[..n][12..], o[..n - 12];
    forall i | 0 <= i < n - 12 ensures x[i] == y[i] {
      assert x[i] == (a + c + o)[..n][12 + i];
    }
  }

  lemma CountBack(b: Batch)
    requires FitsBatch(b)
    ensures FromFixed(Fixed(|b.ops|, 4)) == |b.ops|
  {
    Pow256();
    FixedBack(|b.ops|, 4);
  }

  /** Neither is one whose count is not that of its operations. */
  lemma CountTells(rep: Bytes)
    requires |rep| >= 12 && Iterated(rep).ok
    ensures FromFixed(rep[8..12]) == |Iterated(rep).ops|
  {
  }

  /** The bytes of a batch at sequence 5 that puts "bc" under "a" and deletes "d". */
  lemma BatchBytes()
    ensures Encode(Batch(5, [Put([0x61], [0x62, 0x63]), Delete([0x64])]))
         == [5, 0, 0, 0, 0, 0, 0, 0, 2, 0, 0, 0, 1, 1, 0x61, 2, 0x62, 0x63, 0, 1, 0x64]
  {
    OpsBytes();
    HeaderBytes();
    hide EncodeOps, Fixed;
    assert [5, 0, 0, 0, 0, 0, 0, 0] + [2, 0, 0, 0] == [5, 0, 0, 0, 0, 0, 0, 0, 2, 0, 0, 0];
  }

  lemma HeaderBytes()
    ensures Fixed(5, 8) == [5, 0, 0, 0, 0, 0, 0, 0] && Fixed(2, 4) == [2, 0, 0, 0]
  {
    assert Fixed(0, 4) == [0, 0, 0, 0] && Fixed(0, 7) == [0, 0, 0] + Fixed(0, 4);
  }

  lemma OpsBytes()
    ensures EncodeOps([Put([0x61], [0x62, 0x63]), Delete([0x64])]) == [1, 1, 0x61, 2, 0x62, 0x63, 0, 1, 0x64]
  {
    var ops := [Put([0x61], [0x62, 0x63]), Delete([0x64])];
    assert ops[..1] == [ops[0]] && ops[..1][..0] == [];
    assert EncodeOp(ops[0]) == [1, 1, 0x61, 2, 0x62, 0x63] && EncodeOp(ops[1]) == [0, 1, 0x64];
  }

  lemma {:induction false} EncodeConcat(a: seq<Op>, b: seq<Op>)
    ensures EncodeOps(a + b) == EncodeOps(a) + EncodeOps(b)
  {
    hide EncodeOp;
    if b == [] {
      assert a + b == a;
    } else {
      var n := |b| - 1;
      assert (a + b)[..|a + b| - 1] == a + b[..n];
      EncodeConcat(a, b[..n]);
    }
  }

  // ---- Building ----

  class WriteBatch {
    var rep: Bytes
    /** What the bytes stand for. */
    ghost var batch: Batch

    ghost predicate Valid()
      reads this
    {
      rep == Encode(batch) && FitsBatch(batch)
    }

    constructor ()
      ensures Valid() && batch == Batch(0, [])
    {
      rep := seq(HEADER_SIZE, _ => 0);
      batch := Batch(0, []);
      new;
      assert Fixed(0, 8) == seq(8, _ => 0) && Fixed(0, 4) == seq(4, _ => 0);
    }

    method SetCount(n: nat)
      requires |rep| >= HEADER_SIZE
      modifies this`rep
      ensures rep == old(rep)[..8] + Fixed(n, 4) + old(rep)[12..]
    {
      rep := rep[..8] + Fixed(n, 4) + rep[12..];
    }

    method SetSequence(sequence: nat)
      requires Valid() && sequence + |batch.ops| <= MAX_SEQUENCE
      modifies this
      ensures Valid() && batch == old(batch).(sequence := sequence)
    {
      hide Fixed;
      hide EncodeOps;
      EncodeParts(batch);
      rep := Fixed(sequence, 8) + rep[8..];
      batch := batch.(sequence := sequence);
      assert rep == Encode(batch);
    }

    method Put(key: Bytes, value: Bytes)
      requires Valid() && FitsOp(Op.Put(key, value)) && FitsBatch(Extend(batch, [Op.Put(key, value)]))
      modifies this
      ensures Valid() && batch == Extend(old(batch), [Op.Put(key, value)])
    {
      hide Fixed;
      hide EncodeOps;
      hide FitsBatch;
      hide Encode;
      hide Prefixed;
      hide EncodeOp;
      BatchBack(batch);
      SetCount(Count(rep) + 1);
      PutBytes(rep, key, value);
      rep := rep + [1];
      rep := rep + Prefixed(key);
      rep := rep + Prefixed(value);
      EncodeOne(Op.Put(key, value));
      Appended(batch, [Op.Put(key, value)], EncodeOp(Op.Put(key, value)));
      batch := Extend(batch, [Op.Put(key, value)]);
    }

    method Delete(key: Bytes)
      requires Valid() && FitsBatch(Extend(batch, [Op.Delete(key)]))
      modifies this
      ensures Valid() && batch == Extend(old(batch), [Op.Delete(key)])
    {
      hide Fixed;
      hide EncodeOps;
      hide FitsBatch;
      hide Encode;
      hide Prefixed;
      hide EncodeOp;
      BatchBack(batch);
      SetCount(Count(rep) + 1);
      DeleteBytes(rep, key);
      rep := rep + [0];
      rep := rep + Prefixed(key);
      EncodeOne(Op.Delete(key));
      Appended(batch, [Op.Delete(key)], EncodeOp(Op.Delete(key)));
      batch := Extend(batch, [Op.Delete(key)]);
    }

    /** Joins the operations of another batch, as the leader of a group of writers does. */
    method Append(source: WriteBatch)
      requires Valid() && source.Valid() && FitsBatch(Extend(batch, source.batch.ops))
      modifies this
      ensures Valid() && batch == Extend(old(batch), old(source.batch.ops))
    {
      hide Fixed;
      hide EncodeOps;
      hide FitsBatch;
      hide Encode;
      BatchBack(batch);
      BatchBack(source.batch);
      EncodeParts(source.batch);
      ghost var more := source.batch.ops;
      var tail := source.rep[HEADER_SIZE..];
      SetCount(Count(rep) + Count(source.rep));
      rep := rep + tail;
      Appended(batch, more, EncodeOps(more));
      batch := Extend(batch, more);
    }
  }

  function Extend(b: Batch, ops: seq<Op>): Batch {
    b.(ops := b.ops + ops)
  }

  lemma ExtendIs(b: Batch, ops: seq<Op>)
    ensures Extend(b, ops).sequence == b.sequence && Extend(b, ops).ops == b.ops + ops
  {
  }

  lemma PutBytes(rep: Bytes, key: Bytes, value: Bytes)
    ensures rep + [1] + Prefixed(key) + Prefixed(value) == rep + EncodeOp(Op.Put(key, value))
  {
    hide Prefixed;
  }

  lemma DeleteBytes(rep: Bytes, key: Bytes)
    ensures rep + [0] + Prefixed(key) == rep + EncodeOp(Op.Delete(key))
  {
    hide Prefixed;
  }

  lemma EncodeParts(b: Batch)
    ensures var rep := Encode(b); rep[8..] == Fixed(|b.ops|, 4) + EncodeOps(b.ops) && rep[..8] == Fixed(b.sequence, 8)
    ensures Encode(b)[HEADER_SIZE..] == EncodeOps(b.ops)
  {
    hide EncodeOps;
    hide Fixed;
  }

  lemma EncodeOne(op: Op)
    ensures EncodeOps([op]) == EncodeOp(op)
  {
    assert EncodeOps([op][..0]) == [];
  }

  lemma Appended(b: Batch, ops: seq<Op>, more: Bytes)
    requires more == EncodeOps(ops)
    ensures var rep := Encode(b);
            Encode(Extend(b, ops)) == rep[..8] + Fixed(|b.ops| + |ops|, 4) + rep[HEADER_SIZE..] + more
  {
    hide *;
    EncodeEnds(b);
    EncodeConcat(b.ops, ops);
    ExtendIs(b, ops);
    EncodeIs(Extend(b, ops));
    var s, n, e := Fixed(b.sequence, 8), Fixed(|b.ops| + |ops|, 4), EncodeOps(b.ops);
    Regroup(s, n, e, more);
    assert |b.ops + ops| == |b.ops| + |ops|;
    assert Encode(Extend(b, ops)) == s + n + (e + more);
  }

  lemma EncodeEnds(b: Batch)
    ensures Encode(b)[..8] == Fixed(b.sequence, 8) && Encode(b)[HEADER_SIZE..] == EncodeOps(b.ops)
  {
    hide *;
    EncodeParts(b);
  }

  lemma EncodeIs(b: Batch)
    ensures Encode(b) == Fixed(b.sequence, 8) + Fixed(|b.ops|, 4) + EncodeOps(b.ops)
  {
  }

  lemma Regroup<T>(s: seq<T>, n: seq<T>, a: seq<T>, b: seq<T>)
    ensures s + n + (a + b) == s + n + a + b
  {
  }
}
