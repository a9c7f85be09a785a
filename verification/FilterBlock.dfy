/** The filter block: one filter for the keys of all blocks that start in the same window of the file. */
module FilterBlock {
  import opened InternalKeys
  import opened Coding
  import opened BlockFormat
  import opened LogFormat
  import opened Bloom
  import Sequences

  const WINDOW: nat := 2048
  const WINDOW_LOG: Byte := 11

  /** The filters one after another, and where each begins. */
  datatype Filters = Filters(result: seq<bv8>, offsets: seq<nat>)

  /** Where filter `i` ends. */
  function End(f: Filters, i: nat): nat
    requires i < |f.offsets|
  {
    if i + 1 < |f.offsets| then f.offsets[i + 1] else |f.result|
  }

  /** The bytes of filter `i`. */
  function Slice(f: Filters, i: nat): seq<bv8>
    requires i < |f.offsets|
  {
    var start, limit := f.offsets[i], End(f, i);
    if start <= limit <= |f.result| then f.result[start..limit] else []
  }

  function Stored(k: nat): bv8
    requires k <= 30
  {
    k as bv8
  }

  lemma StoredBack(k: nat)
    requires k <= 30
    ensures Stored(k) as nat == k
  {
  }

  /** What the bits of a filter say about a key. */
  ghost predicate Matches(filter: seq<bv8>, hash: nat) {
    |filter| >= 2 && (filter[|filter| - 1] as nat > 30 || AllSet(filter[..|filter| - 1], hash, filter[|filter| - 1] as nat))
  }

  ghost predicate MayMatch(f: Filters, blockOffset: nat, hash: nat) {
    var i := blockOffset / WINDOW;
    i < |f.offsets| ==> Matches(Slice(f, i), hash)
  }

  /** Asking the policy about a stored filter. */
  method PolicyMatches(filter: seq<bv8>, hash: nat) returns (may: bool)
    ensures may <==> Matches(filter, hash)
  {
    hide AllSet;
    if |filter| < 2 {
      return false;
    }
    may := Bloom.KeyMayMatch(filter[..|filter| - 1], filter[|filter| - 1] as nat, hash);
  }

  method KeyMayMatch(f: Filters, blockOffset: nat, hash: nat) returns (may: bool)
    requires Ordered(f)
    ensures may <==> MayMatch(f, blockOffset, hash)
  {
    hide Matches;
    var i := blockOffset / WINDOW;
    if i >= |f.offsets| {
      return true;
    }
    may := PolicyMatches(f.result[f.offsets[i]..End(f, i)], hash);
  }

  // ---- Building ----

  /** Nothing is in a filter but the probes of these keys: no keys, no filter. */
  ghost predicate OnlyOf(filter: seq<bv8>, hashes: seq<nat>) {
    if hashes == [] then filter == []
    else
      |filter| > 8 && var arr, k := filter[..|filter| - 1], filter[|filter| - 1] as nat;
                      forall pos :: 0 <= pos < 8 * |arr| && BitSet(arr, pos) ==> IsProbe(hashes, k, 8 * |arr|, pos)
  }

  ghost predicate IsProbe(hashes: seq<nat>, k: nat, bits: nat, pos: nat)
    requires bits > 0
  {
    exists i, j :: 0 <= i < |hashes| && 0 <= j < k && pos == Position(hashes[i], j, bits)
  }

  /** Filter `i` was made from these keys. */
  ghost predicate MadeFrom(f: Filters, i: nat, hashes: seq<nat>)
    requires i < |f.offsets|
  {
    OnlyOf(Slice(f, i), hashes) && forall h :: h in hashes ==> Matches(Slice(f, i), h)
  }

  ghost predicate Ordered(f: Filters) {
    forall i :: 0 <= i < |f.offsets| ==> f.offsets[i] <= End(f, i) <= |f.result|
  }

  // ---- What is asked of the builder ----

  /** A table builder announces where the next block starts, and then adds its keys. */
  datatype Op = StartBlock(offset: nat) | AddKey(hash: nat)

  /** The keys of the filters made so far, and those waiting for one. */
  datatype Built = Built(windows: seq<seq<nat>>, keys: seq<nat>)

  /** Filters for all windows before the `n`th: the waiting keys go into the first of them. */
  function Filled(b: Built, n: nat): Built
    decreases n - |b.windows|
  {
    if |b.windows| >= n then b else Filled(Built(b.windows + [b.keys], []), n)
  }

  function Stepped(b: Built, op: Op): Built {
    match op
    case StartBlock(offset) => Filled(b, offset / WINDOW)
    case AddKey(hash) => Built(b.windows, b.keys + [hash])
  }

  function After(ops: seq<Op>): Built {
    if ops == [] then Built([], []) else Stepped(After(ops[..|ops| - 1]), ops[|ops| - 1])
  }

  /** The last filter is made when keys are left for it. */
  function Finished(b: Built): Built {
    if b.keys == [] then b else Built(b.windows + [b.keys], [])
  }

  /** Blocks start one behind the other. */
  ghost predicate Legal(ops: seq<Op>) {
    forall i :: 0 <= i < |ops| && ops[i].StartBlock? ==> |After(ops[..i]).windows| <= ops[i].offset / WINDOW
  }

  /** The key added at `i` belongs to the block started at `p`. */
  ghost predicate AddedFor(ops: seq<Op>, p: nat, i: nat) {
    p < i < |ops| && ops[p].StartBlock? && ops[i].AddKey? && forall q :: p < q < i ==> ops[q].AddKey?
  }

  /** The hash waits for the filter of window `w` or is in it. */
  ghost predicate InWindow(b: Built, w: nat, h: nat) {
    (|b.windows| == w && h in b.keys) || (|b.windows| > w && h in b.windows[w])
  }

  lemma {:induction false} FilledTo(b: Built, n: nat)
    ensures |Filled(b, n).windows| == if |b.windows| >= n then |b.windows| else n
    decreases n - |b.windows|
  {
    if |b.windows| < n {
      FilledTo(Built(b.windows + [b.keys], []), n);
    }
  }

  lemma {:induction false} FilledKeeps(b: Built, n: nat, w: nat, h: nat)
    requires InWindow(b, w, h)
    ensures InWindow(Filled(b, n), w, h)
    decreases n - |b.windows|
  {
    if |b.windows| < n {
      FilledKeeps(Built(b.windows + [b.keys], []), n, w, h);
    }
  }

  lemma {:induction false} AfterNext(ops: seq<Op>, n: nat)
    requires n < |ops|
    ensures After(ops[..n + 1]) == Stepped(After(ops[..n]), ops[n])
  {
    assert ops[..n + 1][..n] == ops[..n];
  }

  lemma {:induction false} BlockWindow(ops: seq<Op>, p: nat, i: nat)
    requires Legal(ops) && p < i <= |ops| && ops[p].StartBlock? && forall q :: p < q < i ==> ops[q].AddKey?
    ensures |After(ops[..i]).windows| == ops[p].offset / WINDOW
    decreases i
  {
    AfterNext(ops, i - 1);
    hide After;
    if i == p + 1 {
      FilledTo(After(ops[..p]), ops[p].offset / WINDOW);
    } else {
      BlockWindow(ops, p, i - 1);
    }
  }

  lemma {:induction false} StaysInWindow(ops: seq<Op>, p: nat, i: nat, n: nat)
    requires Legal(ops) && AddedFor(ops, p, i) && i < n <= |ops|
    ensures InWindow(After(ops[..n]), ops[p].offset / WINDOW, ops[i].hash)
    decreases n
  {
    AfterNext(ops, n - 1);
    hide After;
    var w, h := ops[p].offset / WINDOW, ops[i].hash;
    if n == i + 1 {
      BlockWindow(ops, p, i);
    } else {
      StaysInWindow(ops, p, i, n - 1);
      if ops[n - 1].StartBlock? {
        FilledKeeps(After(ops[..n - 1]), ops[n - 1].offset / WINDOW, w, h);
      }
    }
  }

  /** In the end every key is in the filter of the window its block started in. */
  lemma {:induction false} KeyInItsWindow(ops: seq<Op>, p: nat, i: nat)
    requires Legal(ops) && AddedFor(ops, p, i)
    ensures var w, ws := ops[p].offset / 2048, Finished(After(ops)).windows; w < |ws| && ops[i].hash in ws[w]
  {
    assert ops[..|ops|] == ops;
    StaysInWindow(ops, p, i, |ops|);
  }

  /** The key at `i` was added for a block of window `w`, or before any block, which counts as the first window. */
  ghost predicate AddedIn(ops: seq<Op>, i: nat, w: nat, h: nat) {
    && i < |ops| && ops[i] == AddKey(h)
    && ((exists p: nat :: AddedFor(ops, p, i) && ops[p].offset / 2048 == w) || (w == 0 && forall q :: 0 <= q < i ==> ops[q].AddKey?))
  }

  lemma {:induction false} FilledOnly(b: Built, n: nat, w: nat, h: nat)
    requires InWindow(Filled(b, n), w, h)
    ensures InWindow(b, w, h)
    decreases n - |b.windows|
  {
    if |b.windows| < n {
      FilledOnly(Built(b.windows + [b.keys], []), n, w, h);
    }
  }

  /** Before the first block nothing is filled. */
  lemma {:induction false} NoWindow(ops: seq<Op>, i: nat)
    requires i <= |ops| && forall q :: 0 <= q < i ==> ops[q].AddKey?
    ensures After(ops[..i]).windows == []
  {
    if i > 0 {
      NoWindow(ops, i - 1);
      AfterNext(ops, i - 1);
    }
  }

  lemma {:induction false} AddedNow(ops: seq<Op>, i: nat, q: nat)
    requires Legal(ops) && i < |ops| && ops[i].AddKey? && q <= i && forall r :: q <= r < i ==> ops[r].AddKey?
    ensures AddedIn(ops, i, |After(ops[..i]).windows|, ops[i].hash)
    decreases q
  {
    hide After, Legal;
    if q == 0 {
      NoWindow(ops, i);
    } else if ops[q - 1].StartBlock? {
      BlockWindow(ops, q - 1, i);
      assert AddedFor(ops, q - 1, i);
    } else {
      AddedNow(ops, i, q - 1);
    }
  }

  lemma NothingAtFirst(ops: seq<Op>, w: nat, h: nat)
    ensures !InWindow(After(ops[..0]), w, h)
  {
  }

  lemma {:induction false} WindowFrom(ops: seq<Op>, n: nat, w: nat, h: nat) returns (i: nat)
    requires Legal(ops) && n <= |ops| && InWindow(After(ops[..n]), w, h)
    ensures i < n && AddedIn(ops, i, w, h)
  {
    if n == 0 {
      NothingAtFirst(ops, w, h);
      assert false;
    }
    AfterNext(ops, n - 1);
    hide After, Legal;
    var b := After(ops[..n - 1]);
    if InWindow(b, w, h) {
      i := WindowFrom(ops, n - 1, w, h);
    } else {
      match ops[n - 1] {
        case StartBlock(offset) =>
          FilledOnly(b, offset / WINDOW, w, h);
          assert false;
        case AddKey(_) =>
          AddedNow(ops, n - 1, n - 1);
          i := n - 1;
      }
    }
  }

  /** And a filter is made from no other keys: each was added for a block of its window. */
  lemma WindowOnly(ops: seq<Op>, w: nat, h: nat) returns (i: nat)
    requires Legal(ops) && w < |Finished(After(ops)).windows| && h in Finished(After(ops)).windows[w]
    ensures AddedIn(ops, i, w, h)
  {
    assert ops[..|ops|] == ops;
    i := WindowFrom(ops, |ops|, w, h);
  }

  /** Every key added for a block is matched at the block's offset. */
  ghost predicate AllMatch(f: Filters, ops: seq<Op>) {
    forall p: nat, i: nat :: AddedFor(ops, p, i) ==> MayMatch(f, ops[p].offset, ops[i].hash)
  }

  lemma AllMatched(f: Filters, windows: seq<seq<nat>>, ops: seq<Op>)
    requires Legal(ops) && Finished(After(ops)).windows == windows && |windows| == |f.offsets|
    requires forall i :: 0 <= i < |windows| ==> MadeFrom(f, i, windows[i])
    ensures AllMatch(f, ops)
  {
    hide Matches, OnlyOf, After, Finished, Legal;
    forall p: nat, i: nat | AddedFor(ops, p, i) ensures MayMatch(f, ops[p].offset, ops[i].hash) {
      KeyInItsWindow(ops, p, i);
      assert MadeFrom(f, ops[p].offset / WINDOW, windows[ops[p].offset / WINDOW]);
    }
  }

  class FilterBlockBuilder {
    const policy: Policy
    var f: Filters
    /** The keys added since the last filter. */
    var keys: seq<nat>
    /** The keys of each filter. */
    ghost var windows: seq<seq<nat>>
    /** What was asked so far. */
    ghost var ops: seq<Op>

    ghost predicate Valid()
      reads this
    {
      && 1 <= policy.k <= 30 && Ordered(f) && |windows| == |f.offsets|
      && (forall i :: 0 <= i < |windows| ==> MadeFrom(f, i, windows[i]))
      && Legal(ops) && After(ops) == Built(windows, keys)
    }

    constructor (bitsPerKey: nat, probes: nat)
      ensures Valid() && windows == [] && keys == [] && ops == [] && policy == MakePolicy(bitsPerKey, probes)
    {
      policy := MakePolicy(bitsPerKey, probes);
      f, keys, windows, ops := Filters([], []), [], [], [];
    }

    method AddKey(hash: nat)
      requires Valid()
      modifies this
      ensures Valid() && keys == old(keys) + [hash] && windows == old(windows) && ops == old(ops) + [Op.AddKey(hash)]
    {
      LegalNext(ops, Op.AddKey(hash));
      keys := keys + [hash];
      ops := ops + [Op.AddKey(hash)];
    }

    lemma LegalNext(ops: seq<Op>, op: Op)
      requires Legal(ops) && (op.StartBlock? ==> |After(ops).windows| <= op.offset / WINDOW)
      ensures Legal(ops + [op]) && After(ops + [op]) == Stepped(After(ops), op)
    {
      var all := ops + [op];
      assert all[..|ops|] == ops;
      forall i | 0 <= i < |all| && all[i].StartBlock? ensures |After(all[..i]).windows| <= all[i].offset / WINDOW {
        assert i < |ops| ==> all[..i] == ops[..i];
      }
    }

    /** The filters as they are, whatever was asked. */
    ghost predicate Made()
      reads this
    {
      && 1 <= policy.k <= 30 && Ordered(f) && |windows| == |f.offsets|
      && forall i :: 0 <= i < |windows| ==> MadeFrom(f, i, windows[i])
    }

    lemma MadeIs()
      ensures Made() <==> 1 <= policy.k <= 30 && Ordered(f) && |windows| == |f.offsets| && forall i :: 0 <= i < |windows| ==> MadeFrom(f, i, windows[i])
    {
      hide MadeFrom;
    }

    method GenerateFilter()
      requires Made()
      modifies this
      ensures Made() && windows == old(windows) + [old(keys)] && keys == [] && ops == old(ops)
    {
      hide AllSet, Matches, BitSet, Position;
      ghost var f0 := f;
      if keys == [] {
        f := f.(offsets := f.offsets + [|f.result|]);
        OneMore(f0, f, [], windows);
      } else {
        var arr, k := CreateFilter(policy, keys);
        var filter := arr + [Stored(k)];
        FilterMatches(arr, k, keys);
        FilterOnly(arr, k, keys);
        f := Filters(f.result + filter, f.offsets + [|f.result|]);
        OneMore(f0, f, filter, windows);
      }
      windows := windows + [keys];
      keys := [];
    }

    /** Filters for all windows before that of the block about to be written. */
    method StartBlock(blockOffset: nat)
      requires Valid() && blockOffset / WINDOW >= |windows|
      modifies this
      ensures Valid() && |windows| == blockOffset / WINDOW && ops == old(ops) + [Op.StartBlock(blockOffset)]
      ensures if |old(windows)| == blockOffset / WINDOW then windows == old(windows) && keys == old(keys)
              else keys == [] && |old(windows)| < |windows| && windows[..|old(windows)|] == old(windows) && windows[|old(windows)|] == old(keys)
    {
      hide MadeFrom, After, Ordered;
      LegalNext(ops, Op.StartBlock(blockOffset));
      var index := blockOffset / WINDOW;
      ghost var n := |windows|;
      while index > |f.offsets|
        invariant Made() && n <= |windows| <= index && ops == old(ops)
        invariant Filled(Built(windows, keys), index) == Filled(Built(old(windows), old(keys)), index)
        invariant if |windows| == n then windows == old(windows) && keys == old(keys)
                  else keys == [] && windows[..n] == old(windows) && windows[n] == old(keys)
      {
        GenerateFilter();
      }
      ops := ops + [Op.StartBlock(blockOffset)];
    }

    /** The filters, and their bytes: filters, offsets, where the offsets start, and the size of a window. Every
        key added is matched at the offset of its block. */
    method Finish() returns (r: Filters, contents: Bytes)
      requires Valid()
      modifies this
      ensures r == f && Ordered(r) && |windows| == |r.offsets| && (forall i :: 0 <= i < |windows| ==> MadeFrom(r, i, windows[i]))
      ensures windows == if old(keys) == [] then old(windows) else old(windows) + [old(keys)]
      ensures AllMatch(r, old(ops))
      ensures contents == FilterBytes(r)
    {
      hide Made, MadeFrom, AllMatch, Matches, Fixed, AllSet;
      MadeIs();
      ghost var asked := ops;
      if keys != [] {
        GenerateFilter();
      }
      MadeIs();
      AllMatched(f, windows, asked);
      r := f;
      contents := Written(f);
    }
  }

  // ---- Stored bytes ----

  /** The filters, where each begins, where these offsets begin, and the size of a window. */
  method Written(f: Filters) returns (contents: Bytes)
    ensures contents == FilterBytes(f)
  {
    hide Fixed, Unbits;
    contents := Unbits(f.result);
    assert f.offsets[..|f.offsets|] == f.offsets;
    for i := 0 to |f.offsets|
      invariant contents == Unbits(f.result) + FixedAll(f.offsets[..i])
    {
      assert f.offsets[..i + 1][..i] == f.offsets[..i];
      Sequences.Associate(Unbits(f.result), FixedAll(f.offsets[..i]), Fixed(f.offsets[i], 4));
      contents := contents + Fixed(f.offsets[i], 4);
    }
    contents := contents + Fixed(|f.result|, 4);
    contents := contents + [WINDOW_LOG];
  }

  function Unbits(bits: seq<bv8>): (r: Bytes)
    ensures |r| == |bits|
  {
    seq(|bits|, i requires 0 <= i < |bits| => bits[i] as int)
  }

  function FilterBytes(f: Filters): Bytes {
    Unbits(f.result) + FixedAll(f.offsets) + Fixed(|f.result|, 4) + [WINDOW_LOG]
  }

  /** The parts of a stored filter block. */
  lemma StoredParts(f: Filters)
    requires |FilterBytes(f)| < 0x1_0000_0000
    ensures var b, n := FilterBytes(f), |f.result|;
            && |b| == n + 4 * |f.offsets| + 5 && b[..n] == Unbits(f.result) && b[|b| - 1] == 11
            && FromFixed(b[|b| - 5..|b| - 1]) == n
            && (forall i :: 0 <= i < |f.offsets| && f.offsets[i] < 0x1_0000_0000 ==> FromFixed(b[n + 4 * i..n + 4 * i + 4]) == f.offsets[i])
  {
    hide *;
    var b, n, k := FilterBytes(f), |f.result|, |f.offsets|;
    BytesAre(f);
    FixedAllSize(f.offsets, k);
    assert f.offsets[..k] == f.offsets;
    var head := Unbits(f.result) + FixedAll(f.offsets);
    assert b[|b| - 5..|b| - 1] == Fixed(n, 4);
    Pow256();
    FixedBack(n, 4);
    forall i | 0 <= i < k && f.offsets[i] < 0x1_0000_0000 ensures FromFixed(b[n + 4 * i..n + 4 * i + 4]) == f.offsets[i] {
      FixedAllAt(f.offsets, k, i);
      assert b[n + 4 * i..n + 4 * i + 4] == FixedAll(f.offsets)[4 * i..4 * i + 4];
      FixedBack(f.offsets[i], 4);
    }
  }

  lemma BytesAre(f: Filters)
    ensures FilterBytes(f) == Unbits(f.result) + FixedAll(f.offsets) + Fixed(|f.result|, 4) + [11]
  {
  }

  /** A reader of stored filters; of contents too short or inconsistent it keeps nothing. */
  class FilterBlockReader {
    const data: Bytes
    const offset: nat
    const num: nat
    const baseLog: Byte

    constructor (contents: Bytes)
      ensures data == contents && Parsed()
    {
      data, offset, num, baseLog := contents, 0, 0, 0;
      var n := |contents|;
      if n >= 5 {
        baseLog := contents[n - 1];
        var lastWord := FromFixed(contents[n - 5..n - 1]);
        if lastWord <= n - 5 {
          offset := lastWord;
          num := (n - 5 - lastWord) / 4;
        }
      }
    }

    /** What is kept of the contents. */
    ghost predicate Parsed() {
      if |data| < 5 then num == 0
      else
        baseLog == data[|data| - 1]
        && var last := FromFixed(data[|data| - 5..|data| - 1]);
           if last > |data| - 5 then num == 0 else offset == last && num == (|data| - 5 - last) / 4
    }

    /** The reader was made from the bytes of `f`. */
    ghost predicate Reads(f: Filters) {
      && Ordered(f) && |FilterBytes(f)| < 0x1_0000_0000 && data == FilterBytes(f)
      && offset == |f.result| && num == |f.offsets| && baseLog == WINDOW_LOG
    }

    lemma MadeReads(f: Filters)
      requires Ordered(f) && |FilterBytes(f)| < 0x1_0000_0000 && data == FilterBytes(f) && Parsed()
      ensures Reads(f)
    {
      hide FilterBytes;
      StoredParts(f);
    }

    /** Whatever the contents, the reader answers; made from the bytes of filters it answers as they do, and
        what it has no filter for may match. */
    method KeyMayMatch(blockOffset: nat, hash: nat) returns (may: bool)
      requires Parsed()
      ensures forall f :: Reads(f) ==> (may <==> MayMatch(f, blockOffset, hash))
      ensures var index := Shifted(blockOffset, baseLog as nat);
              if index >= num then may
              else
                var start, limit := FromFixed(data[offset + 4 * index..offset + 4 * index + 4]), FromFixed(data[offset + 4 * index + 4..offset + 4 * index + 8]);
                may <==> if start <= limit <= offset then Matches(Bits(data[start..limit]), hash) else start != limit
    {
      hide AllSet, FilterBytes, Fixed, FixedAll, FromFixed, Shifted, Bits, End, Slice, Ordered, Matches, Reads;
      var index := Shifted(blockOffset, baseLog as nat);
      may := true;
      if index < num {
        var start := FromFixed(data[offset + 4 * index..offset + 4 * index + 4]);
        var limit := FromFixed(data[offset + 4 * index + 4..offset + 4 * index + 8]);
        if start <= limit && limit <= offset {
          may := PolicyMatches(Bits(data[start..limit]), hash);
        } else if start == limit {
          may := false;
        }
      }
      forall f | Reads(f) ensures may <==> MayMatch(f, blockOffset, hash) {
        FilterConsulted(f, blockOffset, hash);
      }
    }

    /** The filter a reader of the bytes of `f` consults. */
    lemma FilterConsulted(f: Filters, blockOffset: nat, hash: nat)
      requires Reads(f)
      ensures Shifted(blockOffset, baseLog as nat) == blockOffset / WINDOW && num == |f.offsets| && offset == |f.result|
      ensures var index := blockOffset / WINDOW;
              if index >= num then MayMatch(f, blockOffset, hash)
              else
                offset + 4 * index + 8 <= |data|
                && var start, limit := FromFixed(data[offset + 4 * index..offset + 4 * index + 4]), FromFixed(data[offset + 4 * index + 4..offset + 4 * index + 8]);
                   start <= limit <= offset && limit <= |data| && (MayMatch(f, blockOffset, hash) <==> Matches(Bits(data[start..limit]), hash))
    {
      hide AllSet, FilterBytes, Fixed, FixedAll, FromFixed, Shifted, Bits, End, Slice, Ordered, Matches;
      WindowShift(blockOffset);
      if blockOffset / WINDOW < num {
        SliceStored(f, blockOffset / WINDOW);
      }
    }
  }

  /** Where a filter is stored. */
  lemma SliceStored(f: Filters, i: nat)
    requires Ordered(f) && |FilterBytes(f)| < 0x1_0000_0000 && i < |f.offsets|
    ensures var b, n := FilterBytes(f), |f.result|;
            && n + 4 * i + 8 <= |b|
            && var start, limit := FromFixed(b[n + 4 * i..n + 4 * i + 4]), FromFixed(b[n + 4 * i + 4..n + 4 * i + 8]);
               start <= limit <= n && Bits(b[start..limit]) == Slice(f, i)
  {
    hide FilterBytes, FromFixed, Bits;
    var b, n := FilterBytes(f), |f.result|;
    StoredParts(f);
    LimitIs(f, i);
    assert f.offsets[i] <= End(f, i) <= |f.result|;
    var start, limit := f.offsets[i], End(f, i);
    assert b[start..limit] == b[..n][start..limit];
    BitsSlice(f.result, start, limit);
  }

  /** Shifting right. */
  function Shifted(x: nat, n: nat): nat {
    if n == 0 then x else Shifted(x / 2, n - 1)
  }

  lemma ShiftedFour(x: nat, n: nat)
    ensures Shifted(x, n + 4) == Shifted(x / 16, n)
  {
    assert Shifted(x, n + 4) == Shifted(x / 2, n + 3);
    assert Shifted(x / 2, n + 3) == Shifted(x / 4, n + 2);
    assert Shifted(x / 4, n + 2) == Shifted(x / 8, n + 1);
  }

  lemma ShiftedThree(x: nat)
    ensures Shifted(x, 3) == x / 8
  {
    assert Shifted(x, 3) == Shifted(x / 2, 2);
    assert Shifted(x / 2, 2) == Shifted(x / 4, 1);
    assert Shifted(x / 4, 1) == x / 8;
  }

  lemma WindowShift(x: nat)
    ensures Shifted(x, WINDOW_LOG) == x / WINDOW
  {
    hide Shifted;
    ShiftedFour(x, 7);
    ShiftedFour(x / 16, 3);
    ShiftedThree(x / 256);
  }

  lemma BitsSlice(bits: seq<bv8>, a: nat, b: nat)
    requires a <= b <= |bits|
    ensures Bits(Unbits(bits)[a..b]) == bits[a..b]
  {
  }

  /** Behind the last offset is the one where the offsets start, which is where the last filter ends. */
  lemma LimitIs(f: Filters, i: nat)
    requires Ordered(f) && |FilterBytes(f)| < 0x1_0000_0000 && i < |f.offsets|
    ensures var b, n := FilterBytes(f), |f.result|;
            n + 4 * i + 8 <= |b| && FromFixed(b[n + 4 * i + 4..n + 4 * i + 8]) == End(f, i)
  {
    hide FilterBytes, FromFixed;
    StoredParts(f);
    var b, n := FilterBytes(f), |f.result|;
    if i + 1 < |f.offsets| {
      assert f.offsets[i + 1] <= End(f, i + 1) <= |f.result|;
      assert n + 4 * i + 4 == n + 4 * (i + 1);
    } else {
      assert n + 4 * i + 4 == |b| - 5;
    }
  }

  lemma FilterMatches(arr: seq<bv8>, k: nat, hashes: seq<nat>)
    requires |arr| >= 8 && k <= 30 && forall i :: 0 <= i < |hashes| ==> AllSet(arr, hashes[i], k)
    ensures forall h :: h in hashes ==> Matches(arr + [Stored(k)], h)
  {
    hide AllSet;
    StoredBack(k);
    var filter := arr + [Stored(k)];
    assert filter[..|filter| - 1] == arr && filter[|filter| - 1] == Stored(k);
  }

  lemma FilterOnly(arr: seq<bv8>, k: nat, hashes: seq<nat>)
    requires |arr| >= 8 && k <= 30 && hashes != []
    requires forall pos :: 0 <= pos < 8 * |arr| && BitSet(arr, pos) ==>
               exists i, j :: 0 <= i < |hashes| && 0 <= j < k && pos == Position(hashes[i], j, 8 * |arr|)
    ensures OnlyOf(arr + [Stored(k)], hashes)
  {
    hide BitSet, Position;
    StoredBack(k);
    var filter := arr + [Stored(k)];
    assert filter[..|filter| - 1] == arr && filter[|filter| - 1] == Stored(k);
    forall pos | 0 <= pos < 8 * |arr| && BitSet(arr, pos) ensures IsProbe(hashes, k, 8 * |arr|, pos) {
    }
  }

  /** Appending a filter leaves the earlier ones as they are. */
  lemma OneMore(f: Filters, f': Filters, filter: seq<bv8>, windows: seq<seq<nat>>)
    requires Ordered(f) && f' == Filters(f.result + filter, f.offsets + [|f.result|])
    requires |windows| == |f.offsets| && forall i :: 0 <= i < |windows| ==> MadeFrom(f, i, windows[i])
    ensures Ordered(f') && Slice(f', |f.offsets|) == filter
    ensures forall i :: 0 <= i < |windows| ==> MadeFrom(f', i, windows[i])
  {
    hide Matches, OnlyOf;
    forall i | 0 <= i < |f'.offsets| ensures f'.offsets[i] <= End(f', i) <= |f'.result| {
      assert i < |f.offsets| ==> f.offsets[i] <= End(f, i) <= |f.result|;
    }
    forall i | 0 <= i < |windows| ensures MadeFrom(f', i, windows[i]) {
      assert f.offsets[i] <= End(f, i) <= |f.result| && End(f', i) == End(f, i);
      assert MadeFrom(f, i, windows[i]);
      assert Slice(f', i) == Slice(f, i);
    }
  }
}
