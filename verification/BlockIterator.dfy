/** The block iterator: a two-way cursor over the pairs a block was built from. */
module BlockIterator {
  import opened InternalKeys
  import opened Sequences
  import opened Coding
  import opened Cursors
  import opened BlockFormat

  type Order = (Bytes, Bytes) -> bool

  ghost predicate Transitive(less: Order) {
    forall a, b, c :: less(a, b) && less(b, c) ==> less(a, c)
  }

  ghost predicate Ascending(less: Order, es: seq<Pair>) {
    forall i, j :: 0 <= i < j < |es| ==> less(es[i].key, es[j].key)
  }

  /** The first pair whose key is not before the target. */
  function FirstNotLess(less: Order, es: seq<Pair>, target: Bytes): (i: nat)
    ensures i <= |es|
    ensures forall j :: 0 <= j < i ==> less(es[j].key, target)
    ensures i < |es| ==> !less(es[i].key, target)
  {
    if es == [] || !less(es[0].key, target) then 0 else 1 + FirstNotLess(less, es[1..], target)
  }

  // ---- Reading a built block ----

  lemma StoredAfter(d: Bytes, middle: Bytes, tail: Bytes, i: nat)
    requires i + 4 <= |middle|
    ensures d + middle + tail == d + (middle + tail) && (d + middle + tail)[|d| + i..|d| + i + 4] == middle[i..i + 4]
  {
  }

  /** The restart array as stored. */
  lemma RestartStored(es: seq<Pair>, interval: nat, k: nat)
    requires k < |RestartOffsets(es, interval, |es|)| && |Block(es, interval)| < 0x1_0000_0000
    ensures var p := Offset(es, interval, |es|) + 4 * k;
            && p + 4 <= |Block(es, interval)|
            && FromFixed(Block(es, interval)[p..p + 4]) == RestartOffsets(es, interval, |es|)[k]
  {
    hide *;
    var rs, d := RestartOffsets(es, interval, |es|), Data(es, interval, |es|);
    BlockParts(es, interval);
    FixedAllAt(rs, |rs|, k);
    FixedAllSize(rs, |rs|);
    assert rs[..|rs|] == rs;
    StoredAfter(d, FixedAll(rs), Fixed(|rs|, 4), 4 * k);
    RestartsInside(es, interval, k);
    Pow256();
    FixedBack(rs[k], 4);
  }

  lemma BlockParts(es: seq<Pair>, interval: nat)
    ensures var rs, d := RestartOffsets(es, interval, |es|), Data(es, interval, |es|);
            Block(es, interval) == d + FixedAll(rs) + Fixed(|rs|, 4) && |d| == Offset(es, interval, |es|)
  {
    hide Data, FixedAll, Fixed, RestartOffsets;
  }

  lemma RestartsInside(es: seq<Pair>, interval: nat, k: nat)
    requires k < |RestartOffsets(es, interval, |es|)|
    ensures RestartOffsets(es, interval, |es|)[k] <= |Data(es, interval, |es|)|
  {
    hide Data, RestartOffsets;
    OffsetOfRestart(es, interval, |es|, k);
    OffsetsGrow(es, interval, RestartEntries(interval, |es|)[k], |es|);
  }

  /** The number of restarts, read at the end of a block, and where the restart array begins. */
  lemma RestartCount(es: seq<Pair>, interval: nat)
    requires |Block(es, interval)| < 0x1_0000_0000
    ensures var b, n := Block(es, interval), |RestartOffsets(es, interval, |es|)|;
            && |b| >= 4 && FromFixed(b[|b| - 4..]) == n && |b| - (1 + n) * 4 == Offset(es, interval, |es|)
  {
    var rs := RestartOffsets(es, interval, |es|);
    hide Data;
    hide Fixed;
    assert rs[..|rs|] == rs;
    FixedAllSize(rs, |rs|);
    var b := Block(es, interval);
    assert b[|b| - 4..] == Fixed(|rs|, 4);
    Pow256();
    FixedBack(|rs|, 4);
  }

  /** What the decoder finds where entry `i` starts. */
  lemma EntryRead(es: seq<Pair>, interval: nat, i: nat)
    requires i < |es| && |es[i].key| < 0x1_0000_0000 && |Block(es, interval)| < 0x1_0000_0000
    ensures var s, end := Offset(es, interval, i), Offset(es, interval, |es|);
            var shared := SharedAt(es, interval, i);
            var e := es[i];
            && s < end <= |Block(es, interval)|
            && var h := DecodeEntry(Block(es, interval)[s..end]);
               && h.Some? && h.value.shared == shared && h.value.unshared == |e.key| - shared && h.value.valueSize == |e.value|
               && var p := s + h.value.size;
                  && p + h.value.unshared + h.value.valueSize == Offset(es, interval, i + 1) <= end
                  && Block(es, interval)[p..p + h.value.unshared] == e.key[shared..]
                  && Block(es, interval)[p + h.value.unshared..p + h.value.unshared + h.value.valueSize] == e.value
  {
    hide *;
    EntryStored(es, interval, i);
    EntryParts(Block(es, interval), Offset(es, interval, i), Offset(es, interval, i + 1), Offset(es, interval, |es|),
               SharedAt(es, interval, i), es[i]);
  }

  lemma EntryStored(es: seq<Pair>, interval: nat, i: nat)
    requires i < |es|
    ensures var b, s, t, end := Block(es, interval), Offset(es, interval, i), Offset(es, interval, i + 1), Offset(es, interval, |es|);
            s < t <= end <= |b| && b[s..t] == EntryBytes(SharedAt(es, interval, i), es[i])
  {
    hide RestartOffsets;
    hide FixedAll;
    hide Fixed;
    hide EntryBytes;
    hide SharedAt;
    EntryAt(es, interval, i);
    OffsetsGrow(es, interval, i + 1, |es|);
    hide Data;
    var all, b := Data(es, interval, |es|), Block(es, interval);
    assert b[..|all|] == all;
    SubSlice(b, 0, |all|, Offset(es, interval, i), Offset(es, interval, i + 1) - Offset(es, interval, i));
  }

  lemma EntryParts(b: Bytes, s: nat, t: nat, end: nat, shared: nat, e: Pair)
    requires s <= t <= end <= |b| < 0x1_0000_0000 && shared <= |e.key| < 0x1_0000_0000 && b[s..t] == EntryBytes(shared, e)
    ensures var h := DecodeEntry(b[s..end]);
            && h.Some? && h.value.shared == shared && h.value.unshared == |e.key| - shared && h.value.valueSize == |e.value|
            && var p := s + h.value.size;
               && p + h.value.unshared + h.value.valueSize == t
               && b[p..p + h.value.unshared] == e.key[shared..]
               && b[p + h.value.unshared..t] == e.value
  {
    hide DecodeEntry;
    hide EntryHead;
    var head, tail := EntryHead(shared, |e.key| - shared, |e.value|), e.key[shared..] + e.value;
    assert b[s..end] == head + (tail + b[t..end]) by {
      assert b[s..end] == b[s..t] + b[t..end];
    }
    assert |b[s..t]| == |head| + |tail| && |tail| == |e.key| - shared + |e.value|;
    DecodeBack(shared, |e.key| - shared, |e.value|, tail + b[t..end]);
    var p, q := |head|, |head| + |e.key| - shared;
    assert b[s..t][p..q] == e.key[shared..];
    assert b[s..t][q..] == e.value;
    SubSlice(b, s, t - s, p, q - p);
    SubSlice(b, s, t - s, q, t - s - q);
    assert b[s..t][q..t - s] == b[s..t][q..];
  }

  // ---- The iterator ----

  class BlockIter {
    const data: Bytes
    const restarts: nat
    const numRestarts: nat
    const less: Order
    var current: nat
    var restartIndex: nat
    var key: Bytes
    var valueStart: nat
    var valueSize: nat
    ghost const es: seq<Pair>
    ghost const interval: nat

    ghost predicate Built() {
      && interval >= 1 && |data| < 0x1_0000_0000 && data == Block(es, interval)
      && (forall i :: 0 <= i < |es| ==> |es[i].key| < 0x1_0000_0000)
      && Ascending(less, es) && Transitive(less)
      && restarts == Offset(es, interval, |es|) && numRestarts == |RestartOffsets(es, interval, |es|)|
    }

    ghost function Off(i: nat): nat
      requires i <= |es|
    {
      Offset(es, interval, i)
    }

    ghost function RestartAt(k: nat): nat
      requires k < |RestartOffsets(es, interval, |es|)|
    {
      RestartOffsets(es, interval, |es|)[k]
    }

    /** The restart index is that of the run holding the current entry, or one less at the start of a run. */
    ghost predicate IndexOk(offset: nat)
      requires Built()
      reads this`restartIndex
    {
      && restartIndex < numRestarts && RestartAt(restartIndex) <= offset
      && (restartIndex + 1 < numRestarts ==> RestartAt(restartIndex + 1) >= offset)
    }

    ghost predicate On(i: nat)
      requires Built()
      reads this
    {
      && i < |es| && current == Off(i) && key == es[i].key && valueStart + valueSize == Off(i + 1)
      && valueStart + valueSize <= |data| && data[valueStart..valueStart + valueSize] == es[i].value
      && IndexOk(Off(i))
    }

    ghost predicate Done()
      reads this
    {
      current == restarts && restartIndex == numRestarts
    }

    /** The next entry to be parsed is `j`, and enough of the key before it is at hand. */
    ghost predicate Ready(j: nat)
      requires Built()
      reads this
    {
      && j <= |es| && valueStart + valueSize == Off(j) && restartIndex < numRestarts && RestartAt(restartIndex) <= Off(j)
      && (j < |es| ==> SharedAt(es, interval, j) <= |key| && key[..SharedAt(es, interval, j)] == es[j].key[..SharedAt(es, interval, j)])
    }

    ghost predicate Ok(place: Position)
      reads this
    {
      Built() && if place.Some? then On(place.value) else Done()
    }

    constructor (data: Bytes, less: Order, ghost es: seq<Pair>, ghost interval: nat)
      requires interval >= 1 && |data| < 0x1_0000_0000 && data == Block(es, interval)
      requires forall i :: 0 <= i < |es| ==> |es[i].key| < 0x1_0000_0000
      requires Ascending(less, es) && Transitive(less)
      ensures Ok(None) && this.es == es && this.interval == interval && this.less == less
    {
      RestartCount(es, interval);
      this.data, this.less, this.es, this.interval := data, less, es, interval;
      numRestarts := FromFixed(data[|data| - 4..]);
      restarts := |data| - (1 + FromFixed(data[|data| - 4..])) * 4;
      current := |data| - (1 + FromFixed(data[|data| - 4..])) * 4;
      restartIndex := FromFixed(data[|data| - 4..]);
      key, valueStart, valueSize := [], 0, 0;
    }

    predicate Valid()
      reads this
    {
      current < restarts
    }

    function Value(): Bytes
      requires valueStart + valueSize <= |data|
      reads this
    {
      data[valueStart..valueStart + valueSize]
    }

    function NextEntryOffset(): nat
      reads this
    {
      valueStart + valueSize
    }

    lemma RestartFacts(k: nat)
      requires Built() && k < numRestarts
      ensures restarts + k * 4 + 4 <= |data| && FromFixed(data[restarts + k * 4..restarts + k * 4 + 4]) == RestartAt(k)
      ensures var e := RestartEntries(interval, |es|)[k];
              && e <= |es| && RestartAt(k) == Off(e) && (e == |es| ==> k == 0 && |es| == 0)
              && (e < |es| ==> SharedAt(es, interval, e) == 0)
      ensures RestartAt(0) == 0
    {
      hide Data;
      hide RestartOffsets;
      RestartStored(es, interval, k);
      OffsetOfRestart(es, interval, |es|, k);
      OffsetOfRestart(es, interval, |es|, 0);
      NoData(es, interval);
      EntriesBelow(interval, |es|, k);
    }

    lemma EntriesBelow(interval: nat, n: nat, k: nat)
      requires k < |RestartEntries(interval, n)|
      ensures RestartEntries(interval, n)[k] == n ==> k == 0 && n == 0
    {
    }

    method GetRestartPoint(k: nat) returns (offset: nat)
      requires Built() && k < numRestarts
      ensures offset == RestartAt(k)
    {
      hide Built;
      RestartFacts(k);
      offset := FromFixed(data[restarts + k * 4..restarts + k * 4 + 4]);
    }

    method SeekToRestartPoint(k: nat)
      requires Built() && k < numRestarts
      modifies this
      ensures Ready(RestartEntries(interval, |es|)[k]) && key == []
    {
      hide Block;
      hide RestartOffsets;
      hide Data;
      RestartFacts(k);
      key := [];
      restartIndex := k;
      var offset := GetRestartPoint(k);
      valueStart, valueSize := offset, 0;
    }

    /** Parses the entry after the current value; false at the end. */
    method ParseNextKey(ghost j: nat) returns (ok: bool)
      requires Built() && Ready(j)
      modifies this
      ensures ok <==> j < |es|
      ensures Ok(if j < |es| then Some(j) else None)
    {
      hide Block;
      hide RestartOffsets;
      hide Data;
      hide SharedAt;
      hide Ascending;
      hide Transitive;
      hide DecodeEntry, FromFixed, Pow;
      OffsetsGrow(es, interval, j, |es|);
      current := NextEntryOffset();
      if current >= restarts {
        current := restarts;
        restartIndex := numRestarts;
        return false;
      }
      EntryRead(es, interval, j);
      var h := DecodeEntry(data[current..restarts]).value;
      var p := current + h.size;
      var key0 := key[..h.shared];
      key := key0 + data[p..p + h.unshared];
      assert key == es[j].key by {
        assert es[j].key == es[j].key[..h.shared] + es[j].key[h.shared..];
      }
      valueStart, valueSize := p + h.unshared, h.valueSize;
      var next := current;
      while restartIndex + 1 < numRestarts
        invariant restartIndex < numRestarts && RestartAt(restartIndex) <= current
        invariant current == Off(j) && key == es[j].key && valueStart == p + h.unshared && valueSize == h.valueSize
        decreases numRestarts - restartIndex
      {
        next := GetRestartPoint(restartIndex + 1);
        if next >= current {
          break;
        }
        restartIndex := restartIndex + 1;
      }
      return true;
    }

    /** On an entry, the parser is ready for the following one. */
    lemma OnIsReady(i: nat)
      requires Built() && On(i)
      ensures Ready(i + 1) && Off(i) < Off(i + 1) <= restarts
    {
      hide Block;
      hide RestartOffsets;
      hide Data;
      hide SharedAt;
      hide Ascending;
      hide Transitive;
      OffsetsGrow(es, interval, i, i + 1);
      OffsetsGrow(es, interval, i + 1, |es|);
    }

    method Next(ghost i: nat)
      requires Ok(Some(i))
      modifies this
      ensures Ok(After(i, |es|))
    {
      hide Ready;
      hide On;
      OnIsReady(i);
      var ok := ParseNextKey(i + 1);
    }

    method SeekToFirst()
      requires Built()
      modifies this
      ensures Ok(First(|es|))
    {
      hide Ready;
      hide On;
      HasRestart();
      SeekToRestartPoint(0);
      var ok := ParseNextKey(0);
    }

    lemma HasRestart()
      requires Built()
      ensures numRestarts > 0 && RestartEntries(interval, |es|)[0] == 0
    {
    }

    method SeekToLast()
      requires Built()
      modifies this
      ensures Ok(Last(|es|))
    {
      hide Ready;
      hide On;
      hide Block;
      hide RestartOffsets;
      hide Data;
      hide Ascending;
      hide Transitive;
      HasRestart();
      SeekToRestartPoint(numRestarts - 1);
      ghost var j := RestartEntries(interval, |es|)[numRestarts - 1];
      RestartFacts(numRestarts - 1);
      while true
        invariant Built() && j <= |es| && Ready(j) && (j == |es| ==> j == 0)
        decreases |es| - j
      {
        var ok := ParseNextKey(j);
        if !ok {
          break;
        }
        OnIsReady(j);
        OnEnds(j);
        if NextEntryOffset() >= restarts {
          break;
        }
        j := j + 1;
      }
    }

    /** The end of an entry tells whether it is the last. */
    lemma OnEnds(i: nat)
      requires Built() && On(i)
      ensures NextEntryOffset() == Off(i + 1) && (NextEntryOffset() < restarts <==> i + 1 < |es|)
    {
      hide Block;
      hide RestartOffsets;
      hide Data;
      hide Ascending;
      hide Transitive;
      OffsetsGrow(es, interval, i + 1, |es|);
    }

    /** Back to the entry before: to the last restart point before the current entry, and on from there. */
    method Prev(ghost i: nat)
      requires Ok(Some(i))
      modifies this
      ensures Ok(Before(i))
    {
      hide Ready, Ascending, Transitive, RestartOffsets, RestartEntries, Data, Block, Fixed, FromFixed;
      RestartFacts(0);
      var original := current;
      while true
        invariant Built() && current == original == Off(i) && i < |es| && restartIndex < numRestarts
        decreases restartIndex
      {
        var offset := GetRestartPoint(restartIndex);
        if offset < original {
          break;
        }
        if restartIndex == 0 {
          FirstEntry(i);
          current := restarts;
          restartIndex := numRestarts;
          return;
        }
        restartIndex := restartIndex - 1;
      }
      hide On;
      RestartFacts(restartIndex);
      ghost var j := RestartEntries(interval, |es|)[restartIndex];
      Earlier(j, i);
      SeekToRestartPoint(restartIndex);
      while true
        invariant Built() && Ready(j) && j < i < |es| && original == Off(i)
        decreases i - j
      {
        var ok := ParseNextKey(j);
        OnEnds(j);
        OnIsReady(j);
        Earlier(j + 1, i);
        if NextEntryOffset() >= original {
          break;
        }
        j := j + 1;
      }
    }

    lemma FirstEntry(i: nat)
      requires Built() && i < |es| && Off(i) <= RestartAt(0)
      ensures i == 0
    {
      hide Data;
      RestartFacts(0);
      if i > 0 {
        OffsetsGrow(es, interval, 0, i);
      }
    }

    /** Offsets tell which entry comes first. */
    lemma Earlier(j: nat, i: nat)
      requires j <= |es| && i <= |es|
      ensures Off(j) < Off(i) <==> j < i
    {
      hide Data;
      if j <= i {
        OffsetsGrow(es, interval, j, i);
      } else {
        OffsetsGrow(es, interval, i, j);
      }
    }

    /** Binary search among the restart points for the last one with a key before the target, and on from
        there to the first key that is not before it. */
    method Seek(target: Bytes)
      requires Built()
      modifies this
      ensures Ok(At(FirstNotLess(less, es, target), |es|))
    {
      hide Ready;
      hide On;
      hide Block;
      hide RestartOffsets;
      hide Data;
      hide Ascending;
      hide Transitive;
      HasRestart();
      var left, right := 0, numRestarts - 1;
      while left < right
        invariant 0 <= left <= right < numRestarts
        invariant left > 0 ==> LeftOf(left, target)
      {
        var mid := (left + right + 1) / 2;
        var midKey := RestartKey(mid);
        if less(midKey, target) {
          left := mid;
        } else {
          right := mid - 1;
        }
      }
      RestartFacts(left);
      SeekToRestartPoint(left);
      ghost var j := RestartEntries(interval, |es|)[left];
      LeftFacts(left, target);
      while true
        invariant Built() && j <= |es| && Ready(j)
        invariant forall k :: 0 <= k < j ==> less(es[k].key, target)
        decreases |es| - j
      {
        var ok := ParseNextKey(j);
        if !ok {
          break;
        }
        OnIsReady(j);
        KeyIs(j);
        if !less(key, target) {
          break;
        }
        j := j + 1;
      }
      FoundIs(target, j);
    }

    lemma KeyIs(i: nat)
      requires Built() && On(i)
      ensures i < |es| && key == es[i].key
    {
    }

    lemma FoundIs(target: Bytes, j: nat)
      requires j <= |es| && (forall k :: 0 <= k < j ==> less(es[k].key, target)) && (j < |es| ==> !less(es[j].key, target))
      ensures j == FirstNotLess(less, es, target)
    {
    }

    /** The key at restart point `k` is before the target. */
    ghost predicate LeftOf(k: nat, target: Bytes)
      requires Built() && k < numRestarts
    {
      var e := RestartEntries(interval, |es|)[k];
      e < |es| && less(es[e].key, target)
    }

    lemma LeftFacts(k: nat, target: Bytes)
      requires Built() && k < numRestarts && (k > 0 ==> LeftOf(k, target))
      ensures forall i :: 0 <= i < RestartEntries(interval, |es|)[k] && i < |es| ==> less(es[i].key, target)
    {
      hide Block;
      hide RestartOffsets;
    }

    /** The key stored whole at a restart point. */
    method RestartKey(k: nat) returns (key: Bytes)
      requires Built() && 0 < k < numRestarts
      ensures RestartEntries(interval, |es|)[k] < |es| && key == es[RestartEntries(interval, |es|)[k]].key
    {
      hide Block;
      hide RestartOffsets;
      hide Data;
      hide DecodeEntry;
      RestartFacts(k);
      ghost var e := RestartEntries(interval, |es|)[k];
      var offset := GetRestartPoint(k);
      EntryRead(es, interval, e);
      var h := DecodeEntry(data[offset..restarts]).value;
      key := data[offset + h.size..offset + h.size + h.unshared];
    }
  }
}
