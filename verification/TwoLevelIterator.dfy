/** The two-level iterator: a cursor over the concatenation of the blocks an index lists. */
module TwoLevelIterator {
  import opened InternalKeys
  import opened VersionSearch
  import opened Cursors

  /** What opening the block behind an index value yields. */
  type BlockFunction = Bytes -> seq<Entry>

  /** The concatenated first `n` blocks. */
  function Concat(index: seq<Entry>, block: BlockFunction, n: nat): (r: seq<Entry>)
    requires n <= |index|
  {
    if n == 0 then [] else Concat(index, block, n - 1) + block(index[n - 1].value)
  }

  /** Each index key is at or above its block and below the blocks that follow. */
  ghost predicate Indexed(index: seq<Entry>, block: BlockFunction) {
    && Sorted(index)
    && (forall i :: 0 <= i < |index| ==> Sorted(block(index[i].value)))
    && (forall i, e :: 0 <= i < |index| && e in block(index[i].value) ==> AtMost(e.key, index[i].key))
    && (forall i, j, e :: 0 <= i < j < |index| && e in block(index[j].value) ==> Less(index[i].key, e.key))
  }

  lemma {:induction false} ConcatPrefix(index: seq<Entry>, block: BlockFunction, a: nat, b: nat)
    requires a <= b <= |index|
    ensures |Concat(index, block, a)| <= |Concat(index, block, b)|
    ensures Concat(index, block, b)[..|Concat(index, block, a)|] == Concat(index, block, a)
  {
    if a < b {
      ConcatPrefix(index, block, a, b - 1);
    }
  }

  /** The entry at `k` of block `i` in the whole. */
  lemma ConcatAt(index: seq<Entry>, block: BlockFunction, i: nat, k: nat)
    requires i < |index| && k < |block(index[i].value)|
    ensures var all := Concat(index, block, |index|);
            var q := |Concat(index, block, i)| + k;
            q < |all| && all[q] == block(index[i].value)[k]
  {
    var q, part := |Concat(index, block, i)| + k, Concat(index, block, i + 1);
    ConcatPrefix(index, block, i + 1, |index|);
    assert part[q] == block(index[i].value)[k];
    assert Concat(index, block, |index|)[..|part|][q] == part[q];
  }

  lemma {:induction false} ConcatFrom(index: seq<Entry>, block: BlockFunction, n: nat, q: nat) returns (i: nat, k: nat)
    requires n <= |index| && q < |Concat(index, block, n)|
    ensures i < n && k < |block(index[i].value)| && q == |Concat(index, block, i)| + k
    ensures Concat(index, block, n)[q] == block(index[i].value)[k]
  {
    var m := |Concat(index, block, n - 1)|;
    if q < m {
      i, k := ConcatFrom(index, block, n - 1, q);
    } else {
      i, k := n - 1, q - m;
    }
  }

  /** Entry `b` of block `a` is before `target` exactly if it is in a block before the sought one, or
      before the place sought in that. */
  lemma EntryOrder(index: seq<Entry>, block: BlockFunction, target: InternalKey, a: nat, b: nat)
    requires Indexed(index, block) && a < |index| && b < |block(index[a].value)|
    ensures var i := SeekIndex(index, target);
            Less(block(index[a].value)[b].key, target) <==> a < i || (a == i && b < SeekIndex(block(index[i].value), target))
  {
    var i, es := SeekIndex(index, target), block(index[a].value);
    BlockFacts(index, block, a, es[b]);
    hide Indexed, SeekIndex, Sorted, Tag;
    if a < i {
      assert Less(index[a].key, target);
    } else if i < a {
      assert AtMost(target, index[i].key) && Less(index[i].key, es[b].key);
    } else {
      SoughtIn(es, target, b);
    }
  }

  lemma SoughtIn(es: seq<Entry>, target: InternalKey, b: nat)
    requires Sorted(es) && b < |es|
    ensures Less(es[b].key, target) <==> b < SeekIndex(es, target)
  {
    hide SeekIndex;
    var k := SeekIndex(es, target);
    if k < b {
      SortedAt(es, k, b);
    }
  }

  /** An entry of a block is at most the block's index key and behind the ones before. */
  lemma BlockFacts(index: seq<Entry>, block: BlockFunction, a: nat, e: Entry)
    requires Indexed(index, block) && a < |index| && e in block(index[a].value)
    ensures Sorted(block(index[a].value)) && AtMost(e.key, index[a].key)
    ensures forall i :: 0 <= i < a ==> Less(index[i].key, e.key)
  {
  }

  lemma {:induction false} OffsetOrder(index: seq<Entry>, block: BlockFunction, a: nat, b: nat, i: nat, k: nat)
    requires a < |index| && b < |block(index[a].value)| && i < |index| && k <= |block(index[i].value)|
    ensures |Concat(index, block, a)| + b < |Concat(index, block, i)| + k <==> a < i || (a == i && b < k)
  {
    if a < i {
      ConcatPrefix(index, block, a + 1, i);
    } else if i < a {
      ConcatPrefix(index, block, i + 1, a);
    }
  }

  /** Seeking the index and then its block seeks the whole. */
  lemma SeekWhole(index: seq<Entry>, block: BlockFunction, target: InternalKey)
    requires Indexed(index, block)
    ensures var i := SeekIndex(index, target);
            var all := Concat(index, block, |index|);
            SeekIndex(all, target) ==
              if i < |index| then |Concat(index, block, i)| + SeekIndex(block(index[i].value), target) else |all|
  {
    hide Indexed;
    hide Sorted;
    hide Less;
    var i, all := SeekIndex(index, target), Concat(index, block, |index|);
    var q := SeekIndex(all, target);
    var k := if i < |index| then SeekIndex(block(index[i].value), target) else 0;
    var m := if i < |index| then |Concat(index, block, i)| + k else |all|;
    if i < |index| {
      ConcatPrefix(index, block, i + 1, |index|);
    }
    if q < m {
      var a, b := ConcatFrom(index, block, |index|, q);
      EntryOrder(index, block, target, a, b);
      if i < |index| {
        OffsetOrder(index, block, a, b, i, k);
      }
    } else if m < q {
      var a, b := ConcatFrom(index, block, |index|, m);
      EntryOrder(index, block, target, a, b);
      OffsetOrder(index, block, a, b, i, k);
    }
  }

  // ---- The iterator ----

  class TwoLevelIterator {
    const index: EntryIterator
    const block: BlockFunction
    var data: EntryIterator?
    var handle: Bytes

    /** The index iterator is good and the data iterator, if any, runs over the block named by the handle. */
    ghost predicate Built()
      reads this, index, data
    {
      && index.Ok() && Indexed(index.entries, block)
      && (data != null ==> data != index && data.Ok() && data.entries == block(handle))
    }

    /** The data iterator is on the block of the current index entry. */
    ghost predicate OnBlock()
      reads this, index, data
    {
      && Built()
      && (data != null ==> index.pos.Some? && handle == index.entries[index.pos.value].value)
      && (data == null ==> index.pos.None?)
    }

    ghost predicate Ok()
      reads this, index, data
    {
      Built() && (data != null ==> OnBlock() && data.pos.Some?)
    }

    /** The entries walked. */
    ghost function Entries(): seq<Entry> {
      Concat(index.entries, block, |index.entries|)
    }

    ghost function Place(): Position
      requires Ok()
      reads this, index, data
    {
      if data != null then Some(|Concat(index.entries, block, index.pos.value)| + data.pos.value) else None
    }

    constructor (index: EntryIterator, block: BlockFunction)
      requires index.Ok() && Indexed(index.entries, block)
      ensures Ok() && data == null && this.index == index && this.block == block
    {
      this.index, this.block := index, block;
      data, handle := null, [];
    }

    predicate Valid()
      reads this, data
    {
      data != null && data.Valid()
    }

    function Key(): (k: InternalKey)
      requires Ok() && Valid()
      reads this, index, data
      ensures Place().value < |Entries()| && k == Entries()[Place().value].key
    {
      ConcatAt(index.entries, block, index.pos.value, data.pos.value);
      data.Key()
    }

    function Value(): (x: Bytes)
      requires Ok() && Valid()
      reads this, index, data
      ensures Place().value < |Entries()| && x == Entries()[Place().value].value
    {
      ConcatAt(index.entries, block, index.pos.value, data.pos.value);
      data.Value()
    }

    /** Opens the block of the current index entry, unless it is open already. */
    method InitDataBlock()
      requires Built()
      modifies this
      ensures OnBlock()
      ensures data == old(data) || data == null || fresh(data)
    {
      if !index.Valid() {
        data := null;
      } else {
        var h := index.Value();
        if data == null || h != handle {
          var iter := new EntryIterator(block(h));
          handle := h;
          data := iter;
        }
      }
    }

    /** The place reached once exhausted blocks are left behind. */
    ghost function Ahead(): nat
      requires OnBlock()
      reads this, index, data
    {
      if data == null then |Entries()|
      else if data.pos.Some? then |Concat(index.entries, block, index.pos.value)| + data.pos.value
      else |Concat(index.entries, block, index.pos.value + 1)|
    }

    lemma SoughtIsAhead(target: InternalKey)
      requires OnBlock() && index.pos == At(SeekIndex(index.entries, target), |index.entries|)
      requires data != null ==> data.pos == At(SeekIndex(data.entries, target), |data.entries|)
      ensures Ahead() == SeekIndex(Entries(), target)
    {
      hide Indexed;
      SeekWhole(index.entries, block, target);
    }

    /** One past the place reached once exhausted blocks are left behind, going back. */
    ghost function Behind(): nat
      requires OnBlock()
      reads this, index, data
    {
      if data == null then 0
      else |Concat(index.entries, block, index.pos.value)| + (if data.pos.Some? then data.pos.value + 1 else 0)
    }

    method SkipEmptyDataBlocksForward()
      requires OnBlock()
      modifies this, index, data
      ensures Ok() && Place() == At(old(Ahead()), |Entries()|)
      ensures data == old(data) || data == null || fresh(data)
    {
      while data == null || !data.Valid()
        invariant OnBlock() && Ahead() == old(Ahead())
        invariant data == old(data) || data == null || fresh(data)
        decreases if index.pos.Some? then |index.entries| - index.pos.value else 0
      {
        if !index.Valid() {
          data := null;
          return;
        }
        index.Next();
        InitDataBlock();
        if data != null {
          data.SeekToFirst();
        }
      }
      ConcatAt(index.entries, block, index.pos.value, data.pos.value);
    }

    method SeekToFirst()
      requires Ok()
      modifies this, index, data
      ensures Ok() && Place() == First(|Entries()|)
      ensures data == old(data) || data == null || fresh(data)
    {
      index.SeekToFirst();
      InitDataBlock();
      if data != null {
        data.SeekToFirst();
      }
      assert |Concat(index.entries, block, 0)| == 0;
      assert Ahead() == 0;
      SkipEmptyDataBlocksForward();
    }

    method Seek(target: InternalKey)
      requires Ok()
      modifies this, index, data
      ensures Ok() && Place() == At(SeekIndex(Entries(), target), |Entries()|)
      ensures data == old(data) || data == null || fresh(data)
    {
      hide Indexed;
      hide Sorted;
      hide Concat;
      index.Seek(target);
      InitDataBlock();
      if data != null {
        data.Seek(target);
      }
      SoughtIsAhead(target);
      SkipEmptyDataBlocksForward();
    }

    method Next()
      requires Ok() && Valid()
      modifies this, index, data
      ensures Ok() && Place() == After(old(Place().value), |Entries()|)
      ensures data == old(data) || data == null || fresh(data)
    {
      data.Next();
      SkipEmptyDataBlocksForward();
    }

    method SkipEmptyDataBlocksBackward()
      requires OnBlock()
      modifies this, index, data
      ensures Ok() && Place() == Before(old(Behind()))
      ensures data == old(data) || data == null || fresh(data)
    {
      while data == null || !data.Valid()
        invariant OnBlock() && Behind() == old(Behind())
        invariant data == old(data) || data == null || fresh(data)
        decreases if index.pos.Some? then index.pos.value + 1 else 0
      {
        if !index.Valid() {
          data := null;
          return;
        }
        index.Prev();
        InitDataBlock();
        if data != null {
          data.SeekToLast();
        }
      }
    }

    method SeekToLast()
      requires Ok()
      modifies this, index, data
      ensures Ok() && Place() == Last(|Entries()|)
      ensures data == old(data) || data == null || fresh(data)
    {
      index.SeekToLast();
      InitDataBlock();
      if data != null {
        data.SeekToLast();
      }
      SkipEmptyDataBlocksBackward();
    }

    method Prev()
      requires Ok() && Valid()
      modifies this, index, data
      ensures Ok() && Place() == Before(old(Place().value))
      ensures data == old(data) || data == null || fresh(data)
    {
      data.Prev();
      SkipEmptyDataBlocksBackward();
    }
  }
}
