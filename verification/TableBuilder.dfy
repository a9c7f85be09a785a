/** The table builder. */
module TableBuilder {
  import opened InternalKeys
  import opened FilterBlock
  import opened Table

  const TRAILER: nat := 5

  /** A key between two user keys, or the first key itself. */
  method ShortestSeparator(last: InternalKey, next: InternalKey) returns (sep: InternalKey)
    ensures Separates(last, sep, Some(next))
  {
    sep := last;
    var shorten := *;
    if shorten && last.user + 1 < next.user {
      assert last.user < last.user + 1 < next.user;
      var user: UserKey :| last.user < user < next.user;
      sep := InternalKey(user, MAX_SEQUENCE, ValueType.Value);
    }
  }

  /** A key behind a user key, or the key itself. */
  method ShortSuccessor(last: InternalKey) returns (sep: InternalKey)
    ensures Separates(last, sep, None)
  {
    sep := last;
    if * {
      assert last.user < last.user + 1;
      var user: UserKey :| last.user < user;
      sep := InternalKey(user, MAX_SEQUENCE, ValueType.Value);
    }
  }

  /** The filter, built so far from `windows` and `keys`, has the hashes of a block's user keys. */
  ghost predicate Covered(b: DataBlock, hashOf: UserKey -> nat, windows: seq<seq<nat>>, keys: seq<nat>) {
    var w := b.offset / WINDOW;
    w <= |windows| && forall e :: e in b.entries ==> hashOf(e.key.user) in (if w < |windows| then windows[w] else keys)
  }

  /** Index keys for all blocks but perhaps the last; `next` is the first key of the block being filled. */
  ghost predicate IndexedUpTo(blocks: seq<DataBlock>, index: seq<InternalKey>, next: Option<InternalKey>) {
    && |index| <= |blocks|
    && (forall i :: 0 <= i < |blocks| ==> blocks[i].entries != [])
    && (forall i :: 0 <= i < |index| ==> Separates(LastKey(blocks[i]), index[i], KeyAfter(blocks, i, next)))
  }

  /** The first key behind block `i`, `next` being the first of the block not yet written. */
  function KeyAfter(blocks: seq<DataBlock>, i: nat, next: Option<InternalKey>): Option<InternalKey>
    requires forall j :: 0 <= j < |blocks| ==> blocks[j].entries != []
  {
    if i + 1 < |blocks| then Some(FirstKey(blocks[i + 1])) else next
  }

  lemma IndexNext(blocks: seq<DataBlock>, index: seq<InternalKey>, sep: InternalKey, next: Option<InternalKey>)
    requires IndexedUpTo(blocks, index, None) && blocks != [] && |index| == |blocks| - 1
    requires blocks[|blocks| - 1].entries != [] ==> Separates(LastKey(blocks[|blocks| - 1]), sep, next)
    ensures IndexedUpTo(blocks, index + [sep], next)
  {
  }

  lemma BlockNext(blocks: seq<DataBlock>, index: seq<InternalKey>, b: DataBlock)
    requires b.entries != [] && IndexedUpTo(blocks, index, Some(b.entries[0].key)) && |index| == |blocks|
    ensures IndexedUpTo(blocks + [b], index, None) && Concat(blocks + [b]) == Concat(blocks) + b.entries
  {
    var blocks' := blocks + [b];
    assert blocks'[..|blocks'| - 1] == blocks;
    forall i | 0 <= i < |index| ensures Separates(LastKey(blocks'[i]), index[i], KeyAfter(blocks', i, None)) {
      assert Separates(LastKey(blocks[i]), index[i], KeyAfter(blocks, i, Some(b.entries[0].key)));
    }
  }

  lemma IndexComplete(t: Table)
    requires IndexedUpTo(t.blocks, t.index, None) && |t.index| == |t.blocks|
    ensures Indexed(t)
  {
    hide Separates;
    forall i | 0 <= i < |t.blocks| ensures Separates(LastKey(t.blocks[i]), t.index[i], NextFirst(t.blocks, i)) {
      assert Separates(LastKey(t.blocks[i]), t.index[i], KeyAfter(t.blocks, i, None));
    }
  }

  lemma SortedAppend(es: seq<Entry>, e: Entry)
    requires Sorted(es) && (es != [] ==> Precedes(es[|es| - 1].key, e.key))
    ensures Sorted(es + [e])
  {
    var all := es + [e];
    forall i, j | 0 <= i < j < |all| ensures Precedes(all[i].key, all[j].key) {
      if j == |es| && i < |es| - 1 {
        SortedAt(es, i, |es| - 1);
      }
    }
  }

  /** The keys waiting for a filter went into the one of their window. */
  lemma CoveredStays(b: DataBlock, hashOf: UserKey -> nat, w: seq<seq<nat>>, keys: seq<nat>, w': seq<seq<nat>>, keys': seq<nat>)
    requires Covered(b, hashOf, w, keys)
    requires (w' == w && keys' == keys) || (|w| < |w'| && w'[..|w|] == w && w'[|w|] == keys)
    ensures Covered(b, hashOf, w', keys')
  {
    assert forall i :: 0 <= i < |w| && w' != w ==> w'[i] == w'[..|w|][i];
  }

  lemma FilterComplete(t: Table, hashOf: UserKey -> nat, windows: seq<seq<nat>>)
    requires t.filter.Some? && Ordered(t.filter.value) && |windows| == |t.filter.value.offsets|
    requires forall i :: 0 <= i < |windows| ==> MadeFrom(t.filter.value, i, windows[i])
    requires forall i :: 0 <= i < |t.blocks| ==> Covered(t.blocks[i], hashOf, windows, [])
    ensures Filtered(t, hashOf)
  {
    hide Matches, OnlyOf;
    var f := t.filter.value;
    forall i, e | 0 <= i < |t.blocks| && e in t.blocks[i].entries ensures MayMatch(f, t.blocks[i].offset, hashOf(e.key.user)) {
      assert Covered(t.blocks[i], hashOf, windows, []);
      var w := t.blocks[i].offset / WINDOW;
      if w < |windows| {
        assert MadeFrom(f, w, windows[w]);
      }
    }
  }

  /** The builder's blocks and index keys stand for the entries added. */
  ghost predicate Shaped(es: seq<Entry>, blocks: seq<DataBlock>, data: seq<Entry>, lastKey: InternalKey, pending: bool, index: seq<InternalKey>) {
    && Sorted(es) && es == Concat(blocks) + data
    && (es != [] ==> lastKey == es[|es| - 1].key)
    && (pending ==> data == [] && blocks != [] && |index| == |blocks| - 1)
    && (!pending ==> |index| == |blocks| && (blocks != [] ==> data != []))
    && IndexedUpTo(blocks, index, if data == [] then None else Some(data[0].key))
  }

  /** The filter builder has the keys of all blocks, and those of the block being filled are waiting. */
  ghost predicate FiltersOk(hashOf: UserKey -> nat, offset: nat, blocks: seq<DataBlock>, data: seq<Entry>, w: seq<seq<nat>>, keys: seq<nat>) {
    && |w| == offset / WINDOW
    && (forall i :: 0 <= i < |blocks| ==> Covered(blocks[i], hashOf, w, keys))
    && forall e :: e in data ==> hashOf(e.key.user) in keys
  }

  lemma ShapedParts(es: seq<Entry>, blocks: seq<DataBlock>, data: seq<Entry>, lastKey: InternalKey, pending: bool, index: seq<InternalKey>)
    requires Shaped(es, blocks, data, lastKey, pending, index)
    ensures Sorted(es) && es == Concat(blocks) + data && (pending ==> data == [])
    ensures !pending ==> |index| == |blocks| && IndexedUpTo(blocks, index, if data == [] then None else Some(data[0].key))
    ensures !pending && data == [] ==> blocks == []
  {
  }

  lemma ShapedFlushed(es: seq<Entry>, blocks: seq<DataBlock>, data: seq<Entry>, lastKey: InternalKey, index: seq<InternalKey>, offset: nat)
    requires Shaped(es, blocks, data, lastKey, false, index) && data != []
    ensures Shaped(es, blocks + [DataBlock(offset, data)], [], lastKey, true, index)
  {
    hide Sorted;
    hide IndexedUpTo;
    hide Concat;
    BlockNext(blocks, index, DataBlock(offset, data));
    assert es == Concat(blocks + [DataBlock(offset, data)]) + [];
  }

  lemma ShapedIndexed(es: seq<Entry>, blocks: seq<DataBlock>, lastKey: InternalKey, index: seq<InternalKey>, sep: InternalKey, next: Option<InternalKey>)
    requires Shaped(es, blocks, [], lastKey, true, index) && Separates(lastKey, sep, next)
    ensures blocks != [] && |index| + 1 == |blocks| && blocks[|blocks| - 1].entries != []
    ensures IndexedUpTo(blocks, index + [sep], next) && es == Concat(blocks)
  {
    var last := blocks[|blocks| - 1];
    assert es == Concat(blocks[..|blocks| - 1]) + last.entries;
    assert LastKey(last) == lastKey;
    hide Sorted;
    hide Concat;
    hide Separates;
    IndexNext(blocks, index, sep, next);
  }

  lemma ShapedAdded(es: seq<Entry>, blocks: seq<DataBlock>, data: seq<Entry>, index: seq<InternalKey>, e: Entry)
    requires Sorted(es) && es == Concat(blocks) + data && (es != [] ==> Precedes(es[|es| - 1].key, e.key)) && |index| == |blocks|
    requires IndexedUpTo(blocks, index, if data == [] then Some(e.key) else Some(data[0].key))
    ensures Shaped(es + [e], blocks, data + [e], e.key, false, index)
  {
    SortedAppend(es, e);
    hide Sorted;
    hide Concat;
    hide IndexedUpTo;
    assert Concat(blocks) + (data + [e]) == es + [e];
    assert (data + [e])[0].key == if data == [] then e.key else data[0].key;
  }

  lemma NoBlocks(index: seq<InternalKey>, a: Option<InternalKey>, b: Option<InternalKey>)
    requires IndexedUpTo([], index, a)
    ensures IndexedUpTo([], index, b)
  {
  }

  class TableBuilder {
    const hashOf: UserKey -> nat
    const filter: FilterBlockBuilder?
    /** When a block is full, and what it takes in the file. */
    const full: seq<Entry> -> bool
    const storedSize: seq<Entry> -> nat
    var offset: nat
    var dataBlock: seq<Entry>
    var lastKey: InternalKey
    var pendingIndexEntry: bool
    var index: seq<InternalKey>
    var blocks: seq<DataBlock>
    ghost var es: seq<Entry>

    ghost predicate Shape()
      reads this
    {
      Shaped(es, blocks, dataBlock, lastKey, pendingIndexEntry, index)
    }

    ghost predicate FilterOk()
      reads this, filter
    {
      filter != null ==> filter.Valid() && FiltersOk(hashOf, offset, blocks, dataBlock, filter.windows, filter.keys)
    }

    ghost predicate Valid()
      reads this, filter
    {
      Shape() && FilterOk()
    }

    constructor (hashOf: UserKey -> nat, filter: FilterBlockBuilder?, full: seq<Entry> -> bool, storedSize: seq<Entry> -> nat)
      requires filter != null ==> filter.Valid() && filter.windows == [] && filter.keys == []
      ensures Valid() && es == [] && this.hashOf == hashOf && this.filter == filter
    {
      this.hashOf, this.filter, this.full, this.storedSize := hashOf, filter, full, storedSize;
      offset, dataBlock, pendingIndexEntry, index, blocks, es := 0, [], false, [], [], [];
    }

    method Add(e: Entry)
      requires Valid() && (es != [] ==> Precedes(es[|es| - 1].key, e.key))
      modifies this, filter
      ensures Valid() && es == old(es) + [e]
    {
      hide Separates, Covered, Concat, IndexedUpTo, Sorted, Shaped, MadeFrom, Ordered, Legal, FilterBlock.After, Less;
      ShapedParts(es, blocks, dataBlock, lastKey, pendingIndexEntry, index);
      if pendingIndexEntry {
        var sep := ShortestSeparator(lastKey, e.key);
        ShapedIndexed(es, blocks, lastKey, index, sep, Some(e.key));
        index := index + [sep];
        pendingIndexEntry := false;
      } else if blocks == [] && dataBlock == [] {
        NoBlocks(index, None, Some(e.key));
      }
      ShapedAdded(es, blocks, dataBlock, index, e);
      if filter != null {
        KeyAdded(blocks, hashOf, filter.windows, filter.keys, hashOf(e.key.user));
        filter.AddKey(hashOf(e.key.user));
      }
      lastKey := e.key;
      dataBlock := dataBlock + [e];
      es := es + [e];
      if full(dataBlock) {
        Flush();
      }
    }

    lemma KeyAdded(blocks: seq<DataBlock>, hashOf: UserKey -> nat, w: seq<seq<nat>>, keys: seq<nat>, h: nat)
      requires forall i :: 0 <= i < |blocks| ==> Covered(blocks[i], hashOf, w, keys)
      ensures forall i :: 0 <= i < |blocks| ==> Covered(blocks[i], hashOf, w, keys + [h])
    {
      forall i | 0 <= i < |blocks| ensures Covered(blocks[i], hashOf, w, keys + [h]) {
        assert Covered(blocks[i], hashOf, w, keys);
      }
    }

    method Flush()
      requires Valid()
      modifies this, filter
      ensures Valid() && es == old(es) && dataBlock == []
    {
      hide Separates, Covered, Sorted, Concat, IndexedUpTo, Shaped, MadeFrom, Ordered, Legal, FilterBlock.After;
      if dataBlock == [] {
        return;
      }
      ghost var b := DataBlock(offset, dataBlock);
      NotPending();
      ShapedFlushed(es, blocks, dataBlock, lastKey, index, offset);
      if filter != null {
        NewCovered(b, hashOf, filter.windows, filter.keys);
      }
      blocks := blocks + [DataBlock(offset, dataBlock)];
      pendingIndexEntry := true;
      offset := offset + storedSize(dataBlock) + TRAILER;
      dataBlock := [];
      if filter != null {
        WindowsGrow(b.offset, offset);
        ghost var w, keys := filter.windows, filter.keys;
        filter.StartBlock(offset);
        AllStay(blocks, hashOf, w, keys, filter.windows, filter.keys);
      }
    }

    lemma NotPending()
      requires Shape() && dataBlock != []
      ensures !pendingIndexEntry
    {
    }

    lemma WindowsGrow(a: nat, b: nat)
      requires a <= b
      ensures a / WINDOW <= b / WINDOW
    {
    }

    lemma NewCovered(b: DataBlock, hashOf: UserKey -> nat, w: seq<seq<nat>>, keys: seq<nat>)
      requires |w| == b.offset / WINDOW && forall e :: e in b.entries ==> hashOf(e.key.user) in keys
      ensures Covered(b, hashOf, w, keys)
    {
    }

    lemma AllStay(blocks: seq<DataBlock>, hashOf: UserKey -> nat, w: seq<seq<nat>>, keys: seq<nat>, w': seq<seq<nat>>, keys': seq<nat>)
      requires forall i :: 0 <= i < |blocks| ==> Covered(blocks[i], hashOf, w, keys)
      requires (w' == w && keys' == keys) || (|w| < |w'| && w'[..|w|] == w && w'[|w|] == keys)
      ensures forall i :: 0 <= i < |blocks| ==> Covered(blocks[i], hashOf, w', keys')
    {
      hide Covered;
      forall i | 0 <= i < |blocks| ensures Covered(blocks[i], hashOf, w', keys') {
        CoveredStays(blocks[i], hashOf, w, keys, w', keys');
      }
    }

    method Finish() returns (t: Table)
      requires Valid()
      modifies this, filter
      ensures Holds(t, old(es), hashOf) && (t.filter.Some? <==> filter != null)
    {
      hide Separates;
      hide Covered;
      hide Sorted;
      hide Concat;
      hide IndexedUpTo;
      Flush();
      var f: Option<Filters> := None;
      if filter != null {
        ghost var w, keys := filter.windows, filter.keys;
        var filters, contents := filter.Finish();
        f := Some(filters);
        AllDone(blocks, hashOf, w, keys, filter.windows);
      }
      if pendingIndexEntry {
        var sep := ShortSuccessor(lastKey);
        ShapedIndexed(es, blocks, lastKey, index, sep, None);
        index := index + [sep];
        pendingIndexEntry := false;
      }
      t := Table(blocks, index, f);
      IndexComplete(t);
      if filter != null {
        FilterComplete(t, hashOf, filter.windows);
      }
    }

    lemma AllDone(blocks: seq<DataBlock>, hashOf: UserKey -> nat, w: seq<seq<nat>>, keys: seq<nat>, w': seq<seq<nat>>)
      requires forall i :: 0 <= i < |blocks| ==> Covered(blocks[i], hashOf, w, keys)
      requires w' == if keys == [] then w else w + [keys]
      ensures forall i :: 0 <= i < |blocks| ==> Covered(blocks[i], hashOf, w', [])
    {
      hide Covered;
      forall i | 0 <= i < |blocks| ensures Covered(blocks[i], hashOf, w', []) {
        assert keys != [] ==> w'[..|w|] == w && w'[|w|] == keys;
        CoveredStays(blocks[i], hashOf, w, keys, w', []);
      }
    }
  }
}
