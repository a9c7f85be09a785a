/** Tables: the builder's blocks, index keys and filters, and a lookup that never misses. */
module Table {
  import opened InternalKeys
  import opened VersionSearch
  import opened FilterBlock

  datatype DataBlock = DataBlock(offset: nat, entries: seq<Entry>)

  /** The blocks of a table with the index key of each, and the filter block if there is one. */
  datatype Table = Table(blocks: seq<DataBlock>, index: seq<InternalKey>, filter: Option<Filters>)

  function Concat(blocks: seq<DataBlock>): seq<Entry> {
    if blocks == [] then [] else Concat(blocks[..|blocks| - 1]) + blocks[|blocks| - 1].entries
  }

  /** An index key after the last key of a block: that key, or the earliest internal key of a later user key
      that comes before the user key of the next block's first entry. */
  ghost predicate Separates(last: InternalKey, sep: InternalKey, next: Option<InternalKey>) {
    sep == last ||
      (last.user < sep.user && (next.Some? ==> sep.user < next.value.user) && sep == InternalKey(sep.user, MAX_SEQUENCE, Value))
  }

  function LastKey(b: DataBlock): InternalKey
    requires b.entries != []
  {
    b.entries[|b.entries| - 1].key
  }

  function FirstKey(b: DataBlock): InternalKey
    requires b.entries != []
  {
    b.entries[0].key
  }

  /** The first key behind block `i`. */
  function NextFirst(blocks: seq<DataBlock>, i: nat): Option<InternalKey>
    requires i < |blocks| && (i + 1 < |blocks| ==> blocks[i + 1].entries != [])
  {
    if i + 1 < |blocks| then Some(FirstKey(blocks[i + 1])) else None
  }

  ghost predicate Indexed(t: Table) {
    && |t.index| == |t.blocks|
    && (forall i :: 0 <= i < |t.blocks| ==> t.blocks[i].entries != [])
    && (forall i :: 0 <= i < |t.blocks| ==> Separates(LastKey(t.blocks[i]), t.index[i], NextFirst(t.blocks, i)))
  }

  /** The filter matches every user key of every block. */
  ghost predicate Filtered(t: Table, hashOf: UserKey -> nat) {
    t.filter.Some? ==>
      Ordered(t.filter.value) &&
      forall i, e :: 0 <= i < |t.blocks| && e in t.blocks[i].entries ==> MayMatch(t.filter.value, t.blocks[i].offset, hashOf(e.key.user))
  }

  /** The table holds the entries `es`. */
  ghost predicate Holds(t: Table, es: seq<Entry>, hashOf: UserKey -> nat) {
    Sorted(es) && Concat(t.blocks) == es && Indexed(t) && Filtered(t, hashOf)
  }

  // ---- Lookup ----

  function SeekKey(keys: seq<InternalKey>, target: InternalKey): (i: nat)
    ensures i <= |keys|
    ensures forall j :: 0 <= j < i ==> Less(keys[j], target)
    ensures i < |keys| ==> AtMost(target, keys[i])
  {
    if |keys| == 0 || !Less(keys[0], target) then 0 else 1 + SeekKey(keys[1..], target)
  }

  /** The entry handed to the caller for the first key at or after `k`, unless the filter rules the key out. */
  method InternalGet(t: Table, k: InternalKey, hashOf: UserKey -> nat) returns (r: Option<Entry>)
    requires |t.index| == |t.blocks| && (t.filter.Some? ==> Ordered(t.filter.value))
    ensures var i := SeekKey(t.index, k);
            r == if i == |t.index| || (t.filter.Some? && !MayMatch(t.filter.value, t.blocks[i].offset, hashOf(k.user))) then None
                 else
                   var es := t.blocks[i].entries;
                   var j := SeekIndex(es, k);
                   if j < |es| then Some(es[j]) else None
  {
    hide MayMatch;
    var i := SeekKey(t.index, k);
    if i == |t.index| {
      return None;
    }
    var block := t.blocks[i];
    if t.filter.Some? {
      var may := KeyMayMatch(t.filter.value, block.offset, hashOf(k.user));
      if !may {
        return None;
      }
    }
    var j := SeekIndex(block.entries, k);
    r := if j < |block.entries| then Some(block.entries[j]) else None;
  }

  lemma {:induction false} ConcatHolds(blocks: seq<DataBlock>, e: Entry)
    ensures e in Concat(blocks) <==> exists i :: 0 <= i < |blocks| && e in blocks[i].entries
  {
    if blocks != [] {
      var n := |blocks| - 1;
      ConcatHolds(blocks[..n], e);
      if e in blocks[n].entries {
        assert e in blocks[n].entries;
      }
      if i :| 0 <= i < |blocks[..n]| && e in blocks[..n][i].entries {
        assert e in blocks[i].entries;
      }
    }
  }

  /** Where the entries of block `i` begin in the whole. */
  function Start(blocks: seq<DataBlock>, i: nat): nat
    requires i <= |blocks|
  {
    |Concat(blocks[..i])|
  }

  lemma {:induction false} BlockAt(blocks: seq<DataBlock>, i: nat, j: nat)
    requires i < |blocks| && j < |blocks[i].entries|
    ensures Start(blocks, i) + j < |Concat(blocks)| && Concat(blocks)[Start(blocks, i) + j] == blocks[i].entries[j]
    ensures Start(blocks, i + 1) == Start(blocks, i) + |blocks[i].entries|
  {
    var n := |blocks| - 1;
    if i < n {
      BlockAt(blocks[..n], i, j);
      assert blocks[..n][..i] == blocks[..i] && blocks[..n][..i + 1] == blocks[..i + 1];
    } else {
      assert blocks[..i + 1] == blocks;
    }
  }

  /** Entries of one block, or of an earlier and a later one, are in order. */
  lemma InOrder(t: Table, es: seq<Entry>, i: nat, j: nat, m: nat, n: nat)
    requires Sorted(es) && Concat(t.blocks) == es
    requires i < |t.blocks| && j < |t.blocks[i].entries| && m < |t.blocks| && n < |t.blocks[m].entries|
    requires i < m || (i == m && j < n)
    ensures Precedes(t.blocks[i].entries[j].key, t.blocks[m].entries[n].key)
  {
    BlockAt(t.blocks, i, j);
    BlockAt(t.blocks, m, n);
    if i < m {
      StartsGrow(t.blocks, i + 1, m);
    }
    SortedAt(es, Start(t.blocks, i) + j, Start(t.blocks, m) + n);
  }

  lemma StartsGrow(blocks: seq<DataBlock>, i: nat, m: nat)
    requires i <= m <= |blocks|
    ensures Start(blocks, i) <= Start(blocks, m)
    decreases m - i
  {
    if i < m {
      StartsGrow(blocks, i, m - 1);
      assert blocks[..m][..m - 1] == blocks[..m - 1];
    }
  }

  /** Every entry of the blocks whose index key is before `k` is before `k`. */
  lemma EarlierBlocks(t: Table, es: seq<Entry>, k: InternalKey, i: nat, j: nat)
    requires Sorted(es) && Concat(t.blocks) == es && Indexed(t)
    requires i < |t.blocks| && j < |t.blocks[i].entries| && Less(t.index[i], k)
    ensures Less(t.blocks[i].entries[j].key, k)
  {
    var last := |t.blocks[i].entries| - 1;
    if j < last {
      InOrder(t, es, i, j, i, last);
    }
    assert Separates(LastKey(t.blocks[i]), t.index[i], NextFirst(t.blocks, i));
  }

  lemma AtOrAfterLast(t: Table, m: nat)
    requires Indexed(t) && m < |t.blocks|
    ensures |t.index| == |t.blocks| && t.blocks[m].entries != [] && AtMost(LastKey(t.blocks[m]), t.index[m])
  {
    assert Separates(LastKey(t.blocks[m]), t.index[m], NextFirst(t.blocks, m));
  }

  /** Where the first entry of a user key at or below a sequence lies: in the block the index leads to. */
  lemma {:induction false} FoundInBlock(t: Table, es: seq<Entry>, user: UserKey, snapshot: Sequence, m: nat, n: nat)
    requires Sorted(es) && Concat(t.blocks) == es && Indexed(t)
    requires m < |t.blocks| && n < |t.blocks[m].entries|
    requires var k := LookupKey(user, snapshot);
             && t.blocks[m].entries[n].key.user == user && AtMost(k, t.blocks[m].entries[n].key)
             && (n > 0 ==> Less(t.blocks[m].entries[n - 1].key, k))
             && (n == 0 && m > 0 ==> Less(LastKey(t.blocks[m - 1]), k))
    ensures SeekKey(t.index, LookupKey(user, snapshot)) == m && SeekIndex(t.blocks[m].entries, LookupKey(user, snapshot)) == n
  {
    hide Indexed, Concat, Sorted, Separates;
    var k, es_m := LookupKey(user, snapshot), t.blocks[m].entries;
    var i := SeekKey(t.index, k);
    AtOrAfterLast(t, m);
    if n < |es_m| - 1 {
      InOrder(t, es, m, n, m, |es_m| - 1);
    }
    if i < m {
      IndexBefore(t, es, k, user, m, n, i);
    } else if i > m {
      EarlierBlocks(t, es, k, m, n);
    }
    var j := SeekIndex(es_m, k);
    if j < n {
      if j < n - 1 {
        InOrder(t, es, m, j, m, n - 1);
      }
    }
  }

  /** No index key before that of the block holding the entry is at or after the key looked up. */
  lemma {:induction false} IndexBefore(t: Table, es: seq<Entry>, k: InternalKey, user: UserKey, m: nat, n: nat, i: nat)
    requires Sorted(es) && Concat(t.blocks) == es && Indexed(t) && i < m < |t.blocks| && n < |t.blocks[m].entries|
    requires k.user == user == t.blocks[m].entries[n].key.user && k.kind.Value?
    requires (n > 0 ==> Less(t.blocks[m].entries[n - 1].key, k)) && (n == 0 ==> Less(LastKey(t.blocks[m - 1]), k))
    ensures Less(t.index[i], k)
  {
    hide Indexed;
    hide Concat;
    hide Sorted;
    hide Separates;
    IndexFacts(t, i);
    IndexFacts(t, m - 1);
    var li := |t.blocks[i].entries| - 1;
    if t.index[i] == LastKey(t.blocks[i]) {
      if n > 0 {
        InOrder(t, es, i, li, m, n - 1);
      } else if i < m - 1 {
        InOrder(t, es, i, li, m - 1, |t.blocks[m - 1].entries| - 1);
      }
    } else {
      ShortKey(LastKey(t.blocks[i]), t.index[i], FirstKey(t.blocks[i + 1]));
      if i + 1 < m || 0 < n {
        InOrder(t, es, i + 1, 0, m, n);
      }
    }
  }

  lemma IndexFacts(t: Table, i: nat)
    requires Indexed(t) && i + 1 < |t.blocks|
    ensures |t.index| == |t.blocks| && t.blocks[i].entries != [] && t.blocks[i + 1].entries != []
    ensures Separates(LastKey(t.blocks[i]), t.index[i], Some(FirstKey(t.blocks[i + 1])))
  {
    assert Separates(LastKey(t.blocks[i]), t.index[i], NextFirst(t.blocks, i));
  }

  lemma ShortKey(last: InternalKey, sep: InternalKey, next: InternalKey)
    requires Separates(last, sep, Some(next)) && sep != last
    ensures last.user < sep.user < next.user
  {
  }

  /** What a lookup reports: the entry found, if it is for the user key. */
  function Reported(r: Option<Entry>, user: UserKey): Answer {
    if r.Some? && r.value.key.user == user then
      if r.value.key.kind.Value? then Found(r.value.value) else Deleted
    else NotFound
  }

  /** The result of `InternalGet`. */
  ghost function Got(t: Table, k: InternalKey, hashOf: UserKey -> nat): Option<Entry>
    requires |t.index| == |t.blocks|
  {
    var i := SeekKey(t.index, k);
    if i == |t.index| || (t.filter.Some? && !MayMatch(t.filter.value, t.blocks[i].offset, hashOf(k.user))) then None
    else
      var es := t.blocks[i].entries;
      var j := SeekIndex(es, k);
      if j < |es| then Some(es[j]) else None
  }

  /** A table lookup reports what a search of the table's entries reports: it never misses the newest entry
      of a user key at or below the sequence, and never reports another one for it. */
  lemma {:induction false} LookupNeverMisses(t: Table, es: seq<Entry>, user: UserKey, snapshot: Sequence, hashOf: UserKey -> nat)
    requires Holds(t, es, hashOf)
    ensures Reported(Got(t, LookupKey(user, snapshot), hashOf), user) == SearchRun(es, user, snapshot)
  {
    var p := SeekIndex(es, LookupKey(user, snapshot));
    hide Indexed;
    hide Filtered;
    hide Concat;
    hide Sorted;
    HoldsShape(t, es, hashOf);
    if p < |es| && es[p].key.user == user {
      Present(t, es, user, snapshot, hashOf, p);
    } else {
      Absent(t, es, user, snapshot, hashOf);
    }
  }

  lemma HoldsShape(t: Table, es: seq<Entry>, hashOf: UserKey -> nat)
    requires Holds(t, es, hashOf)
    ensures |t.index| == |t.blocks|
  {
  }

  lemma FilterPasses(t: Table, es: seq<Entry>, hashOf: UserKey -> nat, m: nat, n: nat)
    requires Holds(t, es, hashOf) && m < |t.blocks| && n < |t.blocks[m].entries|
    ensures t.filter.Some? ==> MayMatch(t.filter.value, t.blocks[m].offset, hashOf(t.blocks[m].entries[n].key.user))
  {
    hide MayMatch;
    assert t.blocks[m].entries[n] in t.blocks[m].entries;
  }

  lemma {:induction false} Present(t: Table, es: seq<Entry>, user: UserKey, snapshot: Sequence, hashOf: UserKey -> nat, p: nat)
    requires Holds(t, es, hashOf) && |t.index| == |t.blocks| && p == SeekIndex(es, LookupKey(user, snapshot)) && p < |es| && es[p].key.user == user
    ensures Got(t, LookupKey(user, snapshot), hashOf) == Some(es[p])
  {
    hide MayMatch;
    hide Filtered;
    hide Indexed;
    hide Concat;
    hide Sorted;
    hide SeekIndex;
    hide SeekKey;
    hide Start;
    var m, n := Located(t.blocks, p);
    FilterPasses(t, es, hashOf, m, n);
    BlocksFilled(t);
    Predecessor(t.blocks, p, m, n);
    FoundInBlock(t, es, user, snapshot, m, n);
  }

  /** The entry before one that a block holds: in the same block, or the last of the one before. */
  lemma Predecessor(blocks: seq<DataBlock>, p: nat, m: nat, n: nat)
    requires m < |blocks| && n < |blocks[m].entries| && Start(blocks, m) + n == p && (m > 0 ==> blocks[m - 1].entries != [])
    ensures p < |Concat(blocks)|
    ensures n > 0 ==> p > 0 && blocks[m].entries[n - 1] == Concat(blocks)[p - 1]
    ensures n == 0 && m > 0 ==> p > 0 && LastKey(blocks[m - 1]) == Concat(blocks)[p - 1].key
  {
    hide Concat;
    hide Start;
    BlockAt(blocks, m, n);
    if n > 0 {
      BlockAt(blocks, m, n - 1);
    } else if m > 0 {
      BlockAt(blocks, m - 1, |blocks[m - 1].entries| - 1);
    }
  }

  lemma BlocksFilled(t: Table)
    requires Indexed(t)
    ensures forall i :: 0 <= i < |t.blocks| ==> t.blocks[i].entries != []
  {
  }

  lemma {:induction false} Absent(t: Table, es: seq<Entry>, user: UserKey, snapshot: Sequence, hashOf: UserKey -> nat)
    requires Holds(t, es, hashOf) && |t.index| == |t.blocks|
    requires var p := SeekIndex(es, LookupKey(user, snapshot)); p == |es| || es[p].key.user != user
    ensures var r := Got(t, LookupKey(user, snapshot), hashOf); r.Some? ==> r.value.key.user != user
  {
    hide MayMatch;
    hide Filtered;
    hide Indexed;
    var k := LookupKey(user, snapshot);
    var r := Got(t, k, hashOf);
    if r.Some? {
      var m := SeekKey(t.index, k);
      var n := SeekIndex(t.blocks[m].entries, k);
      BlockAt(t.blocks, m, n);
      SearchNone(es, k, Start(t.blocks, m) + n);
    }
  }

  lemma SearchNone(es: seq<Entry>, k: InternalKey, q: nat)
    requires Sorted(es) && q < |es| && AtMost(k, es[q].key) && k.kind.Value?
    requires var p := SeekIndex(es, k); p == |es| || es[p].key.user != k.user
    ensures es[q].key.user != k.user
  {
    var p := SeekIndex(es, k);
    if p < q {
      SortedAt(es, p, q);
    }
  }

  lemma {:induction false} Located(blocks: seq<DataBlock>, p: nat) returns (m: nat, n: nat)
    requires p < |Concat(blocks)|
    ensures m < |blocks| && n < |blocks[m].entries| && Start(blocks, m) + n == p && blocks[m].entries[n] == Concat(blocks)[p]
  {
    var last := |blocks| - 1;
    var before := |Concat(blocks[..last])|;
    if p < before {
      m, n := Located(blocks[..last], p);
      assert blocks[..last][..m] == blocks[..m];
    } else {
      m, n := last, p - before;
    }
  }
}
