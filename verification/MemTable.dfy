/** The memtable: a skip list of encoded entries is a sorted run of entries. */
module MemTable {
  import opened InternalKeys
  import opened VersionSearch
  import opened Cursors
  import SkipList
  import opened Store
  import Database

  const TAGS: int := 0x1_0000_0000_0000_0000

  /** An internal key as the number by which the list orders it. */
  function Code(k: InternalKey): int {
    k.user * TAGS - Tag(k)
  }

  /** The order of codes is the order of internal keys. */
  lemma CodeOrder(a: InternalKey, b: InternalKey)
    ensures Less(a, b) <==> Code(a) < Code(b)
    ensures a == b <==> Code(a) == Code(b)
  {
    assert 0 <= Tag(a) < TAGS && 0 <= Tag(b) < TAGS;
    if a.user < b.user {
      assert (b.user - a.user) * TAGS >= TAGS;
    } else if b.user < a.user {
      assert (a.user - b.user) * TAGS >= TAGS;
    }
  }

  /** The list's keys are those of the entries, which are found by them. */
  ghost predicate Holds(keys: set<SkipList.Key>, stored: map<SkipList.Key, Entry>, es: seq<Entry>) {
    && Sorted(es)
    && (forall e :: e in es ==> Code(e.key) in keys)
    && (forall k :: k in keys ==> k in stored && stored[k] in es && Code(stored[k].key) == k)
  }

  ghost predicate NewKey(es: seq<Entry>, k: InternalKey) {
    forall d :: d in es ==> d.key.user != k.user || d.key.sequence != k.sequence
  }

  lemma AddHolds(keys: set<SkipList.Key>, stored: map<SkipList.Key, Entry>, es: seq<Entry>, e: Entry)
    requires Holds(keys, stored, es) && NewKey(es, e.key)
    ensures Code(e.key) !in keys
    ensures Holds(keys + {Code(e.key)}, stored[Code(e.key) := e], InsertEntry(es, e))
  {
    hide Code, Sorted;
    Database.InsertNewSorted(es, e);
    if Code(e.key) in keys {
      CodeOrder(stored[Code(e.key)].key, e.key);
    }
  }

  /** The place of a key of the list among the entries. */
  lemma PlaceOf(keys: set<SkipList.Key>, stored: map<SkipList.Key, Entry>, es: seq<Entry>, k: SkipList.Key) returns (i: nat)
    requires Holds(keys, stored, es) && k in keys
    ensures i < |es| && es[i] == stored[k] && Code(es[i].key) == k
  {
    i :| 0 <= i < |es| && es[i] == stored[k];
  }

  lemma CodesAscend(es: seq<Entry>, i: nat, j: nat)
    requires Sorted(es) && i < |es| && j < |es|
    ensures i < j <==> Code(es[i].key) < Code(es[j].key)
  {
    SortedAt(es, i, j);
    SortedAt(es, j, i);
    CodeOrder(es[i].key, es[j].key);
  }

  /** `n` is the list's node of the entry at `p`. */
  ghost predicate Marks(es: seq<Entry>, p: Position, n: SkipList.Link) {
    if n.Null? then p.None? else p.Some? && p.value < |es| && Code(es[p.value].key) == n.key
  }

  lemma SeekMarks(keys: set<SkipList.Key>, stored: map<SkipList.Key, Entry>, es: seq<Entry>, target: InternalKey, n: SkipList.Link)
    requires Holds(keys, stored, es) && SkipList.IsFirstFrom(keys, Code(target), n)
    ensures Marks(es, At(SeekIndex(es, target), |es|), n)
  {
    hide Code, Sorted;
    var i := SeekIndex(es, target);
    if i < |es| {
      CodeOrder(es[i].key, target);
      assert es[i] in es;
    }
    if n.To? {
      var j := PlaceOf(keys, stored, es, n.key);
      CodeOrder(es[j].key, target);
      if i < |es| {
        CodesAscend(es, i, j);
        CodesAscend(es, j, i);
      }
    }
  }

  lemma NextMarks(keys: set<SkipList.Key>, stored: map<SkipList.Key, Entry>, es: seq<Entry>, p: nat, n: SkipList.Link)
    requires Holds(keys, stored, es) && p < |es| && SkipList.IsNext(keys, SkipList.Node(Code(es[p].key)), n)
    ensures Marks(es, After(p, |es|), n)
  {
    hide Code, Sorted;
    if p + 1 < |es| {
      CodesAscend(es, p, p + 1);
      assert es[p + 1] in es;
    }
    if n.To? {
      var j := PlaceOf(keys, stored, es, n.key);
      CodesAscend(es, p, j);
      if p + 1 < |es| {
        CodesAscend(es, j, p + 1);
        CodesAscend(es, p + 1, j);
      }
    }
  }

  lemma PrevMarks(keys: set<SkipList.Key>, stored: map<SkipList.Key, Entry>, es: seq<Entry>, p: nat, n: SkipList.Link)
    requires Holds(keys, stored, es) && p < |es| && SkipList.IsBefore(keys, Code(es[p].key), n)
    ensures Marks(es, Before(p), n)
  {
    hide Code, Sorted;
    if p > 0 {
      CodesAscend(es, p - 1, p);
      assert es[p - 1] in es;
    }
    if n.To? {
      var j := PlaceOf(keys, stored, es, n.key);
      CodesAscend(es, j, p);
      if p > 0 {
        CodesAscend(es, j, p - 1);
        CodesAscend(es, p - 1, j);
      }
    }
  }

  lemma FirstMarks(keys: set<SkipList.Key>, stored: map<SkipList.Key, Entry>, es: seq<Entry>, n: SkipList.Link)
    requires Holds(keys, stored, es) && SkipList.IsNext(keys, SkipList.Head, n)
    ensures Marks(es, First(|es|), n)
  {
    hide Code, Sorted;
    if es != [] {
      assert es[0] in es;
    }
    if n.To? {
      var j := PlaceOf(keys, stored, es, n.key);
      CodesAscend(es, j, 0);
      CodesAscend(es, 0, j);
    }
  }

  lemma LastMarks(keys: set<SkipList.Key>, stored: map<SkipList.Key, Entry>, es: seq<Entry>, n: SkipList.Link)
    requires Holds(keys, stored, es)
    requires if n.Null? then keys == {} else n.key in keys && forall k :: k in keys ==> k <= n.key
    ensures Marks(es, Last(|es|), n)
  {
    hide Code, Sorted;
    if es != [] {
      assert es[|es| - 1] in es;
    }
    if n.To? {
      var j := PlaceOf(keys, stored, es, n.key);
      CodesAscend(es, j, |es| - 1);
      CodesAscend(es, |es| - 1, j);
    }
  }

  class MemTable {
    const table: SkipList.List
    /** The encoded entry at each key of the list. */
    var stored: map<SkipList.Key, Entry>
    ghost var entries: seq<Entry>

    ghost predicate Valid()
      reads this, table
    {
      table.Valid() && Holds(table.Contents(), stored, entries)
    }

    constructor ()
      ensures Valid() && entries == [] && fresh(table)
    {
      table := new SkipList.List();
      stored, entries := map[], [];
    }

    /** The entry goes to its place among the sorted ones. */
    method Add(sequence: Sequence, kind: ValueType, key: UserKey, value: Bytes)
      requires Valid() && NewKey(entries, InternalKey(key, sequence, kind))
      modifies this, table
      ensures Valid() && entries == InsertEntry(old(entries), Entry(InternalKey(key, sequence, kind), value))
    {
      hide Holds, Code;
      var e := Entry(InternalKey(key, sequence, kind), value);
      AddHolds(table.Contents(), stored, entries, e);
      var height: nat :| 1 <= height <= SkipList.MAX_HEIGHT;
      table.Insert(Code(e.key), height);
      stored, entries := stored[Code(e.key) := e], InsertEntry(entries, e);
    }

    /** The operations of a batch, under the sequences after `last`. */
    method InsertInto(ops: seq<Op>, last: nat)
      requires Valid() && last + |ops| <= MAX_SEQUENCE && forall e :: e in entries ==> e.key.sequence <= last
      modifies this, table
      ensures Valid() && entries == InsertBatch(old(entries), ops, last)
    {
      hide Holds;
      for i := 0 to |ops|
        invariant Valid() && entries == InsertBatch(old(entries), ops[..i], last)
        invariant forall e :: e in entries ==> e.key.sequence <= last + i
      {
        assert ops[..i + 1][..i] == ops[..i];
        match ops[i] {
          case Put(k, x) => Add(last + i + 1, Value, k, x);
          case Delete(k) => Add(last + i + 1, Deletion, k, []);
        }
      }
      assert ops[..|ops|] == ops;
    }

    /** One seek and a look at the user key answer a lookup. */
    method Get(key: UserKey, snapshot: Sequence) returns (r: Answer)
      requires Valid()
      ensures r == SearchRun(entries, key, snapshot)
    {
      hide Sorted, Code, SeekIndex;
      var iter := new SkipList.ListIterator(table);
      iter.Seek(Code(LookupKey(key, snapshot)));
      SeekMarks(table.Contents(), stored, entries, LookupKey(key, snapshot), iter.node);
      r := NotFound;
      if iter.node.To? {
        var e := stored[iter.node.key];
        CodeOrder(entries[SeekIndex(entries, LookupKey(key, snapshot))].key, e.key);
        SameEntry(entries, SeekIndex(entries, LookupKey(key, snapshot)), e);
        if e.key.user == key {
          r := match e.key.kind case Value => Found(e.value) case Deletion => Deleted;
        }
      }
    }
  }

  /** The internal key tells the entry. */
  lemma SameEntry(es: seq<Entry>, i: nat, e: Entry)
    requires Sorted(es) && i < |es| && e in es && e.key == es[i].key
    ensures e == es[i]
  {
    var j :| 0 <= j < |es| && es[j] == e;
    SortedAt(es, i, j);
    SortedAt(es, j, i);
  }

  /** The memtable's iterator: a cursor over its entries. */
  class MemTableIterator {
    const mem: MemTable
    const iter: SkipList.ListIterator
    ghost var pos: Position

    ghost predicate Ok()
      reads this, iter, mem, mem.table
    {
      mem.Valid() && iter.list == mem.table && iter.Ok() && Marks(mem.entries, pos, iter.node)
    }

    constructor (mem: MemTable)
      requires mem.Valid()
      ensures Ok() && pos == None && this.mem == mem && fresh(iter)
    {
      this.mem, pos := mem, None;
      iter := new SkipList.ListIterator(mem.table);
    }

    predicate Valid()
      reads this, iter
    {
      iter.node.To?
    }

    function Current(): (e: Entry)
      requires Ok() && Valid()
      reads this, iter, mem, mem.table
      ensures e == mem.entries[pos.value]
    {
      var r := mem.stored[iter.node.key];
      CodeOrder(mem.entries[pos.value].key, r.key);
      SameEntry(mem.entries, pos.value, r);
      r
    }

    method SeekToFirst()
      requires Ok()
      modifies this, iter
      ensures Ok() && pos == First(|mem.entries|)
    {
      hide Holds, Marks;
      iter.SeekToFirst();
      FirstMarks(mem.table.Contents(), mem.stored, mem.entries, iter.node);
      pos := First(|mem.entries|);
    }

    method SeekToLast()
      requires Ok()
      modifies this, iter
      ensures Ok() && pos == Last(|mem.entries|)
    {
      hide Holds, Marks;
      iter.SeekToLast();
      LastMarks(mem.table.Contents(), mem.stored, mem.entries, iter.node);
      pos := Last(|mem.entries|);
    }

    method Seek(target: InternalKey)
      requires Ok()
      modifies this, iter
      ensures Ok() && pos == At(SeekIndex(mem.entries, target), |mem.entries|)
    {
      hide Holds, Marks, SeekIndex, Code;
      iter.Seek(Code(target));
      SeekMarks(mem.table.Contents(), mem.stored, mem.entries, target, iter.node);
      pos := At(SeekIndex(mem.entries, target), |mem.entries|);
    }

    method Next()
      requires Ok() && Valid()
      modifies this, iter
      ensures Ok() && pos == After(old(pos.value), |mem.entries|)
    {
      hide Holds, Code;
      iter.Next();
      NextMarks(mem.table.Contents(), mem.stored, mem.entries, pos.value, iter.node);
      pos := After(pos.value, |mem.entries|);
    }

    method Prev()
      requires Ok() && Valid()
      modifies this, iter
      ensures Ok() && pos == Before(old(pos.value))
    {
      hide Holds, Code;
      iter.Prev();
      PrevMarks(mem.table.Contents(), mem.stored, mem.entries, pos.value, iter.node);
      pos := Before(pos.value);
    }
  }
}
