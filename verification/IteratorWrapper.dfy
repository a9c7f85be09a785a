/** The children of the merging iterator: iterators of memtables, tables and levels behind one interface that keeps
    whether they are valid and their key. */
module IteratorWrapper {
  import opened InternalKeys
  import opened VersionSearch
  import opened Cursors
  import opened TwoLevelIterator
  import opened Mem = MemTable

  datatype Source =
    | OfMemory(memory: MemTableIterator)
    | OfLevel(level: TwoLevelIterator)
    | OfTable(table: EntryIterator)

  /** What an iterator may be told to do. */
  datatype Motion = ToFirst | ToLast | To(target: InternalKey) | Forth | Back

  function Moved(p: Position, m: Motion, es: seq<Entry>): Position
    requires m.Forth? || m.Back? ==> p.Some?
  {
    match m
    case ToFirst => First(|es|)
    case ToLast => Last(|es|)
    case To(target) => At(SeekIndex(es, target), |es|)
    case Forth => After(p.value, |es|)
    case Back => Before(p.value)
  }

  class IteratorWrapper {
    const iter: Source
    var valid: bool
    var key: InternalKey
    ghost const entries: seq<Entry>
    /** What the iterator reads and never changes: a memtable. */
    ghost const shared: set<object>
    ghost var pos: Position
    ghost var repr: set<object>

    ghost predicate Ok()
      reads this, repr, shared
    {
      && this in repr && repr !! shared && SourceOk() && Shows()
    }

    lemma OkFacts()
      requires Ok()
      ensures this in repr && repr !! shared && Shows()
    {
    }

    /** The iterator behind is a cursor on the entries and stands at `pos`. */
    ghost predicate SourceOk()
      reads this, repr, shared
    {
      match iter
      case OfMemory(m) =>
        && m in repr && m.iter in repr && m.mem in shared && m.mem.table in shared
        && m.Ok() && m.mem.entries == entries && m.pos == pos
      case OfLevel(l) =>
        && l in repr && l.index in repr && (l.data != null ==> l.data in repr)
        && l.Ok() && l.Entries() == entries && l.Place() == pos
      case OfTable(t) =>
        t in repr && t.Ok() && t.entries == entries && t.pos == pos
    }

    /** What is kept of the iterator. */
    ghost predicate Shows()
      reads this
    {
      Sorted(entries) && Within(pos, |entries|) && valid == pos.Some? && (valid ==> key == entries[pos.value].key)
    }

    constructor FromMemory(m: MemTableIterator)
      requires m.Ok() && m.pos == None
      ensures Ok() && pos == None && entries == m.mem.entries && iter == OfMemory(m)
      ensures repr == {this, m, m.iter} && shared == {m.mem, m.mem.table}
    {
      iter, entries, shared, pos := OfMemory(m), m.mem.entries, {m.mem, m.mem.table}, None;
      valid, key := false, LookupKey(0, 0);
      repr := {this, m, m.iter};
    }

    constructor FromLevel(l: TwoLevelIterator)
      requires l.Ok() && l.data == null && Sorted(l.Entries())
      ensures Ok() && pos == None && entries == l.Entries() && iter == OfLevel(l)
      ensures repr == {this, l, l.index} && shared == {}
    {
      iter, entries, shared, pos := OfLevel(l), l.Entries(), {}, None;
      valid, key := false, LookupKey(0, 0);
      repr := {this, l, l.index};
    }

    constructor FromTable(t: EntryIterator)
      requires t.Ok() && t.pos == None
      ensures Ok() && pos == None && entries == t.entries && iter == OfTable(t)
      ensures repr == {this, t} && shared == {}
    {
      iter, entries, shared, pos := OfTable(t), t.entries, {}, None;
      valid, key := false, LookupKey(0, 0);
      repr := {this, t};
    }

    function Value(): (x: Bytes)
      requires Ok() && valid
      reads this, repr, shared
      ensures x == entries[pos.value].value
    {
      match iter
      case OfMemory(m) => m.Current().value
      case OfLevel(l) => l.Value()
      case OfTable(t) => t.Value()
    }

    /** Fetches what is kept of the iterator. */
    method Update()
      requires this in repr && repr !! shared && SourceOk() && Sorted(entries) && Within(pos, |entries|)
      modifies `valid, `key
      ensures Ok()
    {
      match iter {
        case OfMemory(m) =>
          valid := m.Valid();
          if valid {
            key := m.Current().key;
          }
        case OfLevel(l) =>
          valid := l.Valid();
          if valid {
            key := l.Key();
          }
        case OfTable(t) =>
          valid := t.Valid();
          if valid {
            key := t.Key();
          }
      }
    }

    method SeekToFirst()
      requires Ok()
      modifies repr
      ensures Ok() && fresh(repr - old(repr)) && pos == First(|entries|)
    {
      hide Sorted, Indexed, Concat, Holds, Marks, SeekIndex;
      match iter {
        case OfMemory(m) => m.SeekToFirst();
        case OfLevel(l) =>
          l.SeekToFirst();
          repr := repr + (if l.data == null then {} else {l.data});
        case OfTable(t) => t.SeekToFirst();
      }
      pos := First(|entries|);
      Update();
    }

    method SeekToLast()
      requires Ok()
      modifies repr
      ensures Ok() && fresh(repr - old(repr)) && pos == Last(|entries|)
    {
      hide Sorted, Indexed, Concat, Holds, Marks, SeekIndex;
      match iter {
        case OfMemory(m) => m.SeekToLast();
        case OfLevel(l) =>
          l.SeekToLast();
          repr := repr + (if l.data == null then {} else {l.data});
        case OfTable(t) => t.SeekToLast();
      }
      pos := Last(|entries|);
      Update();
    }

    method Seek(target: InternalKey)
      requires Ok()
      modifies repr
      ensures Ok() && fresh(repr - old(repr)) && pos == At(SeekIndex(entries, target), |entries|)
    {
      hide Sorted, Indexed, Concat, Holds, Marks, SeekIndex;
      match iter {
        case OfMemory(m) => m.Seek(target);
        case OfLevel(l) =>
          l.Seek(target);
          repr := repr + (if l.data == null then {} else {l.data});
        case OfTable(t) => t.Seek(target);
      }
      pos := At(SeekIndex(entries, target), |entries|);
      Update();
    }

    method Next()
      requires Ok() && valid
      modifies repr
      ensures Ok() && fresh(repr - old(repr)) && pos == After(old(pos.value), |entries|)
    {
      hide Sorted, Indexed, Concat, Holds, SeekIndex;
      match iter {
        case OfMemory(m) => m.Next();
        case OfLevel(l) =>
          l.Next();
          repr := repr + (if l.data == null then {} else {l.data});
        case OfTable(t) => t.Next();
      }
      pos := After(pos.value, |entries|);
      Update();
    }

    method Prev()
      requires Ok() && valid
      modifies repr
      ensures Ok() && fresh(repr - old(repr)) && pos == Before(old(pos.value))
    {
      hide Sorted, Indexed, Concat, Holds, SeekIndex;
      match iter {
        case OfMemory(m) => m.Prev();
        case OfLevel(l) =>
          l.Prev();
          repr := repr + (if l.data == null then {} else {l.data});
        case OfTable(t) => t.Prev();
      }
      pos := Before(pos.value);
      Update();
    }

    /** Does what it is told. */
    method Do(m: Motion)
      requires Ok() && (m.Forth? || m.Back? ==> valid)
      modifies repr
      ensures Ok() && fresh(repr - old(repr)) && (m.Forth? || m.Back? ==> old(pos).Some?) && pos == Moved(old(pos), m, entries)
    {
      OkFacts();
      hide Ok, SeekIndex;
      match m {
        case ToFirst => SeekToFirst();
        case ToLast => SeekToLast();
        case To(target) => Seek(target);
        case Forth => Next();
        case Back => Prev();
      }
    }
  }
}
