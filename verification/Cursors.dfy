/** Cursors over a sorted run of entries: what the store's internal iterators are to be. */
module Cursors {
  import opened InternalKeys
  import opened VersionSearch

  /** Where a cursor stands; `None` once it has left the run at either end. */
  type Position = Option<nat>

  ghost predicate Within(p: Position, n: nat) {
    p.Some? ==> p.value < n
  }

  function First(n: nat): Position {
    if n == 0 then None else Some(0)
  }

  function Last(n: nat): Position {
    if n == 0 then None else Some(n - 1)
  }

  function After(p: nat, n: nat): Position {
    if p + 1 < n then Some(p + 1) else None
  }

  function Before(p: nat): Position {
    if p > 0 then Some(p - 1) else None
  }

  function At(i: nat, n: nat): Position {
    if i < n then Some(i) else None
  }

  /** An internal iterator standing on a sorted run. */
  class EntryIterator {
    const entries: seq<Entry>
    var pos: Position

    predicate Valid()
      reads this
    {
      pos.Some?
    }

    ghost predicate Ok()
      reads this
    {
      Sorted(entries) && Within(pos, |entries|)
    }

    constructor (entries: seq<Entry>)
      requires Sorted(entries)
      ensures Ok() && pos == None && this.entries == entries
    {
      this.entries, pos := entries, None;
    }

    function Key(): InternalKey
      requires Ok() && Valid()
      reads this
    {
      entries[pos.value].key
    }

    function Value(): Bytes
      requires Ok() && Valid()
      reads this
    {
      entries[pos.value].value
    }

    method SeekToFirst()
      requires Ok()
      modifies this
      ensures Ok() && pos == First(|entries|)
    {
      pos := First(|entries|);
    }

    method SeekToLast()
      requires Ok()
      modifies this
      ensures Ok() && pos == Last(|entries|)
    {
      pos := Last(|entries|);
    }

    method Seek(target: InternalKey)
      requires Ok()
      modifies this
      ensures Ok() && pos == At(SeekIndex(entries, target), |entries|)
    {
      pos := At(SeekIndex(entries, target), |entries|);
    }

    method Next()
      requires Ok() && Valid()
      modifies this
      ensures Ok() && pos == After(old(pos.value), |entries|)
    {
      pos := After(pos.value, |entries|);
    }

    method Prev()
      requires Ok() && Valid()
      modifies this
      ensures Ok() && pos == Before(old(pos.value))
    {
      pos := Before(pos.value);
    }
  }
}
