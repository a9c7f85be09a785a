/** The database iterator: it turns a cursor over internal entries into a two-way cursor over the user
    keys that are live at one sequence number. */
module DbIterator {
  import opened InternalKeys
  import opened VersionSearch
  import opened Cursors
  import MergingIterator

  // ---- What is to be seen ----

  ghost predicate Visible(es: seq<Entry>, at: Sequence, i: nat)
    requires i < |es|
  {
    es[i].key.sequence <= at
  }

  /** Entry `i` is the newest visible one of its user key, and no tombstone. */
  ghost predicate Yields(es: seq<Entry>, at: Sequence, i: nat)
    requires i < |es|
  {
    && Visible(es, at, i) && es[i].key.kind.Value?
    && forall j :: 0 <= j < i && es[j].key.user == es[i].key.user ==> !Visible(es, at, j)
  }

  /** The live user keys with their newest visible values, in key order, among the first `n` entries. */
  ghost function Live(es: seq<Entry>, at: Sequence, n: nat): (r: seq<Entry>)
    requires n <= |es|
  {
    if n == 0 then [] else Live(es, at, n - 1) + (if Yields(es, at, n - 1) then [es[n - 1]] else [])
  }

  ghost function LiveEntries(es: seq<Entry>, at: Sequence): seq<Entry> {
    Live(es, at, |es|)
  }

  /** Entries of an interval in which nothing is to be seen. */
  ghost predicate Silent(es: seq<Entry>, at: Sequence, a: nat, b: nat) {
    forall j :: a <= j < b && j < |es| ==> !Yields(es, at, j)
  }

  lemma {:induction false} LivePrefix(es: seq<Entry>, at: Sequence, a: nat, b: nat)
    requires a <= b <= |es|
    ensures |Live(es, at, a)| <= |Live(es, at, b)| && Live(es, at, b)[..|Live(es, at, a)|] == Live(es, at, a)
  {
    if a < b {
      LivePrefix(es, at, a, b - 1);
    }
  }

  lemma {:induction false} LiveSilent(es: seq<Entry>, at: Sequence, a: nat, b: nat)
    requires a <= b <= |es| && Silent(es, at, a, b)
    ensures Live(es, at, a) == Live(es, at, b)
  {
    if a < b {
      LiveSilent(es, at, a, b - 1);
    }
  }

  /** Where the entry `i` stands among the live ones. */
  lemma LiveAt(es: seq<Entry>, at: Sequence, i: nat)
    requires i < |es| && Yields(es, at, i)
    ensures |Live(es, at, i)| < |LiveEntries(es, at)| && LiveEntries(es, at)[|Live(es, at, i)|] == es[i]
  {
    LivePrefix(es, at, i + 1, |es|);
  }

  lemma {:induction false} LiveFrom(es: seq<Entry>, at: Sequence, n: nat, q: nat) returns (i: nat)
    requires n <= |es| && q < |Live(es, at, n)|
    ensures i < n && Yields(es, at, i) && es[i] == Live(es, at, n)[q] && q == |Live(es, at, i)|
  {
    if q < |Live(es, at, n - 1)| {
      i := LiveFrom(es, at, n - 1, q);
    } else {
      i := n - 1;
    }
  }

  // ---- The list is the map a reader at the sequence has ----

  /** User keys come in strictly ascending order. */
  lemma LiveAscending(es: seq<Entry>, at: Sequence, p: nat, q: nat)
    requires Sorted(es) && p < q < |LiveEntries(es, at)|
    ensures LiveEntries(es, at)[p].key.user < LiveEntries(es, at)[q].key.user
  {
    var i := LiveFrom(es, at, |es|, p);
    var j := LiveFrom(es, at, |es|, q);
    if j <= i {
      LivePrefix(es, at, j, i);
    }
  }

  lemma RunWellKeyed(es: seq<Entry>)
    requires Sorted(es)
    ensures WellKeyed(Of(es))
  {
    forall a, b | a in es && b in es && a.key.user == b.key.user && a.key.sequence == b.key.sequence ensures a == b {
      var i :| 0 <= i < |es| && es[i] == a;
      var j :| 0 <= j < |es| && es[j] == b;
      assert i < j ==> Precedes(a.key, b.key);
      assert j < i ==> Precedes(b.key, a.key);
    }
  }

  /** Entry `i` is yielded exactly if it is a value and a read of its key finds it. */
  lemma YieldsIsNewest(es: seq<Entry>, at: Sequence, i: nat)
    requires Sorted(es) && i < |es|
    ensures Yields(es, at, i) <==> IsNewest(Of(es), es[i].key.user, at, es[i]) && es[i].key.kind.Value?
  {
    var e := es[i];
    if Yields(es, at, i) {
      forall d | d in es && VisibleAt(d, e.key.user, at) ensures d.key.sequence <= e.key.sequence {
        var j :| 0 <= j < |es| && es[j] == d;
        assert Visible(es, at, j);
        assert i < j ==> Precedes(e.key, d.key);
      }
    }
    if IsNewest(Of(es), e.key.user, at, e) && e.key.kind.Value? {
      forall j | 0 <= j < i && es[j].key.user == e.key.user ensures !Visible(es, at, j) {
        assert es[j] in Of(es) && Precedes(es[j].key, e.key);
      }
    }
  }

  /** A key is listed with a value exactly if a read at the sequence finds that value. */
  lemma LiveIsTheMap(es: seq<Entry>, at: Sequence, k: UserKey, x: Bytes)
    requires Sorted(es)
    ensures ReadAt(Of(es), k, at) == Some(x) <==> exists e :: e in LiveEntries(es, at) && e.key.user == k && e.value == x
  {
    hide Yields;
    hide IsNewest;
    var s := Of(es);
    RunWellKeyed(es);
    if ReadAt(s, k, at) == Some(x) {
      var e := ReadAtSome(s, k, at);
      ReadAtNewest(s, k, at, e);
      NewestIsThere(s, k, at, e);
      var i :| 0 <= i < |es| && es[i] == e;
      YieldsIsNewest(es, at, i);
      LiveAt(es, at, i);
      assert e in LiveEntries(es, at);
    }
    if e :| e in LiveEntries(es, at) && e.key.user == k && e.value == x {
      var q :| 0 <= q < |LiveEntries(es, at)| && LiveEntries(es, at)[q] == e;
      var i := LiveFrom(es, at, |es|, q);
      YieldsIsNewest(es, at, i);
      ReadAtNewest(s, k, at, e);
    }
  }

  lemma NewestIsThere(s: iset<Entry>, k: UserKey, at: Sequence, e: Entry)
    requires IsNewest(s, k, at, e)
    ensures e in s && e.key.user == k
  {
  }

  // ---- The iterator ----

  /** The only visible older entries of user keys still ahead of `from` belong to keys to be skipped. */
  ghost predicate Skippable(es: seq<Entry>, at: Sequence, from: nat, skipping: bool, skip: UserKey) {
    && from <= |es|
    && (forall i, j :: 0 <= i < from <= j < |es| && es[i].key.user == es[j].key.user && Visible(es, at, i) && Visible(es, at, j)
          ==> skipping && es[j].key.user <= skip)
    && (skipping ==> forall j :: from <= j < |es| && Visible(es, at, j) ==> es[j].key.user >= skip)
  }

  /** Entry `j` is one to stop at. */
  ghost predicate Wanted(es: seq<Entry>, at: Sequence, j: nat, skipping: bool, skip: UserKey)
    requires j < |es|
  {
    Yields(es, at, j) && (skipping ==> es[j].key.user > skip)
  }

  datatype Direction = Forward | Reverse

  /** What the forward scan knows at `i`: nothing wanted was passed, and what is still to be skipped
      is not wanted. */
  ghost predicate Scanned(es: seq<Entry>, at: Sequence, from: nat, i: nat, skipping: bool, skip: UserKey, s: bool, k: UserKey) {
    && from <= i && Skippable(es, at, i, s, k)
    && (forall j :: from <= j < i ==> !Wanted(es, at, j, skipping, skip))
    && (s ==> NoneWanted(es, at, i, k, skipping, skip))
    && (skipping ==> s && k >= skip)
  }

  ghost predicate NoneWanted(es: seq<Entry>, at: Sequence, i: nat, k: UserKey, skipping: bool, skip: UserKey) {
    forall j :: i <= j < |es| && es[j].key.user <= k ==> !Wanted(es, at, j, skipping, skip)
  }

  /** An entry to be passed over: invisible, a tombstone, or of a key to be skipped. */
  ghost predicate Passed(es: seq<Entry>, at: Sequence, i: nat, s: bool, k: UserKey)
    requires i < |es|
  {
    !Visible(es, at, i) || es[i].key.kind.Deletion? || (s && es[i].key.user <= k)
  }

  lemma SkippableNext(es: seq<Entry>, at: Sequence, i: nat, s: bool, k: UserKey)
    requires Sorted(es) && i < |es| && Skippable(es, at, i, s, k) && Passed(es, at, i, s, k)
    ensures var deleted := Visible(es, at, i) && es[i].key.kind.Deletion?;
            Skippable(es, at, i + 1, s || deleted, if deleted then es[i].key.user else k)
  {
  }

  lemma ScanPasses(es: seq<Entry>, at: Sequence, from: nat, i: nat, skipping: bool, skip: UserKey, s: bool, k: UserKey)
    requires Sorted(es) && i < |es| && Scanned(es, at, from, i, skipping, skip, s, k) && Passed(es, at, i, s, k)
    ensures var deleted := Visible(es, at, i) && es[i].key.kind.Deletion?;
            Scanned(es, at, from, i + 1, skipping, skip, s || deleted, if deleted then es[i].key.user else k)
  {
    SkippableNext(es, at, i, s, k);
    var u := es[i].key.user;
    if Visible(es, at, i) && es[i].key.kind.Deletion? {
      assert skipping ==> u >= k >= skip;
      forall j | i + 1 <= j < |es| && es[j].key.user <= u ensures !Wanted(es, at, j, skipping, skip) {
        assert Precedes(es[i].key, es[j].key);
      }
    }
    hide Skippable;
  }

  lemma ScanStarts(es: seq<Entry>, at: Sequence, from: nat, skipping: bool, skip: UserKey)
    requires Skippable(es, at, from, skipping, skip)
    ensures Scanned(es, at, from, from, skipping, skip, skipping, skip)
  {
  }

  lemma ScannedSoFar(es: seq<Entry>, at: Sequence, from: nat, i: nat, skipping: bool, skip: UserKey, s: bool, k: UserKey)
    requires Scanned(es, at, from, i, skipping, skip, s, k)
    ensures forall j :: from <= j < i ==> !Wanted(es, at, j, skipping, skip)
    ensures !skipping ==> Silent(es, at, from, i)
  {
    forall j | from <= j < i && j < |es| && !skipping ensures !Yields(es, at, j) {
      assert !Wanted(es, at, j, skipping, skip);
    }
  }

  lemma ScanStops(es: seq<Entry>, at: Sequence, from: nat, i: nat, skipping: bool, skip: UserKey, s: bool, k: UserKey)
    requires Sorted(es) && i < |es| && Scanned(es, at, from, i, skipping, skip, s, k) && !Passed(es, at, i, s, k)
    ensures Wanted(es, at, i, skipping, skip)
  {
  }

  // The backward scan.

  /** What the backward scan from `p` knows with `r` next: the entry `v` it holds, if any, is yielded
      unless something visible of its key is still ahead, and nothing else passed is to be seen. */
  ghost predicate ScannedBack(es: seq<Entry>, at: Sequence, p: int, r: int, held: bool, v: nat) {
    && -1 <= r <= p < |es|
    && if held then
         && r < v <= p && Visible(es, at, v) && es[v].key.kind.Value?
         && Silent(es, at, v + 1, p + 1) && Unseen(es, at, r + 1, v)
       else Silent(es, at, r + 1, p + 1)
  }

  ghost predicate Unseen(es: seq<Entry>, at: Sequence, a: nat, b: nat) {
    forall j :: a <= j < b && j < |es| ==> !Visible(es, at, j)
  }

  lemma BackPassesVisible(es: seq<Entry>, at: Sequence, p: int, r: nat, held: bool, v: nat)
    requires Sorted(es) && ScannedBack(es, at, p, r, held, v) && Visible(es, at, r)
    requires held ==> es[r].key.user >= es[v].key.user
    ensures ScannedBack(es, at, p, r - 1, es[r].key.kind.Value?, r)
  {
    if held {
      assert es[r].key.user == es[v].key.user by {
        assert Precedes(es[r].key, es[v].key);
      }
      assert !Yields(es, at, v);
      forall j | r + 1 <= j < p + 1 ensures !Yields(es, at, j) {
      }
    }
    assert Silent(es, at, r + 1, p + 1);
  }

  lemma BackPassesUnseen(es: seq<Entry>, at: Sequence, p: int, r: nat, held: bool, v: nat)
    requires ScannedBack(es, at, p, r, held, v) && !Visible(es, at, r)
    ensures ScannedBack(es, at, p, r - 1, held, v)
  {
  }

  lemma BackStarts(es: seq<Entry>, at: Sequence, p: int)
    requires -1 <= p < |es|
    ensures ScannedBack(es, at, p, p, false, 0)
  {
  }

  lemma BackFindsNothing(es: seq<Entry>, at: Sequence, p: int, r: int, v: nat)
    requires ScannedBack(es, at, p, r, false, v) && r == -1
    ensures Silent(es, at, 0, p + 1)
  {
  }

  lemma BackStops(es: seq<Entry>, at: Sequence, p: int, r: int, v: nat)
    requires Sorted(es) && ScannedBack(es, at, p, r, true, v)
    requires r >= 0 ==> es[r].key.user < es[v].key.user
    ensures Yields(es, at, v) && Silent(es, at, v + 1, p + 1) && Unseen(es, at, r + 1, v) && r < v <= p
  {
    forall j | 0 <= j < v && es[j].key.user == es[v].key.user ensures !Visible(es, at, j) {
      if r >= 0 {
        SortedAt(es, j, r);
      }
    }
  }

  // From entries to places in the list.

  /** Index of the first entry of a list with user key at or after `target`. */
  function FirstFrom(list: seq<Entry>, target: UserKey): (i: nat)
    ensures i <= |list|
    ensures forall j :: 0 <= j < i ==> list[j].key.user < target
    ensures i < |list| ==> list[i].key.user >= target
  {
    if |list| == 0 || list[0].key.user >= target then 0 else 1 + FirstFrom(list[1..], target)
  }

  ghost function PlaceOf(es: seq<Entry>, at: Sequence, valid: bool, v: nat): Position
    requires valid ==> v < |es|
  {
    if valid then Some(|Live(es, at, v)|) else None
  }

  lemma SkippableHere(es: seq<Entry>, at: Sequence, a: nat)
    requires Sorted(es) && a < |es|
    ensures Skippable(es, at, a, true, es[a].key.user)
  {
    assert forall j :: a < j < |es| ==> Precedes(es[a].key, es[j].key);
    assert forall i :: 0 <= i < a ==> Precedes(es[i].key, es[a].key);
  }

  lemma SkippableAhead(es: seq<Entry>, at: Sequence, pos: Position, v: nat)
    requires Sorted(es) && v < |es| && (pos.Some? ==> pos.value < v && es[pos.value].key.user < es[v].key.user)
    requires Unseen(es, at, if pos.Some? then pos.value + 1 else 0, v)
    ensures Skippable(es, at, if pos.Some? then pos.value + 1 else 0, true, es[v].key.user)
  {
    assert forall j :: v < j < |es| ==> Precedes(es[v].key, es[j].key);
    assert pos.Some? ==> forall i :: 0 <= i < pos.value ==> Precedes(es[i].key, es[pos.value].key);
  }

  lemma SkippableSeek(es: seq<Entry>, at: Sequence, target: UserKey)
    requires Sorted(es)
    ensures Skippable(es, at, SeekIndex(es, LookupKey(target, at)), false, target)
  {
    var i0 := SeekIndex(es, LookupKey(target, at));
    assert i0 < |es| ==> forall j :: i0 < j < |es| ==> Precedes(es[i0].key, es[j].key);
  }

  lemma NextLive(es: seq<Entry>, at: Sequence, from: nat, a: nat, valid: bool, b: nat)
    requires Sorted(es) && a < |es| && Yields(es, at, a) && from <= a + 1
    requires valid ==> from <= b < |es| && Wanted(es, at, b, true, es[a].key.user)
    requires forall j :: from <= j < (if valid then b else |es|) ==> !Wanted(es, at, j, true, es[a].key.user)
    ensures PlaceOf(es, at, valid, b) == After(|Live(es, at, a)|, |LiveEntries(es, at)|)
  {
    var end := if valid then b else |es|;
    if valid {
      SortedAt(es, b, a);
    }
    assert Silent(es, at, a + 1, end) by {
      forall j | a + 1 <= j < end ensures !Yields(es, at, j) {
        assert !Wanted(es, at, j, true, es[a].key.user);
        SortedAt(es, a, j);
        assert Visible(es, at, a);
      }
    }
    LiveSilent(es, at, a + 1, end);
    if valid {
      LiveAt(es, at, b);
    }
  }

  /** Nothing is to be seen before a yielded entry of the same user key. */
  lemma GroupSilent(es: seq<Entry>, at: Sequence, r: nat, a: nat)
    requires Sorted(es) && r <= a < |es| && es[r].key.user == es[a].key.user && Yields(es, at, a)
    ensures Silent(es, at, r, a)
  {
    forall j | r <= j < a ensures !Yields(es, at, j) {
      SortedAt(es, r, j);
      SortedAt(es, j, a);
    }
  }

  lemma UnseenSilent(es: seq<Entry>, at: Sequence, a: nat, b: nat)
    requires Unseen(es, at, a, b)
    ensures Silent(es, at, a, b)
  {
  }

  lemma PrevLive(es: seq<Entry>, at: Sequence, p: int, a: nat, valid: bool, b: nat)
    requires Sorted(es) && a < |es| && Yields(es, at, a) && -1 <= p < a
    requires Silent(es, at, p + 1, a)
    requires if valid then b <= p && Yields(es, at, b) && Silent(es, at, b + 1, p + 1) else Silent(es, at, 0, p + 1)
    ensures PlaceOf(es, at, valid, b) == Before(|Live(es, at, a)|)
  {
    hide Yields;
    hide Silent;
    hide Sorted;
    LiveSilent(es, at, p + 1, a);
    LiveSilent(es, at, if valid then b + 1 else 0, p + 1);
  }

  lemma FirstLive(es: seq<Entry>, at: Sequence, valid: bool, b: nat)
    requires valid ==> b < |es| && Yields(es, at, b)
    requires Silent(es, at, 0, if valid then b else |es|)
    ensures PlaceOf(es, at, valid, b) == First(|LiveEntries(es, at)|)
  {
    LiveSilent(es, at, 0, if valid then b else |es|);
    if valid {
      LiveAt(es, at, b);
    }
  }

  lemma LastLive(es: seq<Entry>, at: Sequence, valid: bool, b: nat)
    requires valid ==> b < |es| && Yields(es, at, b)
    requires Silent(es, at, if valid then b + 1 else 0, |es|)
    ensures PlaceOf(es, at, valid, b) == Last(|LiveEntries(es, at)|)
  {
    LiveSilent(es, at, if valid then b + 1 else 0, |es|);
  }

  lemma LiveVisible(es: seq<Entry>, at: Sequence, n: nat, j: nat, i: nat)
    requires n <= |es| && j < n && i < |Live(es, at, n)| && es[j] == Live(es, at, n)[i] && Yields(es, at, j)
    ensures es[j].key.sequence <= at
  {
  }

  lemma SeekLive(es: seq<Entry>, at: Sequence, target: UserKey, from: nat, valid: bool, b: nat)
    requires Sorted(es) && from == SeekIndex(es, LookupKey(target, at))
    requires valid ==> from <= b < |es| && Yields(es, at, b)
    requires Silent(es, at, from, if valid then b else |es|)
    ensures PlaceOf(es, at, valid, b) == At(FirstFrom(LiveEntries(es, at), target), |LiveEntries(es, at)|)
  {
    hide Yields;
    hide Silent;
    var list, q := LiveEntries(es, at), FirstFrom(LiveEntries(es, at), target);
    var end := if valid then b else |es|;
    LiveSilent(es, at, from, end);
    LivePrefix(es, at, from, |es|);
    forall i | 0 <= i < |Live(es, at, from)| ensures list[i].key.user < target {
      var j := LiveFrom(es, at, from, i);
      assert list[..|Live(es, at, from)|][i] == list[i];
      assert Less(es[j].key, LookupKey(target, at));
      LiveVisible(es, at, from, j, i);
    }
    if valid {
      LiveAt(es, at, b);
      assert from < b ==> Precedes(es[from].key, es[b].key);
    }
  }

  class DBIter {
    const iter: MergingIterator.MergingIterator
    const at: Sequence
    var direction: Direction
    var valid: bool
    var savedKey: Option<UserKey>
    var savedValue: Bytes
    /** Index of the entry being yielded. */
    ghost var current: nat

    /** The merging iterator does not touch this one. */
    ghost predicate Apart()
      reads iter
    {
      this !in iter.footprint && this !in iter.shared
    }

    ghost predicate Ok()
      reads this, iter, iter.footprint, iter.shared
    {
      && Apart() && iter.Ok()
      && (valid ==>
            && current < |iter.all| && Yields(iter.all, at, current)
            && if direction.Forward? then iter.Place() == Some(current) else StandsBefore(current))
    }

    /** In reverse the internal iterator stands just before the visible entries of the saved key. */
    ghost predicate StandsBefore(v: nat)
      requires iter.Ok()
      reads this, iter, iter.footprint, iter.shared
    {
      var es := iter.all;
      && v < |es| && savedKey == Some(es[v].key.user) && savedValue == es[v].value
      && match iter.Place()
         case None => Unseen(es, at, 0, v)
         case Some(p) => p < v && es[p].key.user < es[v].key.user && Unseen(es, at, p + 1, v)
    }

    /** The list being walked. */
    ghost function Entries(): seq<Entry> {
      LiveEntries(iter.all, at)
    }

    /** Where in the list the iterator stands. */
    ghost function Place(): Position
      requires Ok()
      reads this, iter, iter.footprint, iter.shared
    {
      PlaceOf(iter.all, at, valid, current)
    }

    constructor (iter: MergingIterator.MergingIterator, at: Sequence)
      requires iter.Ok()
      ensures Ok() && !valid && this.iter == iter && this.at == at
    {
      this.iter, this.at := iter, at;
      direction, valid, savedKey, savedValue, current := Forward, false, None, [], 0;
    }

    predicate IsValid()
      reads this
    {
      valid
    }

    function Key(): (k: UserKey)
      requires Ok() && IsValid()
      reads this, iter, iter.footprint, iter.shared
      ensures Place().value < |Entries()| && k == Entries()[Place().value].key.user
    {
      LiveAt(iter.all, at, current);
      if direction.Forward? then iter.Key().user else savedKey.value
    }

    function Value(): (x: Bytes)
      requires Ok() && IsValid()
      reads this, iter, iter.footprint, iter.shared
      ensures Place().value < |Entries()| && x == Entries()[Place().value].value
    {
      LiveAt(iter.all, at, current);
      if direction.Forward? then iter.Value() else savedValue
    }

    /** Walks on to the first entry to be seen, beyond the user key `skip` when skipping. */
    method FindNextUserEntry(skipping: bool, skip: UserKey)
      requires Apart() && iter.Ok() && iter.Valid() && direction.Forward? && Skippable(iter.all, at, iter.Place().value, skipping, skip)
      modifies this, iter, iter.footprint
      ensures fresh(iter.footprint - old(iter.footprint))
      ensures Ok() && direction.Forward?
      ensures valid ==> old(iter.Place().value) <= current && Wanted(iter.all, at, current, skipping, skip)
      ensures forall j :: old(iter.Place().value) <= j < (if valid then current else |iter.all|) ==> !Wanted(iter.all, at, j, skipping, skip)
      ensures !skipping ==> Silent(iter.all, at, old(iter.Place().value), if valid then current else |iter.all|)
    {
      hide Scanned, MergingIterator.MergingIterator.Ok;
      iter.OkFacts();
      ghost var es := iter.all;
      var s, k := skipping, skip;
      ghost var from := iter.Place().value;
      ghost var i := from;
      ScanStarts(es, at, from, skipping, skip);
      while true
        invariant Apart() && fresh(iter.footprint - old(iter.footprint))
        invariant iter.Ok() && iter.Place() == Some(i) && direction.Forward?
        invariant Scanned(es, at, from, i, skipping, skip, s, k)
        decreases |es| - i
      {
        iter.OkFacts();
        var ikey := iter.Key();
        ghost var s0, k0 := s, k;
        if ikey.sequence <= at {
          if ikey.kind.Deletion? {
            k, s := ikey.user, true;
          } else if s && ikey.user <= k {
          } else {
            ScanStops(es, at, from, i, skipping, skip, s, k);
            ScannedSoFar(es, at, from, i, skipping, skip, s, k);
            valid, savedKey, current := true, None, i;
            return;
          }
        }
        ScanPasses(es, at, from, i, skipping, skip, s0, k0);
        iter.Next();
        i := i + 1;
        if !iter.Valid() {
          break;
        }
      }
      ScannedSoFar(es, at, from, |es|, skipping, skip, s, k);
      savedKey, valid := None, false;
    }

    /** Walks back to the newest visible value of the nearest live key at or before the position. */
    method FindPrevUserEntry()
      requires Apart() && iter.Ok() && direction.Reverse?
      modifies this, iter, iter.footprint
      ensures fresh(iter.footprint - old(iter.footprint))
      ensures Ok()
      ensures var p := if old(iter.Place()).Some? then old(iter.Place()).value else -1;
              if valid then direction.Reverse? && current <= p && Silent(iter.all, at, current + 1, p + 1)
              else direction.Forward? && Silent(iter.all, at, 0, p + 1)
    {
      hide ScannedBack, Yields, Silent, Unseen, Sorted, MergingIterator.MergingIterator.Ok, Ok, StandsBefore;
      iter.OkFacts();
      ghost var es := iter.all;
      ghost var p := if iter.Place().Some? then iter.Place().value else -1;
      ghost var r := p;
      ghost var v: nat := 0;
      BackStarts(es, at, p);
      var kind := Deletion;
      if iter.Valid() {
        while true
          invariant Apart() && fresh(iter.footprint - old(iter.footprint))
          invariant iter.Ok() && iter.Place() == Some(r) && direction.Reverse?
          invariant ScannedBack(es, at, p, r, kind.Value?, v)
          invariant kind.Value? ==> v < |es| && savedKey == Some(es[v].key.user) && savedValue == es[v].value
          decreases r
        {
          iter.OkFacts();
          var ikey := iter.Key();
          if ikey.sequence <= at {
            if kind.Value? && ikey.user < savedKey.value {
              break;
            }
            BackPassesVisible(es, at, p, r, kind.Value?, v);
            v := r;
            kind := ikey.kind;
            if kind.Deletion? {
              savedKey, savedValue := None, [];
            } else {
              savedKey, savedValue := Some(ikey.user), iter.Value();
            }
          } else {
            BackPassesUnseen(es, at, p, r, kind.Value?, v);
          }
          iter.Prev();
          r := r - 1;
          if !iter.Valid() {
            break;
          }
        }
      }
      if kind.Deletion? {
        BackFindsNothing(es, at, p, r, v);
        valid, savedKey, savedValue, direction := false, None, [], Forward;
      } else {
        BackStops(es, at, p, r, v);
        valid, current := true, v;
      }
      BackOk(r);
    }

    /** Where the backward scan ends. */
    lemma BackOk(r: int)
      requires Apart() && iter.Ok() && -1 <= r < |iter.all| && iter.Place() == (if r >= 0 then Some(r) else None)
      requires valid ==>
                 && direction.Reverse? && r < current < |iter.all| && Yields(iter.all, at, current) && Unseen(iter.all, at, r + 1, current)
                 && savedKey == Some(iter.all[current].key.user) && savedValue == iter.all[current].value
                 && (r >= 0 ==> iter.all[r].key.user < iter.all[current].key.user)
      ensures Ok()
    {
      hide MergingIterator.MergingIterator.Ok, Yields, Unseen;
    }

    method Next()
      requires Ok() && IsValid()
      modifies this, iter, iter.footprint
      ensures fresh(iter.footprint - old(iter.footprint))
      ensures Ok() && Place() == After(old(Place().value), |Entries()|)
    {
      hide Yields, Skippable, MergingIterator.MergingIterator.Ok;
      iter.OkFacts();
      ghost var es, a := iter.all, current;
      if direction.Reverse? {
        SkippableAhead(es, at, iter.Place(), a);
        direction := Forward;
        if !iter.Valid() {
          iter.SeekToFirst();
        } else {
          iter.Next();
        }
      } else {
        SkippableHere(es, at, a);
        savedKey := Some(iter.Key().user);
      }
      ghost var from := iter.Place().value;
      FindNextUserEntry(true, savedKey.value);
      NextLive(es, at, from, a, valid, current);
    }

    method Prev()
      requires Ok() && IsValid()
      modifies this, iter, iter.footprint
      ensures fresh(iter.footprint - old(iter.footprint))
      ensures Ok() && Place() == Before(old(Place().value))
    {
      hide Yields, MergingIterator.MergingIterator.Ok;
      iter.OkFacts();
      ghost var es, a := iter.all, current;
      if direction.Forward? {
        savedKey := Some(iter.Key().user);
        ghost var r := a;
        while true
          invariant Apart() && fresh(iter.footprint - old(iter.footprint))
          invariant iter.Ok() && iter.Place() == Some(r) && r <= a && es[r].key.user == es[a].key.user
          invariant savedKey == Some(es[a].key.user)
          decreases r
        {
          GroupSilent(es, at, r, a);
          iter.Prev();
          if !iter.Valid() {
            valid, savedKey, savedValue := false, None, [];
            PrevLive(es, at, -1, a, false, 0);
            return;
          }
          iter.OkFacts();
          r := r - 1;
          SortedAt(es, r, a);
          if iter.Key().user < savedKey.value {
            break;
          }
        }
        direction := Reverse;
      } else {
        UnseenSilent(es, at, if iter.Place().Some? then iter.Place().value + 1 else 0, a);
      }
      ghost var p := if iter.Place().Some? then iter.Place().value else -1;
      FindPrevUserEntry();
      PrevLive(es, at, p, a, valid, current);
    }

    /** To the first live key at or after `target`. */
    method Seek(target: UserKey)
      requires Ok()
      modifies this, iter, iter.footprint
      ensures fresh(iter.footprint - old(iter.footprint))
      ensures Ok() && Place() == At(FirstFrom(Entries(), target), |Entries()|)
    {
      hide Yields, Skippable, MergingIterator.MergingIterator.Ok;
      iter.OkFacts();
      ghost var es := iter.all;
      direction, savedValue, savedKey := Forward, [], None;
      iter.Seek(LookupKey(target, at));
      ghost var from := SeekIndex(es, LookupKey(target, at));
      if iter.Valid() {
        SkippableSeek(es, at, target);
        FindNextUserEntry(false, target);
      } else {
        valid := false;
      }
      SeekLive(es, at, target, from, valid, current);
    }

    method SeekToFirst()
      requires Ok()
      modifies this, iter, iter.footprint
      ensures fresh(iter.footprint - old(iter.footprint))
      ensures Ok() && Place() == First(|Entries()|)
    {
      hide MergingIterator.MergingIterator.Ok;
      iter.OkFacts();
      ghost var es := iter.all;
      direction, savedValue := Forward, [];
      iter.SeekToFirst();
      if iter.Valid() {
        FindNextUserEntry(false, 0);
      } else {
        valid := false;
      }
      FirstLive(es, at, valid, current);
    }

    method SeekToLast()
      requires Ok()
      modifies this, iter, iter.footprint
      ensures fresh(iter.footprint - old(iter.footprint))
      ensures Ok() && Place() == Last(|Entries()|)
    {
      hide MergingIterator.MergingIterator.Ok;
      iter.OkFacts();
      ghost var es := iter.all;
      direction, savedValue := Reverse, [];
      iter.SeekToLast();
      FindPrevUserEntry();
      LastLive(es, at, valid, current);
    }
  }
}
