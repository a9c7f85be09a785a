/** Internal keys, entries, and what a read at a sequence number means.

    A user key is an `int`: the store only ever compares user keys with the comparator it was
    opened with, and the proofs use nothing but the order. */
module InternalKeys {

  datatype Option<+T> = None | Some(value: T)

  const MAX_SEQUENCE: int := 0xFF_FFFF_FFFF_FFFF

  type UserKey = int
  type Sequence = s: int | 0 <= s <= 0xFF_FFFF_FFFF_FFFF
  type Byte = b: int | 0 <= b < 256
  type Bytes = seq<Byte>

  datatype ValueType = Deletion | Value

  datatype InternalKey = InternalKey(user: UserKey, sequence: Sequence, kind: ValueType)

  datatype Entry = Entry(key: InternalKey, value: Bytes)

  /** The 64-bit tag stored behind the user key: the sequence above, the type in the low 8 bits. */
  function Tag(k: InternalKey): nat {
    k.sequence * 256 + (if k.kind.Value? then 1 else 0)
  }

  /** Ascending user key, then descending tag. */
  predicate Less(a: InternalKey, b: InternalKey) {
    a.user < b.user || (a.user == b.user && Tag(a) > Tag(b))
  }

  predicate AtMost(a: InternalKey, b: InternalKey) {
    !Less(b, a)
  }

  /** The key a lookup seeks to: it sorts before every entry of `user` at or below `snapshot` and
      after every entry of `user` above it. */
  function LookupKey(user: UserKey, snapshot: Sequence): InternalKey {
    InternalKey(user, snapshot, Value)
  }

  /** The order of stored entries. No two entries of a user key carry the same sequence, so between
      them the comparator's order never comes down to the type. */
  predicate Precedes(a: InternalKey, b: InternalKey) {
    a.user < b.user || (a.user == b.user && a.sequence > b.sequence)
  }

  ghost predicate Sorted(es: seq<Entry>) {
    forall i, j :: 0 <= i < j < |es| ==> Precedes(es[i].key, es[j].key)
  }

  lemma SortedAt(es: seq<Entry>, i: int, j: int)
    requires Sorted(es) && 0 <= i < |es| && 0 <= j < |es|
    ensures i < j ==> Precedes(es[i].key, es[j].key)
    ensures i <= j ==> es[i].key.user <= es[j].key.user
  {
  }

  /** Equal user key and sequence identify an entry. */
  ghost predicate WellKeyed(s: iset<Entry>) {
    forall a, b :: a in s && b in s && a.key.user == b.key.user && a.key.sequence == b.key.sequence ==> a == b
  }

  ghost predicate VisibleAt(e: Entry, k: UserKey, snapshot: int) {
    e.key.user == k && e.key.sequence <= snapshot
  }

  /** `e` is what a read of `k` at `snapshot` has to find in `s`. */
  ghost predicate IsNewest(s: iset<Entry>, k: UserKey, snapshot: int, e: Entry) {
    && e in s
    && VisibleAt(e, k, snapshot)
    && forall d :: d in s && VisibleAt(d, k, snapshot) ==> d.key.sequence <= e.key.sequence
  }

  ghost predicate NothingVisible(s: iset<Entry>, k: UserKey, snapshot: int) {
    forall d :: d in s ==> !VisibleAt(d, k, snapshot)
  }

  /** The answer of a read: the newest visible entry's value; a tombstone reads as absent. */
  ghost function ReadAt(s: iset<Entry>, k: UserKey, snapshot: int): Option<Bytes> {
    if exists e :: IsNewest(s, k, snapshot, e) && e.key.kind.Value? then
      var e :| IsNewest(s, k, snapshot, e) && e.key.kind.Value?;
      Some(e.value)
    else
      None
  }

  lemma ReadAtNewest(s: iset<Entry>, k: UserKey, snapshot: int, e: Entry)
    requires WellKeyed(s) && IsNewest(s, k, snapshot, e)
    ensures ReadAt(s, k, snapshot) == if e.key.kind.Value? then Some(e.value) else None
  {
    forall d | IsNewest(s, k, snapshot, d) ensures d == e {
    }
  }

  /** Among finitely bounded sequences a visible entry implies a newest visible one. */
  lemma NewestExists(s: iset<Entry>, k: UserKey, snapshot: int, d: Entry) returns (e: Entry)
    requires d in s && VisibleAt(d, k, snapshot)
    ensures IsNewest(s, k, snapshot, e)
    decreases snapshot - d.key.sequence
  {
    if c :| c in s && VisibleAt(c, k, snapshot) && c.key.sequence > d.key.sequence {
      e := NewestExists(s, k, snapshot, c);
    } else {
      e := d;
    }
  }

  lemma ReadAtNothing(s: iset<Entry>, k: UserKey, snapshot: int)
    requires NothingVisible(s, k, snapshot)
    ensures ReadAt(s, k, snapshot) == None
  {
  }

  lemma ReadAtSome(s: iset<Entry>, k: UserKey, snapshot: int) returns (d: Entry)
    requires ReadAt(s, k, snapshot).Some?
    ensures IsNewest(s, k, snapshot, d) && d.key.kind.Value?
  {
    d :| IsNewest(s, k, snapshot, d) && d.key.kind.Value?;
  }
}
