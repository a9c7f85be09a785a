/** User keys as byte strings: for any finite set of them, their ranks are integers in the same order, so what is
    proved of integer keys holds of them. */
module ByteKeys {
  import opened InternalKeys
  import opened Separators
  import Table

  /** How many of the keys come before `k`. */
  function Rank(keys: set<Bytes>, k: Bytes): nat {
    |set x | x in keys && BytesBefore(x, k)|
  }

  lemma SmallerSet(a: set<Bytes>, b: set<Bytes>, k: Bytes)
    requires a <= b && k in b && k !in a
    ensures |a| < |b|
  {
    assert a <= b - {k};
    SubsetSize(a, b - {k});
  }

  lemma {:induction false} SubsetSize(a: set<Bytes>, b: set<Bytes>)
    requires a <= b
    ensures |a| <= |b|
  {
    if a != {} {
      var k :| k in a;
      SubsetSize(a - {k}, b - {k});
    }
  }

  lemma RankRises(keys: set<Bytes>, a: Bytes, b: Bytes)
    requires a in keys && BytesBefore(a, b)
    ensures Rank(keys, a) < Rank(keys, b)
  {
    var s, t := set x | x in keys && BytesBefore(x, a), set x | x in keys && BytesBefore(x, b);
    forall x | x in s ensures x in t {
      BeforeTransitive(x, a, b);
    }
    BeforeTotal(a, a);
    SmallerSet(s, t, a);
  }

  /** The ranks of keys of the set are in the order of the keys, and tell them apart. */
  lemma RanksKeepOrder(keys: set<Bytes>, a: Bytes, b: Bytes)
    requires a in keys && b in keys
    ensures BytesBefore(a, b) <==> Rank(keys, a) < Rank(keys, b)
    ensures a == b <==> Rank(keys, a) == Rank(keys, b)
  {
    hide Rank;
    BeforeTotal(a, b);
    if BytesBefore(a, b) {
      RankRises(keys, a, b);
    } else if BytesBefore(b, a) {
      RankRises(keys, b, a);
    }
  }

  function Ranked(keys: set<Bytes>, k: ByteKey): InternalKey {
    InternalKey(Rank(keys, k.user), k.sequence, k.kind)
  }

  /** The order of internal keys: ascending user key, then descending sequence and type. */
  predicate KeyBefore(a: ByteKey, b: ByteKey) {
    BytesBefore(a.user, b.user)
    || (a.user == b.user && a.sequence * 256 + (if a.kind.Value? then 1 else 0) > b.sequence * 256 + (if b.kind.Value? then 1 else 0))
  }

  lemma RankedOrder(keys: set<Bytes>, a: ByteKey, b: ByteKey)
    requires a.user in keys && b.user in keys
    ensures KeyBefore(a, b) <==> Less(Ranked(keys, a), Ranked(keys, b))
  {
    hide Rank;
    RanksKeepOrder(keys, a.user, b.user);
    BeforeTotal(a.user, a.user);
  }

  /** What the comparator makes of byte keys is an index key the table builder may choose. */
  lemma SeparatorFits(keys: set<Bytes>, last: ByteKey, sep: ByteKey, next: Option<ByteKey>)
    requires IsSeparator(last, sep, next) && last.user in keys && sep.user in keys && (next.Some? ==> next.value.user in keys)
    ensures Table.Separates(Ranked(keys, last), Ranked(keys, sep), if next.Some? then Some(Ranked(keys, next.value)) else None)
  {
    hide Rank;
    RanksKeepOrder(keys, last.user, sep.user);
    if next.Some? {
      RanksKeepOrder(keys, sep.user, next.value.user);
    }
  }
}
