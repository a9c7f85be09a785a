/** The bytewise order of user keys, and short keys between and behind keys. */
module Separators {
  import opened InternalKeys

  /** Lexicographic order of bytes. */
  predicate BytesBefore(a: Bytes, b: Bytes) {
    b != [] && (a == [] || a[0] < b[0] || (a[0] == b[0] && BytesBefore(a[1..], b[1..])))
  }

  lemma {:induction false} FirstDifference(a: Bytes, b: Bytes, i: nat)
    requires i < |a| && i < |b| && a[..i] == b[..i] && a[i] < b[i]
    ensures BytesBefore(a, b) && !BytesBefore(b, a)
  {
    if i > 0 {
      assert a[..i][0] == b[..i][0];
      assert a[1..][..i - 1] == a[..i][1..] == b[..i][1..] == b[1..][..i - 1];
      FirstDifference(a[1..], b[1..], i - 1);
    }
  }

  lemma {:induction false} BeforeTransitive(a: Bytes, b: Bytes, c: Bytes)
    requires BytesBefore(a, b) && BytesBefore(b, c)
    ensures BytesBefore(a, c)
  {
    if a != [] && a[0] == b[0] && b[0] == c[0] {
      BeforeTransitive(a[1..], b[1..], c[1..]);
    }
  }

  lemma {:induction false} BeforeTotal(a: Bytes, b: Bytes)
    ensures BytesBefore(a, b) || BytesBefore(b, a) || a == b
    ensures !(BytesBefore(a, b) && BytesBefore(b, a)) && !BytesBefore(a, a)
  {
    if a != [] {
      BeforeTotal(a[1..], a[1..]);
    }
    if a != [] && b != [] && a[0] == b[0] {
      BeforeTotal(a[1..], b[1..]);
      if a[1..] == b[1..] {
        assert a == [a[0]] + a[1..] && b == [b[0]] + b[1..];
      }
    }
  }

  /** The key with byte `i` one higher and nothing after it lies behind the key. */
  lemma Raised(key: Bytes, i: nat)
    requires i < |key| && key[i] < 0xff
    ensures BytesBefore(key, key[..i] + [key[i] + 1])
  {
    var r: Bytes := key[..i] + [key[i] + 1];
    assert r[..i] == key[..i];
    FirstDifference(key, r, i);
  }

  /** The key up to byte `i`, that byte one higher. */
  function RaisedAt(key: Bytes, i: nat): Bytes
    requires i < |key| && key[i] < 0xff
  {
    key[..i] + [key[i] + 1]
  }

  /** The keys differ first in byte `i`, with room between the bytes. */
  predicate Shortens(start: Bytes, limit: Bytes, i: nat) {
    i < |start| && i < |limit| && start[..i] == limit[..i] && start[i] < 0xff && start[i] + 1 < limit[i]
  }

  /** Byte `i` is the first that is not 0xff. */
  predicate FirstLow(key: Bytes, i: nat) {
    i < |key| && key[i] != 0xff && forall j :: 0 <= j < i ==> key[j] == 0xff
  }

  lemma ShortensOnce(start: Bytes, limit: Bytes, i: nat, j: nat)
    requires i <= |start| && i <= |limit| && start[..i] == limit[..i] && (i < |start| && i < |limit| ==> start[i] != limit[i])
    requires Shortens(start, limit, j)
    ensures i == j
  {
    if i < j {
      SameFront(start, limit, j, i);
    } else if j < i {
      SameFront(start, limit, i, j);
    }
  }

  lemma SameFront(a: Bytes, b: Bytes, n: nat, k: nat)
    requires n <= |a| && n <= |b| && a[..n] == b[..n] && k < n
    ensures a[k] == b[k]
  {
    assert a[..n][k] == b[..n][k];
  }

  /** The key cut behind the first byte that differs, that byte one higher, if this lies before the limit; else the
      key unchanged. */
  method FindShortestSeparator(start: Bytes, limit: Bytes) returns (r: Bytes)
    ensures r == start || (BytesBefore(start, r) && BytesBefore(r, limit) && |r| <= |start|)
    ensures forall i :: Shortens(start, limit, i) ==> r == RaisedAt(start, i)
    ensures (forall i :: !Shortens(start, limit, i)) ==> r == start
  {
    hide BytesBefore;
    var minLength := if |start| < |limit| then |start| else |limit|;
    var diff := 0;
    while diff < minLength && start[diff] == limit[diff]
      invariant diff <= minLength && start[..diff] == limit[..diff]
    {
      assert start[..diff + 1] == start[..diff] + [start[diff]];
      assert limit[..diff + 1] == limit[..diff] + [limit[diff]];
      diff := diff + 1;
    }
    forall i | Shortens(start, limit, i) ensures i == diff {
      ShortensOnce(start, limit, diff, i);
    }
    r := start;
    if diff < minLength {
      var byte := start[diff];
      if byte < 0xff && byte + 1 < limit[diff] {
        assert Shortens(start, limit, diff);
        r := start[..diff] + [byte + 1];
        Raised(start, diff);
        assert r[..diff] == limit[..diff];
        FirstDifference(r, limit, diff);
      }
    }
  }

  /** The key cut behind its first byte that is not 0xff, that byte one higher; unchanged if it has none. */
  method FindShortSuccessor(key: Bytes) returns (r: Bytes)
    ensures r == key || (BytesBefore(key, r) && |r| <= |key|)
    ensures forall i :: FirstLow(key, i) ==> r == RaisedAt(key, i)
    ensures (forall i :: !FirstLow(key, i)) ==> r == key
  {
    hide BytesBefore;
    for i := 0 to |key|
      invariant forall j :: 0 <= j < i ==> key[j] == 0xff
    {
      if key[i] != 0xff {
        Raised(key, i);
        assert FirstLow(key, i);
        return key[..i] + [key[i] + 1];
      }
    }
    return key;
  }

  // ---- Internal keys ----

  /** An internal key over a byte string. */
  datatype ByteKey = ByteKey(user: Bytes, sequence: Sequence, kind: ValueType)

  function MaxTag(user: Bytes): ByteKey {
    ByteKey(user, MAX_SEQUENCE, ValueType.Value)
  }

  /** `r` is the key itself or the earliest internal key of a shorter user key behind it, and before that of
      `limit` if there is one. */
  predicate IsSeparator(start: ByteKey, r: ByteKey, limit: Option<ByteKey>) {
    r == start
    || (BytesBefore(start.user, r.user) && (limit.Some? ==> BytesBefore(r.user, limit.value.user))
        && r == MaxTag(r.user) && |r.user| < |start.user|)
  }

  /** What becomes of the key when its user key can be shortened to `user`: nothing unless that is shorter. */
  function Shorter(key: ByteKey, user: Bytes): ByteKey {
    if |user| < |key.user| then MaxTag(user) else key
  }

  method FindInternalSeparator(start: ByteKey, limit: ByteKey) returns (r: ByteKey)
    ensures IsSeparator(start, r, Some(limit))
    ensures forall i :: Shortens(start.user, limit.user, i) ==> r == Shorter(start, RaisedAt(start.user, i))
    ensures (forall i :: !Shortens(start.user, limit.user, i)) ==> r == start
  {
    var tmp := FindShortestSeparator(start.user, limit.user);
    hide BytesBefore, Shortens;
    if |tmp| < |start.user| && BytesBefore(start.user, tmp) {
      return MaxTag(tmp);
    }
    return start;
  }

  method FindInternalSuccessor(key: ByteKey) returns (r: ByteKey)
    ensures IsSeparator(key, r, None)
    ensures forall i :: FirstLow(key.user, i) ==> r == Shorter(key, RaisedAt(key.user, i))
    ensures (forall i :: !FirstLow(key.user, i)) ==> r == key
  {
    var tmp := FindShortSuccessor(key.user);
    hide BytesBefore, FirstLow;
    if |tmp| < |key.user| && BytesBefore(key.user, tmp) {
      return MaxTag(tmp);
    }
    return key;
  }
}
