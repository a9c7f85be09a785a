/** The block builder. */
module BlockBuilder {
  import opened InternalKeys
  import opened Coding
  import opened BlockFormat

  class BlockBuilder {
    const interval: nat
    var buffer: Bytes
    var restarts: seq<nat>
    var counter: nat
    var lastKey: Bytes
    /** What was added. */
    ghost var es: seq<Pair>

    ghost predicate Valid()
      reads this
    {
      && interval >= 1
      && buffer == Data(es, interval, |es|) && restarts == RestartOffsets(es, interval, |es|)
      && counter == Counter(interval, |es|) && lastKey == if es == [] then [] else es[|es| - 1].key
    }

    constructor (interval: nat)
      requires interval >= 1
      ensures Valid() && es == [] && this.interval == interval
    {
      this.interval := interval;
      buffer, restarts, counter, lastKey, es := [], [0], 0, [], [];
    }

    method Add(key: Bytes, value: Bytes)
      requires Valid()
      modifies this
      ensures Valid() && es == old(es) + [Pair(key, value)]
    {
      hide Varint;
      hide Data;
      hide RestartOffsets;
      hide EntryBytes;
      hide SharedAt;
      hide Counter;
      hide Restarts;
      hide Common;
      ghost var n, e := |es|, Pair(key, value);
      AddedEntry(es, interval, e);
      SharedIs(es, interval, e);
      CounterNext(interval, n);
      var shared := 0;
      if counter < interval {
        shared := SharedWith(lastKey, key);
      } else {
        restarts := restarts + [|buffer|];
        counter := 0;
      }
      EntryIsAppended(buffer, shared, e);
      KeyRebuilt(lastKey, key, shared);
      var unshared := |key| - shared;
      buffer := buffer + Varint(shared) + Varint(unshared) + Varint(|value|);
      buffer := buffer + key[shared..] + value;
      lastKey := lastKey[..shared] + key[shared..];
      counter := counter + 1;
      es := es + [e];
    }

    /** How much of the previous key the next one repeats. */
    method SharedWith(lastKey: Bytes, key: Bytes) returns (shared: nat)
      ensures shared == Common(lastKey, key)
    {
      shared := 0;
      var minLength := if |lastKey| < |key| then |lastKey| else |key|;
      while shared < minLength && lastKey[shared] == key[shared]
        invariant shared <= minLength && lastKey[..shared] == key[..shared]
      {
        assert lastKey[..shared + 1] == lastKey[..shared] + [lastKey[shared]];
        assert key[..shared + 1] == key[..shared] + [key[shared]];
        shared := shared + 1;
      }
      CommonIs(lastKey, key, shared);
    }

    method Finish() returns (block: Bytes)
      requires Valid()
      ensures block == Block(es, interval)
    {
      hide Fixed;
      block := buffer;
      assert restarts[..|restarts|] == restarts;
      for i := 0 to |restarts|
        invariant block == buffer + FixedAll(restarts[..i])
      {
        assert restarts[..i + 1][..i] == restarts[..i];
        assert buffer + (FixedAll(restarts[..i]) + Fixed(restarts[i], 4)) == block + Fixed(restarts[i], 4);
        block := block + Fixed(restarts[i], 4);
      }
      block := block + Fixed(|restarts|, 4);
    }
  }

  lemma {:induction false} CommonIs(a: Bytes, b: Bytes, n: nat)
    requires n <= |a| && n <= |b| && a[..n] == b[..n] && (n < |a| && n < |b| ==> a[n] != b[n])
    ensures Common(a, b) == n
  {
    var c := Common(a, b);
    if c < n {
      PrefixIndex(a, b, n, c);
    } else if n < c {
      PrefixIndex(a, b, c, n);
    }
  }

  lemma PrefixIndex(a: Bytes, b: Bytes, n: nat, i: nat)
    requires i < n <= |a| && n <= |b| && a[..n] == b[..n]
    ensures a[i] == b[i]
  {
    assert a[..n][i] == b[..n][i];
  }

  lemma SharedIs(es: seq<Pair>, interval: nat, e: Pair)
    ensures var n, lastKey := |es|, if es == [] then [] else es[|es| - 1].key;
            SharedAt(es + [e], interval, n) == if n == 0 || !Restarts(interval, n) then Common(lastKey, e.key) else 0
    ensures Restarts(interval, |es|) <==> Counter(interval, |es|) >= interval
  {
  }

  lemma CounterNext(interval: nat, n: nat)
    ensures Counter(interval, n + 1) == if Counter(interval, n) < interval then Counter(interval, n) + 1 else 1
    ensures interval >= 1 && Counter(interval, n) >= interval ==> n > 0
  {
  }

  lemma KeyRebuilt(lastKey: Bytes, key: Bytes, shared: nat)
    requires shared <= |lastKey| && shared <= |key| && lastKey[..shared] == key[..shared]
    ensures lastKey[..shared] + key[shared..] == key
  {
  }

  /** Adding an entry leaves what was written for the earlier ones. */
  lemma AddedEntry(es: seq<Pair>, interval: nat, e: Pair)
    ensures var n, es' := |es|, es + [e];
            && Data(es', interval, n + 1) == Data(es, interval, n) + EntryBytes(SharedAt(es', interval, n), e)
            && RestartOffsets(es', interval, n + 1) ==
                 RestartOffsets(es, interval, n) + (if n > 0 && Restarts(interval, n) then [|Data(es, interval, n)|] else [])
  {
    hide EntryBytes;
    SameData(es, es + [e], interval, |es|);
  }

  lemma {:induction false} SameData(a: seq<Pair>, b: seq<Pair>, interval: nat, n: nat)
    requires n <= |a| && n <= |b| && forall i :: 0 <= i < n ==> a[i] == b[i]
    ensures Data(a, interval, n) == Data(b, interval, n) && RestartOffsets(a, interval, n) == RestartOffsets(b, interval, n)
  {
    hide EntryBytes;
    if n > 0 {
      SameData(a, b, interval, n - 1);
    }
  }

  lemma EntryIsAppended(buffer: Bytes, shared: nat, e: Pair)
    requires shared <= |e.key|
    ensures buffer + Varint(shared) + Varint(|e.key| - shared) + Varint(|e.value|) + e.key[shared..] + e.value
         == buffer + EntryBytes(shared, e)
  {
    hide Varint;
  }
}
