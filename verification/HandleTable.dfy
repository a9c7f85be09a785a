/** The hash table of the cache: buckets of chained handles, replaced in place and rehashed on growth. */
module HandleTable {
  import opened InternalKeys
  import opened Hashing
  import opened Sequences

  type Key = Bytes
  type Ptr = nat

  /** `ps` are the handles linked from `start` on. */
  ghost predicate Chain(next: map<Ptr, Option<Ptr>>, start: Option<Ptr>, ps: seq<Ptr>)
    decreases |ps|
  {
    if ps == [] then start.None?
    else start == Some(ps[0]) && ps[0] in next && Chain(next, next[ps[0]], ps[1..])
  }

  ghost predicate NoDuplicates(ps: seq<Ptr>) {
    forall i, j :: 0 <= i < j < |ps| ==> ps[i] != ps[j]
  }

  lemma {:induction false} ChainFrame(next: map<Ptr, Option<Ptr>>, start: Option<Ptr>, ps: seq<Ptr>, p: Ptr, to: Option<Ptr>)
    requires Chain(next, start, ps) && p !in ps
    ensures Chain(next[p := to], start, ps)
    decreases |ps|
  {
    if ps != [] {
      ChainFrame(next, next[ps[0]], ps[1..], p, to);
    }
  }

  /** The chain from its `i`th handle on. */
  lemma {:induction false} ChainFrom(next: map<Ptr, Option<Ptr>>, start: Option<Ptr>, ps: seq<Ptr>, i: nat)
    requires Chain(next, start, ps) && i < |ps|
    ensures ps[i] in next && Chain(next, next[ps[i]], ps[i + 1..])
    ensures next[ps[i]] == if i + 1 < |ps| then Some(ps[i + 1]) else None
    decreases i
  {
    if i > 0 {
      ChainFrom(next, next[ps[0]], ps[1..], i - 1);
      assert ps[1..][i..] == ps[i + 1..];
    }
  }

  /** Linking something else behind the `i`th handle. */
  lemma {:induction false} ChainCut(next: map<Ptr, Option<Ptr>>, start: Option<Ptr>, ps: seq<Ptr>, i: nat, to: Option<Ptr>, tail: seq<Ptr>)
    requires Chain(next, start, ps) && i < |ps| && NoDuplicates(ps)
    requires ps[i] !in tail && Chain(next, to, tail)
    ensures Chain(next[ps[i] := to], start, ps[..i + 1] + tail)
    decreases i
  {
    var qs := ps[..i + 1] + tail;
    if i == 0 {
      ChainFrame(next, to, tail, ps[0], to);
      assert qs[1..] == tail;
    } else {
      ChainCut(next, next[ps[0]], ps[1..], i - 1, to, tail);
      assert qs[1..] == ps[1..][..i] + tail;
      assert ps[0] != ps[i];
    }
  }

  /** The memory of a table: the buckets, and the chain links and keys of the handles. */
  datatype Table = Table(hashOf: Key -> nat, list: seq<Option<Ptr>>, nextHash: map<Ptr, Option<Ptr>>, keys: map<Ptr, Key>)

  /** The bucket of a key: the remainder of its hash, which for a power of two are its low bits. */
  function Bucket(t: Table, k: Key, n: nat): (b: nat)
    requires n > 0
    ensures b < n
  {
    Reduce(t.hashOf(k), n)
  }

  /** The handle of the contents for its key. */
  ghost predicate Owned(keys: map<Ptr, Key>, contents: map<Key, Ptr>, p: Ptr) {
    p in keys && keys[p] in contents && contents[keys[p]] == p
  }

  /** Chain `b` of `n`: linked, without duplicates, of handles of the contents that belong there. */
  ghost predicate GoodChain(t: Table, contents: map<Key, Ptr>, start: Option<Ptr>, c: seq<Ptr>, b: nat, n: nat) {
    && Chain(t.nextHash, start, c) && NoDuplicates(c)
    && forall p :: p in c ==> Belongs(t, contents, p, b, n)
  }

  ghost predicate Belongs(t: Table, contents: map<Key, Ptr>, p: Ptr, b: nat, n: nat) {
    n > 0 && Owned(t.keys, contents, p) && Bucket(t, t.keys[p], n) == b
  }

  ghost predicate GoodChains(t: Table, contents: map<Key, Ptr>, list: seq<Option<Ptr>>, cs: seq<seq<Ptr>>) {
    |list| == |cs| > 0 && forall b :: 0 <= b < |cs| ==> GoodChain(t, contents, list[b], cs[b], b, |cs|)
  }

  /** Every handle of the contents is in the chain of its key's bucket. */
  ghost predicate AllFound(t: Table, contents: map<Key, Ptr>, cs: seq<seq<Ptr>>) {
    |cs| > 0 && forall k :: k in contents ==> contents[k] in t.keys && t.keys[contents[k]] == k && contents[k] in cs[Bucket(t, k, |cs|)]
  }

  ghost predicate Ok(t: Table, cs: seq<seq<Ptr>>, contents: map<Key, Ptr>) {
    GoodChains(t, contents, t.list, cs) && AllFound(t, contents, cs)
  }

  /** Where the search for a key ends in its chain. */
  ghost predicate EndsAt(t: Table, c: seq<Ptr>, contents: map<Key, Ptr>, key: Key, i: nat) {
    && i <= |c| && (i < |c| ==> key in contents && c[i] == contents[key]) && (i == |c| ==> key !in contents)
  }

  /** One step of the search along a chain. */
  lemma SearchStep(t: Table, cs: seq<seq<Ptr>>, contents: map<Key, Ptr>, key: Key, i: nat)
    requires Ok(t, cs, contents)
    requires var c := cs[Bucket(t, key, |cs|)]; i <= |c| && forall j :: 0 <= j < i ==> c[j] in t.keys && t.keys[c[j]] != key
    ensures var c := cs[Bucket(t, key, |cs|)];
            && (i == |c| ==> key !in contents)
            && (i < |c| ==> c[i] in t.keys && c[i] in t.nextHash && (t.keys[c[i]] == key ==> key in contents && contents[key] == c[i]))
            && (i < |c| ==> t.nextHash[c[i]] == if i + 1 < |c| then Some(c[i + 1]) else None)
  {
    hide Chain;
    hide Reduce;
    var b := Bucket(t, key, |cs|);
    var c := cs[b];
    assert GoodChain(t, contents, t.list[b], c, b, |cs|);
    if i < |c| {
      ChainFrom(t.nextHash, t.list[b], c, i);
      assert Belongs(t, contents, c[i], b, |cs|);
    }
  }

  /** A handle of one chain is in no other. */
  lemma OnlyInBucket(t: Table, cs: seq<seq<Ptr>>, contents: map<Key, Ptr>, b: nat, p: Ptr, j: nat)
    requires GoodChains(t, contents, t.list, cs) && b < |cs| && p in cs[b] && j < |cs| && j != b
    ensures p !in cs[j]
  {
    hide Chain;
    assert Belongs(t, contents, p, b, |cs|);
  }

  // ---- Splicing ----

  /** The chain of a bucket with the part from `i` to `n` replaced by `h`. */
  lemma SplicedChain(next: map<Ptr, Option<Ptr>>, start: Option<Ptr>, c: seq<Ptr>, i: nat, n: nat, h: Ptr)
    requires Chain(next, start, c) && NoDuplicates(c) && i <= n <= |c| && h !in c
    ensures var to := if n < |c| then Some(c[n]) else None;
            var nh := next[h := to];
            var d := c[..i] + [h] + c[n..];
            && NoDuplicates(d)
            && Chain(if i > 0 then nh[c[i - 1] := Some(h)] else nh, if i > 0 then start else Some(h), d)
  {
    var to := if n < |c| then Some(c[n]) else None;
    var nh := next[h := to];
    var tail := [h] + c[n..];
    SplicedTail(next, start, c, n, h);
    hide Chain;
    NoDuplicatesSpliced(c, i, n, h);
    if i > 0 {
      ChainFrame(next, start, c, h, to);
      ChainCut(nh, start, c, i - 1, Some(h), tail);
      Associate(c[..i], [h], c[n..]);
    } else {
      assert c[..0] + [h] + c[n..] == tail;
    }
  }

  lemma SplicedTail(next: map<Ptr, Option<Ptr>>, start: Option<Ptr>, c: seq<Ptr>, n: nat, h: Ptr)
    requires Chain(next, start, c) && n <= |c| && h !in c
    ensures var to := if n < |c| then Some(c[n]) else None; Chain(next[h := to], Some(h), [h] + c[n..])
  {
    var to := if n < |c| then Some(c[n]) else None;
    ChainFrame(next, start, c, h, to);
    ChainTail(next[h := to], start, c, n);
    assert ([h] + c[n..])[1..] == c[n..];
  }

  lemma NoDuplicatesSpliced(c: seq<Ptr>, i: nat, n: nat, h: Ptr)
    requires NoDuplicates(c) && i <= n <= |c| && h !in c
    ensures NoDuplicates(c[..i] + [h] + c[n..]) && (i > 0 ==> c[i - 1] !in [h] + c[n..])
  {
  }

  lemma ChainStarts(next: map<Ptr, Option<Ptr>>, start: Option<Ptr>, ps: seq<Ptr>)
    requires Chain(next, start, ps)
    ensures start == if ps == [] then None else Some(ps[0])
  {
  }

  /** The tail of a chain, from its `n`th handle. */
  lemma ChainTail(next: map<Ptr, Option<Ptr>>, start: Option<Ptr>, c: seq<Ptr>, n: nat)
    requires Chain(next, start, c) && n <= |c|
    ensures Chain(next, if n < |c| then Some(c[n]) else None, c[n..])
  {
    if n == 0 {
      ChainStarts(next, start, c);
      assert c[0..] == c;
    } else {
      ChainFrom(next, start, c, n - 1);
    }
  }

  lemma NoDuplicatesWithout(c: seq<Ptr>, i: nat)
    requires NoDuplicates(c) && i < |c|
    ensures NoDuplicates(c[..i] + c[i + 1..]) && (i > 0 ==> c[i - 1] !in c[i + 1..])
  {
  }

  /** The chain of a bucket without its `i`th handle. */
  lemma ShortenedChain(next: map<Ptr, Option<Ptr>>, start: Option<Ptr>, c: seq<Ptr>, i: nat)
    requires Chain(next, start, c) && NoDuplicates(c) && i < |c|
    ensures var to := if i + 1 < |c| then Some(c[i + 1]) else None;
            var d := c[..i] + c[i + 1..];
            && NoDuplicates(d)
            && Chain(if i > 0 then next[c[i - 1] := to] else next, if i > 0 then start else to, d)
  {
    ChainTail(next, start, c, i + 1);
    NoDuplicatesWithout(c, i);
    hide Chain, NoDuplicates;
    if i > 0 {
      ChainCut(next, start, c, i - 1, if i + 1 < |c| then Some(c[i + 1]) else None, c[i + 1..]);
      assert c[..i - 1 + 1] + c[i + 1..] == c[..i] + c[i + 1..];
    } else {
      assert c[..0] + c[1..] == c[1..];
    }
  }

  /** Other buckets do not see the handles that changed. */
  lemma OtherChain(t: Table, contents: map<Key, Ptr>, start: Option<Ptr>, c: seq<Ptr>, j: nat, n: nat,
                   t': Table, contents': map<Key, Ptr>, key: Key)
    requires GoodChain(t, contents, start, c, j, n) && n > 0 && Bucket(t, key, n) != j && t'.hashOf == t.hashOf
    requires Chain(t'.nextHash, start, c)
    requires forall p :: p in t.keys ==> p in t'.keys && t'.keys[p] == t.keys[p]
    requires forall k :: k != key ==> (k in contents <==> k in contents') && (k in contents ==> contents'[k] == contents[k])
    ensures GoodChain(t', contents', start, c, j, n)
  {
    hide Chain;
    hide Reduce;
    forall p | p in c ensures Belongs(t', contents', p, j, n) {
      assert Belongs(t, contents, p, j, n);
    }
  }

  /** The table after an insertion at the place the search ended. */
  function Inserted(t: Table, c: seq<Ptr>, i: nat, h: Ptr, key: Key): Table
    requires |t.list| > 0 && i <= |c|
  {
    var n := if i < |c| then i + 1 else i;
    var nh := t.nextHash[h := if n < |c| then Some(c[n]) else None];
    Table(t.hashOf,
          if i > 0 then t.list else t.list[Bucket(t, key, |t.list|) := Some(h)],
          if i > 0 then nh[c[i - 1] := Some(h)] else nh,
          t.keys[h := key])
  }

  lemma InsertOk(t: Table, cs: seq<seq<Ptr>>, contents: map<Key, Ptr>, key: Key, h: Ptr, i: nat)
    requires Ok(t, cs, contents) && h !in t.keys
    requires EndsAt(t, cs[Bucket(t, key, |cs|)], contents, key, i)
    ensures var b := Bucket(t, key, |cs|);
            var c := cs[b];
            Ok(Inserted(t, c, i, h, key), cs[b := c[..i] + [h] + c[if i < |c| then i + 1 else i..]], contents[key := h])
  {
    hide Chain;
    hide Reduce;
    var b := Bucket(t, key, |cs|);
    var c := cs[b];
    var n := if i < |c| then i + 1 else i;
    var d := c[..i] + [h] + c[n..];
    var t', cs', contents' := Inserted(t, c, i, h, key), cs[b := d], contents[key := h];
    assert GoodChain(t, contents, t.list[b], c, b, |cs|);
    SplicedChain(t.nextHash, t.list[b], c, i, n, h);
    forall p | p in d ensures Belongs(t', contents', p, b, |cs|) {
      if p != h {
        SplicedHolds(c, i, n, h, p);
        assert Belongs(t, contents, p, b, |cs|);
      }
    }
    forall j | 0 <= j < |cs| && j != b ensures GoodChain(t', contents', t'.list[j], cs'[j], j, |cs|) {
      assert GoodChain(t, contents, t.list[j], cs[j], j, |cs|);
      ChainFrame(t.nextHash, t.list[j], cs[j], h, t'.nextHash[h]);
      if i > 0 {
        OnlyInBucket(t, cs, contents, b, c[i - 1], j);
        ChainFrame(t.nextHash[h := t'.nextHash[h]], t.list[j], cs[j], c[i - 1], Some(h));
      }
      OtherChain(t, contents, t.list[j], cs[j], j, |cs|, t', contents', key);
    }
    InsertFound(t, cs, contents, key, h, i);
  }

  lemma SplicedHolds(c: seq<Ptr>, i: nat, n: nat, h: Ptr, p: Ptr)
    requires NoDuplicates(c) && i <= n <= |c|
    ensures p in c[..i] + [h] + c[n..] && p != h ==> p in c && forall k :: i <= k < n ==> p != c[k]
    ensures p in c && (forall k :: i <= k < n ==> p != c[k]) ==> p in c[..i] + [h] + c[n..]
  {
  }

  lemma InsertFound(t: Table, cs: seq<seq<Ptr>>, contents: map<Key, Ptr>, key: Key, h: Ptr, i: nat)
    requires Ok(t, cs, contents) && h !in t.keys
    requires EndsAt(t, cs[Bucket(t, key, |cs|)], contents, key, i)
    ensures var b := Bucket(t, key, |cs|);
            var c := cs[b];
            AllFound(Inserted(t, c, i, h, key), contents[key := h], cs[b := c[..i] + [h] + c[if i < |c| then i + 1 else i..]])
  {
    hide Chain;
    hide Reduce;
    var b := Bucket(t, key, |cs|);
    var c := cs[b];
    var n := if i < |c| then i + 1 else i;
    var d := c[..i] + [h] + c[n..];
    assert GoodChain(t, contents, t.list[b], c, b, |cs|);
    forall k | k in contents && k != key ensures contents[k] in cs[b := d][Bucket(t, k, |cs|)] {
      if Bucket(t, k, |cs|) == b {
        SplicedHolds(c, i, n, h, contents[k]);
      }
    }
    assert d[i] == h;
  }

  /** The table after the handle where the search ended is unlinked. */
  function Removed(t: Table, c: seq<Ptr>, i: nat, key: Key): Table
    requires |t.list| > 0 && i < |c|
  {
    var to := if i + 1 < |c| then Some(c[i + 1]) else None;
    Table(t.hashOf,
          if i > 0 then t.list else t.list[Bucket(t, key, |t.list|) := to],
          if i > 0 then t.nextHash[c[i - 1] := to] else t.nextHash,
          t.keys)
  }

  lemma RemoveOk(t: Table, cs: seq<seq<Ptr>>, contents: map<Key, Ptr>, key: Key, i: nat)
    requires Ok(t, cs, contents) && key in contents
    requires EndsAt(t, cs[Bucket(t, key, |cs|)], contents, key, i)
    ensures var b := Bucket(t, key, |cs|);
            var c := cs[b];
            Ok(Removed(t, c, i, key), cs[b := c[..i] + c[i + 1..]], contents - {key})
  {
    hide Chain;
    hide Reduce;
    var b := Bucket(t, key, |cs|);
    var c := cs[b];
    var d := c[..i] + c[i + 1..];
    var t', cs', contents' := Removed(t, c, i, key), cs[b := d], contents - {key};
    assert GoodChain(t, contents, t.list[b], c, b, |cs|);
    ShortenedChain(t.nextHash, t.list[b], c, i);
    forall p | p in d ensures Belongs(t', contents', p, b, |cs|) {
      assert p in c && p != c[i];
      assert Belongs(t, contents, p, b, |cs|);
    }
    forall j | 0 <= j < |cs| && j != b ensures GoodChain(t', contents', t'.list[j], cs'[j], j, |cs|) {
      assert GoodChain(t, contents, t.list[j], cs[j], j, |cs|);
      if i > 0 {
        OnlyInBucket(t, cs, contents, b, c[i - 1], j);
        ChainFrame(t.nextHash, t.list[j], cs[j], c[i - 1], if i + 1 < |c| then Some(c[i + 1]) else None);
      }
      OtherChain(t, contents, t.list[j], cs[j], j, |cs|, t', contents', key);
    }
    forall k | k in contents' ensures contents'[k] in cs'[Bucket(t, k, |cs|)] {
      if Bucket(t, k, |cs|) == b {
        assert contents[k] in c && contents[k] != c[i];
      }
    }
  }

  // ---- Growing ----

  /** In the middle of rehashing: new chains hold what was moved, `rest` what is left of old bucket `i`,
      and the old buckets behind it are untouched. */
  ghost predicate Rehashing(t: Table, contents: map<Key, Ptr>, newList: seq<Option<Ptr>>, ncs: seq<seq<Ptr>>,
                            cs: seq<seq<Ptr>>, i: nat, h: Option<Ptr>, rest: seq<Ptr>)
  {
    && |t.list| == |cs| > 0 && i < |cs|
    && GoodChains(t, contents, newList, ncs)
    && GoodChain(t, contents, h, rest, i, |cs|)
    && (forall j :: i < j < |cs| ==> GoodChain(t, contents, t.list[j], cs[j], j, |cs|))
    && (forall k :: k in contents ==> Reachable(t, contents, ncs, cs, i, rest, k))
    && (forall b, p :: 0 <= b < |ncs| && p in ncs[b] ==> p !in rest && Bucket(t, t.keys[p], |cs|) <= i)
  }

  /** The handle of a key is where it belongs, in a new chain or in what is left of the old ones. */
  ghost predicate Reachable(t: Table, contents: map<Key, Ptr>, ncs: seq<seq<Ptr>>, cs: seq<seq<Ptr>>, i: nat, rest: seq<Ptr>, k: Key)
    requires k in contents && |cs| > 0 && |ncs| > 0
  {
    var p, old_ := contents[k], Bucket(t, k, |cs|);
    && p in t.keys && t.keys[p] == k
    && (p in ncs[Bucket(t, k, |ncs|)] || (old_ == i && p in rest) || (i < old_ && p in cs[old_]))
  }

  /** A chain that a handle is not on does not notice that the handle is linked elsewhere. */
  lemma OtherGoodChain(t: Table, contents: map<Key, Ptr>, start: Option<Ptr>, c: seq<Ptr>, b: nat, n: nat, p: Ptr, to: Option<Ptr>)
    requires GoodChain(t, contents, start, c, b, n) && p !in c
    ensures GoodChain(t.(nextHash := t.nextHash[p := to]), contents, start, c, b, n)
  {
    hide Chain, Reduce;
    ChainFrame(t.nextHash, start, c, p, to);
    forall q | q in c ensures Belongs(t.(nextHash := t.nextHash[p := to]), contents, q, b, n) {
      assert Belongs(t, contents, q, b, n);
    }
  }

  /** A handle put in front of the chain it belongs to. */
  lemma FrontChain(t: Table, contents: map<Key, Ptr>, start: Option<Ptr>, c: seq<Ptr>, b: nat, n: nat, p: Ptr)
    requires GoodChain(t, contents, start, c, b, n) && p !in c && Belongs(t, contents, p, b, n)
    ensures GoodChain(t.(nextHash := t.nextHash[p := start]), contents, Some(p), [p] + c, b, n)
  {
    hide Reduce;
    OtherGoodChain(t, contents, start, c, b, n, p, start);
    var d := [p] + c;
    assert d[1..] == c;
  }

  /** A chain without its first handle. */
  lemma RestChain(t: Table, contents: map<Key, Ptr>, start: Option<Ptr>, c: seq<Ptr>, b: nat, n: nat)
    requires GoodChain(t, contents, start, c, b, n) && c != []
    ensures Belongs(t, contents, c[0], b, n) && c[0] in t.nextHash && start == Some(c[0])
    ensures GoodChain(t, contents, t.nextHash[c[0]], c[1..], b, n) && c[0] !in c[1..]
  {
    hide Reduce;
  }

  /** Moving the first handle of the rest to the front of its new bucket. */
  lemma MoveOk(t: Table, contents: map<Key, Ptr>, newList: seq<Option<Ptr>>, ncs: seq<seq<Ptr>>,
               cs: seq<seq<Ptr>>, i: nat, h: Option<Ptr>, rest: seq<Ptr>)
    requires Rehashing(t, contents, newList, ncs, cs, i, h, rest) && rest != []
    ensures rest[0] in t.keys && rest[0] in t.nextHash && h == Some(rest[0])
    ensures var p := rest[0];
            var b := Bucket(t, t.keys[p], |newList|);
            Rehashing(t.(nextHash := t.nextHash[p := newList[b]]), contents, newList[b := Some(p)], ncs[b := [p] + ncs[b]],
                      cs, i, t.nextHash[p], rest[1..])
  {
    hide Reduce, GoodChain, Chain, NoDuplicates;
    var p := rest[0];
    RestChain(t, contents, h, rest, i, |cs|);
    var b := Bucket(t, t.keys[p], |newList|);
    var t' := t.(nextHash := t.nextHash[p := newList[b]]);
    var newList', ncs', rest' := newList[b := Some(p)], ncs[b := [p] + ncs[b]], rest[1..];
    OtherGoodChain(t, contents, t.nextHash[p], rest', i, |cs|, p, newList[b]);
    forall j | 0 <= j < |ncs| ensures GoodChain(t', contents, newList'[j], ncs'[j], j, |ncs|) {
      if j == b {
        FrontChain(t, contents, newList[b], ncs[b], b, |ncs|, p);
      } else {
        OtherGoodChain(t, contents, newList[j], ncs[j], j, |ncs|, p, newList[b]);
      }
    }
    forall j | i < j < |cs| ensures GoodChain(t', contents, t.list[j], cs[j], j, |cs|) {
      NotInBucket(t, contents, t.list[j], cs[j], j, |cs|, p, i);
      OtherGoodChain(t, contents, t.list[j], cs[j], j, |cs|, p, newList[b]);
    }
    forall k | k in contents ensures Reachable(t', contents, ncs', cs, i, rest', k) {
      assert Reachable(t, contents, ncs, cs, i, rest, k);
    }
    StillApart(t, contents, newList, ncs, cs, i, h, rest, b, ncs');
    hide Reachable, Bucket;
  }

  /** No handle in a new chain is in what is left of the old one. */
  lemma StillApart(t: Table, contents: map<Key, Ptr>, newList: seq<Option<Ptr>>, ncs: seq<seq<Ptr>>,
                   cs: seq<seq<Ptr>>, i: nat, h: Option<Ptr>, rest: seq<Ptr>, b: nat, after: seq<seq<Ptr>>)
    requires Rehashing(t, contents, newList, ncs, cs, i, h, rest) && rest != [] && b < |ncs| && after == ncs[b := [rest[0]] + ncs[b]]
    ensures forall j, q :: 0 <= j < |after| && q in after[j] ==>
              q in t.keys && q !in rest[1..] && Bucket(t, t.keys[q], |cs|) <= i
  {
    hide Reduce, Bucket, Chain, NoDuplicates, Reachable;
    var p := rest[0];
    RestChain(t, contents, h, rest, i, |cs|);
    forall j, q | 0 <= j < |after| && q in after[j]
      ensures q in t.keys && q !in rest[1..] && Bucket(t, t.keys[q], |cs|) <= i
    {
      if q != p {
        assert q in ncs[j] && GoodChain(t, contents, newList[j], ncs[j], j, |ncs|);
      }
    }
  }

  lemma NotInBucket(t: Table, contents: map<Key, Ptr>, start: Option<Ptr>, c: seq<Ptr>, b: nat, n: nat, p: Ptr, i: nat)
    requires GoodChain(t, contents, start, c, b, n) && Belongs(t, contents, p, i, n) && i != b
    ensures p !in c
  {
    hide Chain, Reduce;
    assert p in c ==> Belongs(t, contents, p, b, n);
  }

  class HandleTable {
    var t: Table
    var elems: nat
    ghost var chains: seq<seq<Ptr>>
    ghost var contents: map<Key, Ptr>

    ghost predicate Valid()
      reads this
    {
      Ok(t, chains, contents) && elems == |contents| && PowerOfTwo(|t.list|)
    }

    constructor (hashOf: Key -> nat)
      ensures Valid() && contents == map[] && t.keys == map[] && t.hashOf == hashOf
    {
      t := Table(hashOf, [None, None, None, None], map[], map[]);
      elems, chains, contents := 0, [[], [], [], []], map[];
    }

    /** Walks the bucket of a key; returns the handle found, if any, and the one before it in the chain. */
    method FindPointer(key: Key) returns (before: Option<Ptr>, found: Option<Ptr>, ghost i: nat)
      requires Valid()
      ensures var c := chains[Bucket(t, key, |chains|)];
              && EndsAt(t, c, contents, key, i)
              && before == (if i == 0 then None else Some(c[i - 1]))
              && found == (if i < |c| then Some(c[i]) else None)
    {
      hide Chain, Reduce, And, PowerOfTwo;
      ghost var c := chains[Bucket(t, key, |chains|)];
      i := 0;
      before := None;
      BucketStarts(t, chains, contents, key);
      MaskReduces(t.hashOf(key), |t.list|);
      found := t.list[And(t.hashOf(key), |t.list| - 1)];
      while true
        invariant i <= |c| && before == (if i == 0 then None else Some(c[i - 1]))
        invariant found == (if i < |c| then Some(c[i]) else None)
        invariant forall j :: 0 <= j < i ==> c[j] in t.keys && t.keys[c[j]] != key
        decreases |c| - i
      {
        SearchStep(t, chains, contents, key, i);
        if found.None? || t.keys[found.value] == key {
          break;
        }
        before := found;
        found := t.nextHash[found.value];
        i := i + 1;
      }
    }

    method Lookup(key: Key) returns (r: Option<Ptr>)
      requires Valid()
      ensures r == if key in contents then Some(contents[key]) else None
    {
      hide Ok;
      var before;
      ghost var i;
      before, r, i := FindPointer(key);
    }
  
    /** Puts a new handle in the place of the one for its key, or at the end of the bucket; grows the table
        when it holds more handles than buckets. */
    method Insert(h: Ptr, key: Key) returns (replaced: Option<Ptr>)
      requires Valid() && h !in t.keys
      modifies this
      ensures Valid() && contents == old(contents)[key := h] && t.keys == old(t.keys)[h := key] && t.hashOf == old(t.hashOf)
      ensures replaced == if key in old(contents) then Some(old(contents)[key]) else None
      ensures if replaced.None? then elems == old(elems) + 1 && |t.list| >= elems else elems == old(elems) && |t.list| == |old(t.list)|
    {
      hide Ok;
      hide Reduce;
      var before;
      ghost var i;
      before, replaced, i := FindPointer(key);
      ghost var b := Bucket(t, key, |chains|);
      ghost var c := chains[b];
      BucketStarts(t, chains, contents, key);
      LinkAfter(t, chains, contents, key, i);
      InsertOk(t, chains, contents, key, h, i);
      ghost var t' := Inserted(t, c, i, h, key);
      var next := if replaced.Some? then t.nextHash[replaced.value] else None;
      t := t.(nextHash := t.nextHash[h := next], keys := t.keys[h := key]);
      if before.Some? {
        t := t.(nextHash := t.nextHash[before.value := Some(h)]);
      } else {
        t := t.(list := t.list[Bucket(t, key, |t.list|) := Some(h)]);
      }
      chains := chains[b := c[..i] + [h] + c[if i < |c| then i + 1 else i..]];
      contents := contents[key := h];
      if replaced.None? {
        elems := elems + 1;
        if elems > |t.list| {
          Resize();
        }
      }
    }

    method Remove(key: Key) returns (removed: Option<Ptr>)
      requires Valid()
      modifies this
      ensures Valid() && contents == old(contents) - {key} && t.keys == old(t.keys) && t.hashOf == old(t.hashOf)
      ensures removed == if key in old(contents) then Some(old(contents)[key]) else None
      ensures elems == old(elems) - (if removed.Some? then 1 else 0) && |t.list| == |old(t.list)|
    {
      hide Ok;
      hide Reduce;
      var before;
      ghost var i;
      before, removed, i := FindPointer(key);
      ghost var b := Bucket(t, key, |chains|);
      ghost var c := chains[b];
      BucketStarts(t, chains, contents, key);
      if removed.None? {
        assert contents - {key} == contents;
        return;
      }
      LinkAfter(t, chains, contents, key, i);
      RemoveOk(t, chains, contents, key, i);
      var next := t.nextHash[removed.value];
      if before.Some? {
        t := t.(nextHash := t.nextHash[before.value := next]);
      } else {
        t := t.(list := t.list[Bucket(t, key, |t.list|) := next]);
      }
      chains := chains[b := c[..i] + c[i + 1..]];
      MapMinus(contents, key);
      contents := contents - {key};
      elems := elems - 1;
    }

    /** Doubles the buckets until there are as many as handles, and moves every handle to its new bucket. */
    method Resize()
      requires Valid()
      modifies this
      ensures Valid() && contents == old(contents) && t.keys == old(t.keys) && t.hashOf == old(t.hashOf)
      ensures elems == old(elems) && |t.list| >= elems
    {
      hide Ok, Rehashing, Reduce, Chain, And, GoodChains, GoodChain, AllFound, Belongs, Owned, NoDuplicates;
      var newLength := 4;
      while newLength < elems
        invariant newLength >= 4 && PowerOfTwo(newLength)
        decreases elems - newLength
      {
        newLength := newLength * 2;
      }
      var newList: seq<Option<Ptr>> := seq(newLength, _ => None);
      ghost var ncs: seq<seq<Ptr>> := seq(newLength, _ => []);
      BucketStarts(t, chains, contents, []);
      RehashStarts(t, chains, contents, newList, ncs);
      var i := 0;
      while i < |t.list|
        invariant 0 <= i <= |t.list| == |chains| && |newList| == |ncs| == newLength
        invariant t.keys == old(t.keys) && t.hashOf == old(t.hashOf)
        invariant contents == old(contents) && elems == old(elems) && chains == old(chains)
        invariant i < |t.list| ==> Rehashing(t, contents, newList, ncs, chains, i, t.list[i], chains[i])
        invariant i == |t.list| ==> Ok(t.(list := newList), ncs, contents)
        decreases |chains| - i
      {
        var h := t.list[i];
        ghost var rest := chains[i];
        RestStarts(t, contents, newList, ncs, chains, i, h, rest);
        while h.Some?
          invariant |newList| == |ncs| == newLength && |t.list| == |chains| && i < |chains|
          invariant t.keys == old(t.keys) && t.hashOf == old(t.hashOf)
          invariant contents == old(contents) && elems == old(elems) && chains == old(chains)
          invariant Rehashing(t, contents, newList, ncs, chains, i, h, rest) && (h.Some? <==> rest != [])
          decreases |rest|
        {
          MoveOk(t, contents, newList, ncs, chains, i, h, rest);
          var next := t.nextHash[h.value];
          var b := And(t.hashOf(t.keys[h.value]), |newList| - 1);
          MaskReduces(t.hashOf(t.keys[h.value]), |newList|);
          t := t.(nextHash := t.nextHash[h.value := newList[b]]);
          newList := newList[b := h];
          ncs := ncs[b := [h.value] + ncs[b]];
          h := next;
          rest := rest[1..];
          RestStarts(t, contents, newList, ncs, chains, i, h, rest);
        }
        NextBucket(t, contents, newList, ncs, chains, i);
        i := i + 1;
      }
      t := t.(list := newList);
      chains := ncs;
    }
  }

  lemma MapMinus(m: map<Key, Ptr>, key: Key)
    requires key in m
    ensures |m - {key}| == |m| - 1
  {
    assert (m - {key}).Keys == m.Keys - {key};
    assert |m.Keys| == |m| && |(m - {key}).Keys| == |m - {key}|;
  }

  /** What follows the handle found. */
  lemma LinkAfter(t: Table, cs: seq<seq<Ptr>>, contents: map<Key, Ptr>, key: Key, i: nat)
    requires Ok(t, cs, contents) && i <= |cs[Bucket(t, key, |cs|)]|
    ensures var c := cs[Bucket(t, key, |cs|)];
            i < |c| ==> c[i] in t.nextHash && t.nextHash[c[i]] == if i + 1 < |c| then Some(c[i + 1]) else None
  {
    hide Reduce;
    var b := Bucket(t, key, |cs|);
    assert GoodChain(t, contents, t.list[b], cs[b], b, |cs|);
    if i < |cs[b]| {
      ChainFrom(t.nextHash, t.list[b], cs[b], i);
    }
  }

  lemma RestStarts(t: Table, contents: map<Key, Ptr>, newList: seq<Option<Ptr>>, ncs: seq<seq<Ptr>>,
                   cs: seq<seq<Ptr>>, i: nat, h: Option<Ptr>, rest: seq<Ptr>)
    requires Rehashing(t, contents, newList, ncs, cs, i, h, rest)
    ensures h.Some? <==> rest != []
  {
    ChainStarts(t.nextHash, h, rest);
  }

  lemma RehashStarts(t: Table, cs: seq<seq<Ptr>>, contents: map<Key, Ptr>, newList: seq<Option<Ptr>>, ncs: seq<seq<Ptr>>)
    requires Ok(t, cs, contents) && |newList| == |ncs| > 0
    requires forall b :: 0 <= b < |ncs| ==> newList[b] == None && ncs[b] == []
    ensures Rehashing(t, contents, newList, ncs, cs, 0, t.list[0], cs[0])
  {
    hide Reduce;
    forall b | 0 <= b < |ncs| ensures GoodChain(t, contents, newList[b], ncs[b], b, |ncs|) {
    }
    forall k | k in contents ensures Reachable(t, contents, ncs, cs, 0, cs[0], k) {
    }
  }

  /** An emptied bucket is behind: the next one follows, or the table is done. */
  lemma NextBucket(t: Table, contents: map<Key, Ptr>, newList: seq<Option<Ptr>>, ncs: seq<seq<Ptr>>, cs: seq<seq<Ptr>>, i: nat)
    requires Rehashing(t, contents, newList, ncs, cs, i, None, [])
    ensures i + 1 < |cs| ==> Rehashing(t, contents, newList, ncs, cs, i + 1, t.list[i + 1], cs[i + 1])
    ensures i + 1 == |cs| ==> Ok(t.(list := newList), ncs, contents)
  {
    hide Reduce;
    hide Chain;
    if i + 1 < |cs| {
      assert GoodChain(t, contents, t.list[i + 1], cs[i + 1], i + 1, |cs|);
      forall k | k in contents ensures Reachable(t, contents, ncs, cs, i + 1, cs[i + 1], k) {
        assert Reachable(t, contents, ncs, cs, i, [], k);
      }
      forall b, p | 0 <= b < |ncs| && p in ncs[b] ensures p !in cs[i + 1] {
        assert p in cs[i + 1] ==> Belongs(t, contents, p, i + 1, |cs|);
      }
    } else {
      var t' := t.(list := newList);
      forall b | 0 <= b < |ncs| ensures GoodChain(t', contents, newList[b], ncs[b], b, |ncs|) {
        assert GoodChain(t, contents, newList[b], ncs[b], b, |ncs|);
        forall p | p in ncs[b] ensures Belongs(t', contents, p, b, |ncs|) {
          assert Belongs(t, contents, p, b, |ncs|);
        }
      }
      forall k | k in contents ensures contents[k] in ncs[Bucket(t, k, |ncs|)] {
        assert Reachable(t, contents, ncs, cs, i, [], k);
      }
    }
  }

  lemma BucketStarts(t: Table, cs: seq<seq<Ptr>>, contents: map<Key, Ptr>, key: Key)
    requires Ok(t, cs, contents)
    ensures |t.list| == |cs| > 0
    ensures var b := Bucket(t, key, |cs|); t.list[b] == if cs[b] == [] then None else Some(cs[b][0])
  {
    var b := Bucket(t, key, |cs|);
    assert GoodChain(t, contents, t.list[b], cs[b], b, |cs|);
  }
}
