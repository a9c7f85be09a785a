/** One shard of the cache: reference counts, the two lists, the table and the usage they add up to. */
module LruCache {
  import opened InternalKeys
  import opened HandleTable
  import opened LruRings

  datatype Record = Record(key: Key, value: Bytes, charge: nat, inCache: bool, refs: nat)

  /** The dummy heads of the two lists. */
  const LRU: Ptr := 0
  const IN_USE: Ptr := 1

  /** The memory of a shard; `freed` lists the handles whose deleter ran, in order. */
  datatype Mem = Mem(rings: Rings, records: map<Ptr, Record>, usage: nat, frontier: nat, freed: seq<Ptr>)

  /** What is on the lists, oldest first, and how many handles clients hold of each entry. */
  datatype Ghosts = Ghosts(lru: seq<Ptr>, inUse: seq<Ptr>, handles: map<Ptr, nat>)

  // ---- Lists ----

  function Index(ps: seq<Ptr>, e: Ptr): (k: nat)
    requires e in ps
    ensures k < |ps| && ps[k] == e
  {
    if ps[0] == e then 0 else 1 + Index(ps[1..], e)
  }

  function Without(ps: seq<Ptr>, e: Ptr): seq<Ptr> {
    if e in ps then ps[..Index(ps, e)] + ps[Index(ps, e) + 1..] else ps
  }

  lemma WithoutHolds(ps: seq<Ptr>, e: Ptr)
    requires NoDuplicates(ps)
    ensures NoDuplicates(Without(ps, e))
    ensures forall p :: p in Without(ps, e) <==> p in ps && p != e
  {
    hide Index;
    if e in ps {
      Cut(ps, Index(ps, e));
    }
  }

  lemma Cut(ps: seq<Ptr>, k: nat)
    requires NoDuplicates(ps) && k < |ps|
    ensures NoDuplicates(ps[..k] + ps[k + 1..])
    ensures forall p :: p in ps[..k] + ps[k + 1..] <==> p in ps && p != ps[k]
  {
    var q := ps[..k] + ps[k + 1..];
    assert forall i :: 0 <= i < |q| ==> q[i] == ps[if i < k then i else i + 1];
    forall p | p in ps && p != ps[k] ensures p in q {
      var i :| 0 <= i < |ps| && ps[i] == p;
      assert q[if i < k then i else i - 1] == p;
    }
  }

  ghost predicate Apart(a: seq<Ptr>, b: seq<Ptr>) {
    forall p :: p in a ==> p !in b
  }

  /** Both lists are linked and share nothing; `a` and `b` are their items. */
  ghost predicate TwoRings(r: Rings, a: seq<Ptr>, b: seq<Ptr>) {
    && Ring(r, LRU, a) && Ring(r, IN_USE, b) && Apart(a, b)
    && (forall p :: p in a || p in b ==> p > IN_USE)
  }

  lemma RingDistinct(r: Rings, head: Ptr, items: seq<Ptr>)
    requires Ring(r, head, items)
    ensures NoDuplicates(items) && head !in items
  {
    var all := [head] + items;
    assert forall i :: 0 <= i < |items| ==> items[i] == all[i + 1];
    assert all[0] == head;
  }

  lemma UnlinkTwo(r: Rings, a: seq<Ptr>, b: seq<Ptr>, e: Ptr)
    requires TwoRings(r, a, b) && (e in a || e in b)
    ensures e in r.next && e in r.prev && TwoRings(Unlinked(r, e), Without(a, e), Without(b, e))
  {
    RingDistinct(r, LRU, a);
    RingDistinct(r, IN_USE, b);
    WithoutHolds(a, e);
    WithoutHolds(b, e);
    if e in a {
      UnlinkOne(r, LRU, a, IN_USE, b, e);
    } else {
      UnlinkOne(r, IN_USE, b, LRU, a, e);
    }
  }

  lemma UnlinkOne(r: Rings, head: Ptr, a: seq<Ptr>, other: Ptr, b: seq<Ptr>, e: Ptr)
    requires Ring(r, head, a) && Ring(r, other, b) && e in a && head != other && Apart([head] + a, [other] + b)
    ensures e in r.next && e in r.prev
    ensures Ring(Unlinked(r, e), head, Without(a, e)) && Ring(Unlinked(r, e), other, b)
  {
    var k := Index(a, e);
    RingAt(r, head, a, k);
    UnlinkKeepsRing(r, head, a, k);
    assert r.next[e] in [head] + a && r.prev[e] in [head] + a;
    RingFrame(r, Unlinked(r, e), other, b);
  }

  lemma AppendOne(r: Rings, head: Ptr, a: seq<Ptr>, other: Ptr, b: seq<Ptr>, e: Ptr)
    requires Ring(r, head, a) && Ring(r, other, b) && head != other && Apart([head] + a, [other] + b)
    requires e !in [head] + a && e !in [other] + b
    ensures head in r.prev && Ring(Appended(r, head, e), head, a + [e]) && Ring(Appended(r, head, e), other, b)
  {
    RingHead(r, head, a);
    AppendKeepsRing(r, head, a, e);
    assert r.prev[head] in [head] + a;
    RingFrame(r, Appended(r, head, e), other, b);
  }

  // ---- Charges ----

  function ChargeOf(records: map<Ptr, Record>, p: Ptr): nat {
    if p in records then records[p].charge else 0
  }

  function Total(records: map<Ptr, Record>, ps: seq<Ptr>): nat {
    if ps == [] then 0 else Total(records, ps[..|ps| - 1]) + ChargeOf(records, ps[|ps| - 1])
  }

  lemma {:induction false} TotalSplit(records: map<Ptr, Record>, a: seq<Ptr>, b: seq<Ptr>)
    ensures Total(records, a + b) == Total(records, a) + Total(records, b)
  {
    if b == [] {
      assert a + b == a;
    } else {
      TotalSplit(records, a, b[..|b| - 1]);
      assert (a + b)[..|a + b| - 1] == a + b[..|b| - 1];
    }
  }

  lemma TotalWithout(records: map<Ptr, Record>, ps: seq<Ptr>, e: Ptr)
    ensures Total(records, Without(ps, e)) == Total(records, ps) - if e in ps then ChargeOf(records, e) else 0
  {
    if e in ps {
      var k := Index(ps, e);
      assert ps == ps[..k] + ([e] + ps[k + 1..]);
      TotalSplit(records, ps[..k], [e] + ps[k + 1..]);
      TotalSplit(records, [e], ps[k + 1..]);
      assert [e][..0] == [];
      assert Total(records, [e]) == Total(records, []) + ChargeOf(records, e);
      TotalSplit(records, ps[..k], ps[k + 1..]);
    }
  }

  lemma {:induction false} TotalSame(r: map<Ptr, Record>, r': map<Ptr, Record>, ps: seq<Ptr>)
    requires forall p :: p in ps ==> ChargeOf(r', p) == ChargeOf(r, p)
    ensures Total(r', ps) == Total(r, ps)
  {
    if ps != [] {
      TotalSame(r, r', ps[..|ps| - 1]);
    }
  }

  // ---- The invariant ----

  /** An entry is counted once for each handle and once for the cache. */
  ghost predicate Counted(m: Mem, g: Ghosts, p: Ptr) {
    && p in m.records && p in g.handles && IN_USE < p < m.frontier
    && m.records[p].refs > 0 && m.records[p].refs == g.handles[p] + (if m.records[p].inCache then 1 else 0)
    && (m.records[p].inCache <==> p in g.lru || p in g.inUse)
  }

  ghost predicate Listed(m: Mem, g: Ghosts) {
    && TwoRings(m.rings, g.lru, g.inUse)
    && (forall p :: p in g.lru ==> p in m.records && m.records[p].inCache && m.records[p].refs == 1)
    && (forall p :: p in g.inUse ==> p in m.records && m.records[p].inCache && m.records[p].refs >= 2)
    && (forall p :: p in g.handles && g.handles[p] > 0 ==> p in m.records)
  }

  predicate HeldFor(m: Mem, p: Ptr, k: Key) {
    p in m.records && m.records[p].inCache && m.records[p].key == k
  }

  /** The table holds exactly the cached entries, but for one that is on its way out. */
  ghost predicate Mapped(m: Mem, contents: map<Key, Ptr>, leaving: Option<Ptr>) {
    && (forall k :: k in contents ==> HeldFor(m, contents[k], k) && leaving != Some(contents[k]))
    && (forall p :: p in m.records && m.records[p].inCache && leaving != Some(p) ==> m.records[p].key in contents && contents[m.records[p].key] == p)
    && (leaving.Some? ==> leaving.value in m.records && m.records[leaving.value].inCache)
  }

  ghost predicate Freed(m: Mem) {
    && NoDuplicates(m.freed)
    && forall p :: p in m.freed ==> p !in m.records && p < m.frontier
  }

  ghost predicate Good(m: Mem, g: Ghosts, contents: map<Key, Ptr>, leaving: Option<Ptr>) {
    && Listed(m, g) && (forall p :: p in m.records ==> Counted(m, g, p)) && Mapped(m, contents, leaving) && Freed(m)
    && m.usage == Total(m.records, g.lru) + Total(m.records, g.inUse)
    && m.frontier > IN_USE
  }

  // ---- The steps ----

  /** The entry leaves the cache: off its list, off the usage, and freed if no client holds it. */
  function Dropped(m: Mem, e: Ptr): Mem
    requires e in m.records && e in m.rings.next && e in m.rings.prev
    requires m.usage >= m.records[e].charge && m.records[e].refs > 0
  {
    var r := m.records[e].(inCache := false, refs := m.records[e].refs - 1);
    Mem(Unlinked(m.rings, e),
        if r.refs == 0 then m.records - {e} else m.records[e := r],
        m.usage - r.charge, m.frontier,
        if r.refs == 0 then m.freed + [e] else m.freed)
  }

  function OffLists(g: Ghosts, e: Ptr): Ghosts {
    g.(lru := Without(g.lru, e), inUse := Without(g.inUse, e))
  }

  lemma DropLists(m: Mem, g: Ghosts, contents: map<Key, Ptr>, e: Ptr)
    requires Good(m, g, contents, Some(e))
    ensures e in m.records && e in m.rings.next && e in m.rings.prev && m.records[e].inCache && m.records[e].refs > 0
    ensures (e in g.lru || e in g.inUse) && TwoRings(Unlinked(m.rings, e), Without(g.lru, e), Without(g.inUse, e))
    ensures forall p :: p in Without(g.lru, e) <==> p in g.lru && p != e
    ensures forall p :: p in Without(g.inUse, e) <==> p in g.inUse && p != e
    ensures m.usage == Total(m.records, Without(g.lru, e)) + Total(m.records, Without(g.inUse, e)) + m.records[e].charge
  {
    hide Ring;
    hide Without;
    hide Total;
    assert Counted(m, g, e);
    UnlinkTwo(m.rings, g.lru, g.inUse, e);
    RingDistinct(m.rings, LRU, g.lru);
    RingDistinct(m.rings, IN_USE, g.inUse);
    WithoutHolds(g.lru, e);
    WithoutHolds(g.inUse, e);
    TotalWithout(m.records, g.lru, e);
    TotalWithout(m.records, g.inUse, e);
  }

  lemma GoodParts(m: Mem, g: Ghosts, contents: map<Key, Ptr>, leaving: Option<Ptr>)
    requires Good(m, g, contents, leaving)
    ensures Listed(m, g) && Mapped(m, contents, leaving) && Freed(m) && m.frontier > IN_USE
    ensures forall p :: p in m.records ==> Counted(m, g, p)
    ensures m.usage == Total(m.records, g.lru) + Total(m.records, g.inUse)
  {
  }

  lemma GoodFrom(m: Mem, g: Ghosts, contents: map<Key, Ptr>, leaving: Option<Ptr>)
    requires Listed(m, g) && Mapped(m, contents, leaving) && Freed(m) && m.frontier > IN_USE
    requires forall p :: p in m.records ==> Counted(m, g, p)
    requires m.usage == Total(m.records, g.lru) + Total(m.records, g.inUse)
    ensures Good(m, g, contents, leaving)
  {
  }

  /** The records after a change at `e` that leaves key and charge alone. */
  ghost predicate OnlyAt(m: Mem, m': Mem, e: Ptr) {
    && e in m.records && (forall p :: p in m.records && p != e ==> p in m'.records && m'.records[p] == m.records[p])
    && (forall p :: p in m'.records ==> p in m.records)
    && (e in m'.records ==> m'.records[e].key == m.records[e].key && m'.records[e].charge == m.records[e].charge)
  }

  lemma TotalsKept(m: Mem, m': Mem, e: Ptr, ps: seq<Ptr>)
    requires OnlyAt(m, m', e) && (e in ps ==> e in m'.records)
    ensures Total(m'.records, ps) == Total(m.records, ps)
  {
    TotalSame(m.records, m'.records, ps);
  }

  lemma DroppedOnlyAt(m: Mem, e: Ptr)
    requires e in m.records && e in m.rings.next && e in m.rings.prev && m.usage >= m.records[e].charge && m.records[e].refs > 0
    ensures OnlyAt(m, Dropped(m, e), e) && Dropped(m, e).usage == m.usage - m.records[e].charge && Dropped(m, e).frontier == m.frontier
  {
    hide Unlinked;
  }

  lemma DropGood(m: Mem, g: Ghosts, contents: map<Key, Ptr>, e: Ptr)
    requires Good(m, g, contents, Some(e))
    ensures e in m.records && e in m.rings.next && e in m.rings.prev && m.usage >= m.records[e].charge && m.records[e].refs > 0
    ensures Good(Dropped(m, e), OffLists(g, e), contents, None)
  {
    hide *;
    DropLists(m, g, contents, e);
    var m', g' := Dropped(m, e), OffLists(g, e);
    DroppedOnlyAt(m, e);
    GoodParts(m, g, contents, Some(e));
    DropRest(m, g, contents, e);
    OffListsAre(g, e);
    TotalsKept(m, m', e, g'.lru);
    TotalsKept(m, m', e, g'.inUse);
    GoodFrom(m', g', contents, None);
  }

  lemma OffListsAre(g: Ghosts, e: Ptr)
    ensures OffLists(g, e).lru == Without(g.lru, e) && OffLists(g, e).inUse == Without(g.inUse, e) && OffLists(g, e).handles == g.handles
  {
  }

  lemma DropCounted(m: Mem, g: Ghosts, e: Ptr, p: Ptr)
    requires e in m.records && e in m.rings.next && e in m.rings.prev && m.usage >= m.records[e].charge && m.records[e].refs > 0
    requires Counted(m, g, e) && Counted(m, g, p) && m.records[e].inCache && p in Dropped(m, e).records
    requires p in Without(g.lru, e) <==> p in g.lru && p != e
    requires p in Without(g.inUse, e) <==> p in g.inUse && p != e
    ensures Counted(Dropped(m, e), OffLists(g, e), p)
  {
    hide Without;
    hide Unlinked;
  }

  lemma DropListed(m: Mem, g: Ghosts, e: Ptr)
    requires Listed(m, g) && Counted(m, g, e)
    requires e in m.records && e in m.rings.next && e in m.rings.prev && m.usage >= m.records[e].charge && m.records[e].refs > 0
    requires TwoRings(Unlinked(m.rings, e), Without(g.lru, e), Without(g.inUse, e)) && m.records[e].inCache
    requires forall p :: p in Without(g.lru, e) <==> p in g.lru && p != e
    requires forall p :: p in Without(g.inUse, e) <==> p in g.inUse && p != e
    ensures Listed(Dropped(m, e), OffLists(g, e))
  {
    hide TwoRings;
    hide Without;
    hide Unlinked;
  }

  lemma DropMapped(m: Mem, g: Ghosts, contents: map<Key, Ptr>, e: Ptr)
    requires Mapped(m, contents, Some(e)) && Freed(m) && Counted(m, g, e)
    requires e in m.records && e in m.rings.next && e in m.rings.prev && m.usage >= m.records[e].charge && m.records[e].refs > 0
    ensures Mapped(Dropped(m, e), contents, None) && Freed(Dropped(m, e))
  {
    hide Unlinked;
  }

  lemma DropRest(m: Mem, g: Ghosts, contents: map<Key, Ptr>, e: Ptr)
    requires Listed(m, g) && Mapped(m, contents, Some(e)) && Freed(m) && (forall p :: p in m.records ==> Counted(m, g, p))
    requires e in m.records && e in m.rings.next && e in m.rings.prev && m.usage >= m.records[e].charge && m.records[e].refs > 0
    requires TwoRings(Unlinked(m.rings, e), Without(g.lru, e), Without(g.inUse, e)) && m.records[e].inCache
    requires forall p :: p in Without(g.lru, e) <==> p in g.lru && p != e
    requires forall p :: p in Without(g.inUse, e) <==> p in g.inUse && p != e
    ensures Listed(Dropped(m, e), OffLists(g, e)) && Mapped(Dropped(m, e), contents, None) && Freed(Dropped(m, e))
    ensures forall p :: p in Dropped(m, e).records ==> Counted(Dropped(m, e), OffLists(g, e), p)
  {
    hide Listed, OffLists, Unlinked, TwoRings, Mapped, Freed, Without;
    DropListed(m, g, e);
    DropMapped(m, g, contents, e);
    forall p | p in Dropped(m, e).records ensures Counted(Dropped(m, e), OffLists(g, e), p) {
      assert p in m.records;
      DropCounted(m, g, e, p);
    }
  }

  lemma NotThere(ps: seq<Ptr>, e: Ptr)
    requires e !in ps
    ensures Without(ps, e) == ps
  {
  }

  lemma AppendTwo(r: Rings, a: seq<Ptr>, b: seq<Ptr>, e: Ptr)
    requires TwoRings(r, a, b) && e !in a && e !in b && e > IN_USE
    ensures LRU in r.prev && IN_USE in r.prev
    ensures TwoRings(Appended(r, LRU, e), a + [e], b) && TwoRings(Appended(r, IN_USE, e), a, b + [e])
  {
    hide Ring;
    hide Appended;
    AppendOne(r, LRU, a, IN_USE, b, e);
    AppendOne(r, IN_USE, b, LRU, a, e);
  }

  /** From the one list to the newest end of the other. */
  lemma MoveTwo(r: Rings, a: seq<Ptr>, b: seq<Ptr>, e: Ptr)
    requires TwoRings(r, a, b) && (e in a || e in b)
    ensures e in r.next && e in r.prev && LRU in Unlinked(r, e).prev && IN_USE in Unlinked(r, e).prev
    ensures e in a ==> TwoRings(Appended(Unlinked(r, e), IN_USE, e), Without(a, e), b + [e])
    ensures e in b ==> TwoRings(Appended(Unlinked(r, e), LRU, e), a + [e], Without(b, e))
  {
    UnlinkTwo(r, a, b, e);
    RingDistinct(r, LRU, a);
    RingDistinct(r, IN_USE, b);
    WithoutHolds(a, e);
    WithoutHolds(b, e);
    AppendTwo(Unlinked(r, e), Without(a, e), Without(b, e), e);
    if e in a {
      NotThere(b, e);
    } else {
      NotThere(a, e);
    }
  }

  /** An entry that a client takes another handle of leaves the list of unused ones. */
  function Referenced(m: Mem, e: Ptr): Mem
    requires e in m.records && e in m.rings.next && e in m.rings.prev && IN_USE in Unlinked(m.rings, e).prev
  {
    var r := m.records[e];
    m.(rings := if r.refs == 1 && r.inCache then Appended(Unlinked(m.rings, e), IN_USE, e) else m.rings,
       records := m.records[e := r.(refs := r.refs + 1)])
  }

  function HeldMore(m: Mem, g: Ghosts, e: Ptr): Ghosts
    requires e in m.records && e in g.handles
  {
    var h := g.handles[e := g.handles[e] + 1];
    if m.records[e].refs == 1 && m.records[e].inCache then Ghosts(Without(g.lru, e), g.inUse + [e], h) else g.(handles := h)
  }

  ghost predicate Referable(m: Mem, g: Ghosts, e: Ptr) {
    && e in m.records && e in g.handles && m.records[e].inCache && Counted(m, g, e)
    && e in m.rings.next && e in m.rings.prev && IN_USE in Unlinked(m.rings, e).prev
    && (e in g.lru <==> m.records[e].refs == 1) && (e in g.lru || e in g.inUse)
    && (forall p :: p in Without(g.lru, e) <==> p in g.lru && p != e)
  }

  lemma IsReferable(m: Mem, g: Ghosts, e: Ptr)
    requires Listed(m, g) && e in m.records && Counted(m, g, e) && m.records[e].inCache
    ensures Referable(m, g, e)
    ensures e in g.lru ==> TwoRings(Appended(Unlinked(m.rings, e), IN_USE, e), Without(g.lru, e), g.inUse + [e])
  {
    RingDistinct(m.rings, LRU, g.lru);
    WithoutHolds(g.lru, e);
    MoveTwo(m.rings, g.lru, g.inUse, e);
  }

  lemma RefCounted(m: Mem, g: Ghosts, e: Ptr, p: Ptr)
    requires Referable(m, g, e) && Counted(m, g, p)
    ensures Counted(Referenced(m, e), HeldMore(m, g, e), p)
  {
    hide Without;
    hide Unlinked;
    hide Appended;
  }

  lemma RefListed(m: Mem, g: Ghosts, e: Ptr)
    requires Listed(m, g) && Referable(m, g, e)
    requires e in g.lru ==> TwoRings(Appended(Unlinked(m.rings, e), IN_USE, e), Without(g.lru, e), g.inUse + [e])
    ensures Listed(Referenced(m, e), HeldMore(m, g, e))
  {
    hide TwoRings;
    hide Without;
    hide Unlinked;
    hide Appended;
    if m.records[e].refs == 1 {
    } else {
    }
  }

  lemma RefMapped(m: Mem, g: Ghosts, contents: map<Key, Ptr>, e: Ptr)
    requires Mapped(m, contents, None) && Freed(m) && Referable(m, g, e)
    ensures Mapped(Referenced(m, e), contents, None) && Freed(Referenced(m, e))
    ensures OnlyAt(m, Referenced(m, e), e) && forall p :: p in Referenced(m, e).records ==> p in m.records
    ensures Referenced(m, e).usage == m.usage && Referenced(m, e).frontier == m.frontier
  {
    hide Without;
    hide Unlinked;
    hide Appended;
  }

  lemma TotalsMoved(m: Mem, m': Mem, g: Ghosts, a: seq<Ptr>, b: seq<Ptr>, e: Ptr)
    requires OnlyAt(m, m', e) && e in m'.records && e in a
    ensures Total(m'.records, Without(a, e)) + Total(m'.records, b + [e]) == Total(m.records, a) + Total(m.records, b)
  {
    TotalsKept(m, m', e, Without(a, e));
    TotalsKept(m, m', e, b);
    TotalWithout(m.records, a, e);
    assert (b + [e])[..|b|] == b;
  }

  lemma RefGood(m: Mem, g: Ghosts, contents: map<Key, Ptr>, e: Ptr)
    requires Good(m, g, contents, None) && e in m.records && m.records[e].inCache
    ensures e in m.rings.next && e in m.rings.prev && IN_USE in Unlinked(m.rings, e).prev && e in g.handles
    ensures Good(Referenced(m, e), HeldMore(m, g, e), contents, None)
  {
    GoodParts(m, g, contents, None);
    assert Counted(m, g, e);
    hide Good;
    hide Listed;
    hide Ring;
    IsReferable(m, g, e);
    assert e in m.rings.next && e in m.rings.prev && IN_USE in Unlinked(m.rings, e).prev && e in g.handles;
    assert e in g.lru <==> m.records[e].refs == 1;
    hide *;
    RefListed(m, g, e);
    RefMapped(m, g, contents, e);
    forall p | p in Referenced(m, e).records ensures Counted(Referenced(m, e), HeldMore(m, g, e), p) {
      RefCounted(m, g, e, p);
    }
    RefUsage(m, g, e);
    GoodFrom(Referenced(m, e), HeldMore(m, g, e), contents, None);
  }

  lemma RefUsage(m: Mem, g: Ghosts, e: Ptr)
    requires m.usage == Total(m.records, g.lru) + Total(m.records, g.inUse) && e in m.records && m.records[e].inCache && e in g.handles
    requires e in m.rings.next && e in m.rings.prev && IN_USE in Unlinked(m.rings, e).prev
    requires OnlyAt(m, Referenced(m, e), e) && (e in g.lru <==> m.records[e].refs == 1)
    ensures var m', g' := Referenced(m, e), HeldMore(m, g, e);
            m'.usage == Total(m'.records, g'.lru) + Total(m'.records, g'.inUse)
  {
    hide Total;
    hide Without;
    hide OnlyAt;
    var m' := Referenced(m, e);
    if m.records[e].refs == 1 {
      TotalsMoved(m, m', g, g.lru, g.inUse, e);
    } else {
      TotalsKept(m, m', e, g.lru);
      TotalsKept(m, m', e, g.inUse);
    }
  }

  /** A client gives a handle back: the entry is freed, or goes to the newest end of the unused ones, or stays. */
  function Unreferenced(m: Mem, e: Ptr): Mem
    requires e in m.records && m.records[e].refs > 0
    requires m.records[e].inCache ==> e in m.rings.next && e in m.rings.prev && LRU in Unlinked(m.rings, e).prev
  {
    var r := m.records[e].(refs := m.records[e].refs - 1);
    if r.refs == 0 then m.(records := m.records - {e}, freed := m.freed + [e])
    else if r.inCache && r.refs == 1 then m.(rings := Appended(Unlinked(m.rings, e), LRU, e), records := m.records[e := r])
    else m.(records := m.records[e := r])
  }

  function HeldLess(m: Mem, g: Ghosts, e: Ptr): Ghosts
    requires e in m.records && e in g.handles && g.handles[e] > 0
  {
    var h := g.handles[e := g.handles[e] - 1];
    if m.records[e].inCache && m.records[e].refs == 2 then Ghosts(g.lru + [e], Without(g.inUse, e), h) else g.(handles := h)
  }

  ghost predicate Releasable(m: Mem, g: Ghosts, e: Ptr) {
    && e in m.records && e in g.handles && g.handles[e] > 0 && Counted(m, g, e)
    && (m.records[e].inCache ==> e in m.rings.next && e in m.rings.prev && LRU in Unlinked(m.rings, e).prev)
    && (m.records[e].inCache ==> e in g.inUse && e !in g.lru && m.records[e].refs >= 2)
    && (forall p :: p in Without(g.inUse, e) <==> p in g.inUse && p != e)
  }

  lemma ReleaseCounted(m: Mem, g: Ghosts, e: Ptr, p: Ptr)
    requires Releasable(m, g, e) && Counted(m, g, p) && p in Unreferenced(m, e).records
    ensures Counted(Unreferenced(m, e), HeldLess(m, g, e), p)
  {
    hide Without;
    hide Unlinked;
    hide Appended;
  }

  lemma ReleaseListed(m: Mem, g: Ghosts, e: Ptr)
    requires Listed(m, g) && Releasable(m, g, e)
    requires e in g.inUse ==> TwoRings(Appended(Unlinked(m.rings, e), LRU, e), g.lru + [e], Without(g.inUse, e))
    ensures Listed(Unreferenced(m, e), HeldLess(m, g, e))
  {
    hide TwoRings;
    hide Without;
    hide Unlinked;
    hide Appended;
    if m.records[e].refs == 1 {
    } else if m.records[e].inCache && m.records[e].refs == 2 {
    } else {
    }
  }

  lemma ReleaseMapped(m: Mem, g: Ghosts, contents: map<Key, Ptr>, e: Ptr)
    requires Mapped(m, contents, None) && Freed(m) && Releasable(m, g, e)
    ensures Mapped(Unreferenced(m, e), contents, None) && Freed(Unreferenced(m, e))
    ensures OnlyAt(m, Unreferenced(m, e), e)
    ensures Unreferenced(m, e).usage == m.usage && Unreferenced(m, e).frontier == m.frontier
  {
    hide Without;
    hide Unlinked;
    hide Appended;
  }

  lemma IsReleasable(m: Mem, g: Ghosts, e: Ptr)
    requires Listed(m, g) && e in m.records && Counted(m, g, e) && e in g.handles && g.handles[e] > 0
    ensures Releasable(m, g, e) && (m.records[e].inCache <==> e in g.inUse) && e !in g.lru
    ensures e in g.inUse ==> TwoRings(Appended(Unlinked(m.rings, e), LRU, e), g.lru + [e], Without(g.inUse, e))
  {
    RingDistinct(m.rings, IN_USE, g.inUse);
    WithoutHolds(g.inUse, e);
    if m.records[e].inCache {
      MoveTwo(m.rings, g.lru, g.inUse, e);
    }
  }

  lemma ReleaseUsage(m: Mem, g: Ghosts, e: Ptr)
    requires m.usage == Total(m.records, g.lru) + Total(m.records, g.inUse)
    requires e in m.records && e in g.handles && g.handles[e] > 0 && m.records[e].refs > 0
    requires m.records[e].inCache ==> e in m.rings.next && e in m.rings.prev && LRU in Unlinked(m.rings, e).prev
    requires OnlyAt(m, Unreferenced(m, e), e)
    requires m.records[e].inCache ==> e in g.inUse && m.records[e].refs >= 2
    requires !m.records[e].inCache ==> e !in g.inUse && e !in g.lru
    ensures var m', g' := Unreferenced(m, e), HeldLess(m, g, e);
            m'.usage == Total(m'.records, g'.lru) + Total(m'.records, g'.inUse)
  {
    hide Total;
    hide Without;
    hide OnlyAt;
    var m' := Unreferenced(m, e);
    if m.records[e].inCache && m.records[e].refs == 2 {
      TotalsMoved(m, m', g, g.inUse, g.lru, e);
    } else {
      TotalsKept(m, m', e, g.lru);
      TotalsKept(m, m', e, g.inUse);
    }
  }

  lemma ReleaseGood(m: Mem, g: Ghosts, contents: map<Key, Ptr>, e: Ptr)
    requires Good(m, g, contents, None) && e in m.records && e in g.handles && g.handles[e] > 0
    ensures m.records[e].refs > 0
    ensures m.records[e].inCache ==> e in m.rings.next && e in m.rings.prev && LRU in Unlinked(m.rings, e).prev
    ensures Good(Unreferenced(m, e), HeldLess(m, g, e), contents, None)
  {
    GoodParts(m, g, contents, None);
    assert Counted(m, g, e);
    hide Good;
    hide Listed;
    hide Ring;
    IsReleasable(m, g, e);
    assert m.records[e].refs > 0;
    assert m.records[e].inCache ==> e in m.rings.next && e in m.rings.prev && LRU in Unlinked(m.rings, e).prev;
    assert m.records[e].inCache ==> m.records[e].refs >= 2;
    hide *;
    ReleaseListed(m, g, e);
    ReleaseMapped(m, g, contents, e);
    forall p | p in Unreferenced(m, e).records ensures Counted(Unreferenced(m, e), HeldLess(m, g, e), p) {
      OnlyOld(m, Unreferenced(m, e), e, p);
      ReleaseCounted(m, g, e, p);
    }
    ReleaseUsage(m, g, e);
    GoodFrom(Unreferenced(m, e), HeldLess(m, g, e), contents, None);
  }

  lemma OnlyOld(m: Mem, m': Mem, e: Ptr, p: Ptr)
    requires OnlyAt(m, m', e) && p in m'.records
    ensures p in m.records
  {
  }

  /** A new entry for the client only. */
  function Allocated(m: Mem, r: Record): Mem {
    m.(records := m.records[m.frontier := r], frontier := m.frontier + 1)
  }

  lemma UncachedGood(m: Mem, g: Ghosts, contents: map<Key, Ptr>, r: Record)
    requires Good(m, g, contents, None) && !r.inCache && r.refs == 1
    ensures Good(Allocated(m, r), g.(handles := g.handles[m.frontier := 1]), contents, None)
  {
    GoodParts(m, g, contents, None);
    var m', g' := Allocated(m, r), g.(handles := g.handles[m.frontier := 1]);
    NewPtr(m, g);
    hide TwoRings;
    hide Good;
    TotalSame(m.records, m'.records, g.lru);
    TotalSame(m.records, m'.records, g.inUse);
    hide Total;
    forall p | p in m'.records ensures Counted(m', g', p) {
      assert p != m.frontier ==> Counted(m, g, p);
    }
    hide Counted;
    assert Listed(m', g');
    hide Listed;
    GoodFrom(m', g', contents, None);
  }

  /** A new entry for the client and the cache, at the newest end of the entries in use. */
  function Added(m: Mem, r: Record): Mem
    requires IN_USE in m.rings.prev
  {
    Mem(Appended(m.rings, IN_USE, m.frontier), m.records[m.frontier := r], m.usage + r.charge, m.frontier + 1, m.freed)
  }

  function InUseToo(g: Ghosts, e: Ptr): Ghosts {
    g.(inUse := g.inUse + [e], handles := g.handles[e := 1])
  }

  lemma AddMapped(m: Mem, g: Ghosts, contents: map<Key, Ptr>, r: Record)
    requires Mapped(m, contents, None) && Freed(m) && IN_USE in m.rings.prev && m.frontier !in m.records && r.inCache
    ensures Freed(Added(m, r))
    ensures Mapped(Added(m, r), contents[r.key := m.frontier], if r.key in contents then Some(contents[r.key]) else None)
  {
    hide Appended;
  }

  lemma AddRest(m: Mem, g: Ghosts, contents: map<Key, Ptr>, r: Record)
    requires Listed(m, g) && Mapped(m, contents, None) && Freed(m) && (forall p :: p in m.records ==> Counted(m, g, p))
    requires IN_USE in m.rings.prev && m.frontier > IN_USE && m.frontier !in m.records && r.inCache && r.refs == 2
    requires TwoRings(Appended(m.rings, IN_USE, m.frontier), g.lru, g.inUse + [m.frontier])
    ensures var m', g' := Added(m, r), InUseToo(g, m.frontier);
            && Listed(m', g') && Freed(m') && (forall p :: p in m'.records ==> Counted(m', g', p))
            && Mapped(m', contents[r.key := m.frontier], if r.key in contents then Some(contents[r.key]) else None)
  {
    hide TwoRings, Appended, Mapped, Freed;
    AddMapped(m, g, contents, r);
    var m', g' := Added(m, r), InUseToo(g, m.frontier);
    forall p | p in m'.records ensures Counted(m', g', p) {
      assert p != m.frontier ==> Counted(m, g, p);
    }
  }

  lemma AddGood(m: Mem, g: Ghosts, contents: map<Key, Ptr>, r: Record)
    requires Good(m, g, contents, None) && r.inCache && r.refs == 2
    ensures IN_USE in m.rings.prev
    ensures Good(Added(m, r), InUseToo(g, m.frontier), contents[r.key := m.frontier], if r.key in contents then Some(contents[r.key]) else None)
  {
    GoodParts(m, g, contents, None);
    var e := m.frontier;
    NewPtr(m, g);
    hide *;
    AppendTwo(m.rings, g.lru, g.inUse, e);
    AddRest(m, g, contents, r);
    AddUsage(m, g, r);
    GoodFrom(Added(m, r), InUseToo(g, e), contents[r.key := e], if r.key in contents then Some(contents[r.key]) else None);
  }

  lemma NewPtr(m: Mem, g: Ghosts)
    requires Listed(m, g) && forall p :: p in m.records ==> Counted(m, g, p)
    ensures m.frontier !in m.records && m.frontier !in g.lru && m.frontier !in g.inUse && TwoRings(m.rings, g.lru, g.inUse)
  {
    assert m.frontier in m.records ==> Counted(m, g, m.frontier);
  }

  lemma AddUsage(m: Mem, g: Ghosts, r: Record)
    requires m.usage == Total(m.records, g.lru) + Total(m.records, g.inUse) && IN_USE in m.rings.prev
    requires m.frontier !in m.records && m.frontier !in g.lru && m.frontier !in g.inUse
    ensures var m', g' := Added(m, r), InUseToo(g, m.frontier);
            m'.usage == Total(m'.records, g'.lru) + Total(m'.records, g'.inUse) && m'.frontier == m.frontier + 1
  {
    var m' := Added(m, r);
    TotalSame(m.records, m'.records, g.lru);
    TotalSame(m.records, m'.records, g.inUse);
    assert (g.inUse + [m.frontier])[..|g.inUse|] == g.inUse;
  }

  /** The table lets go of an entry. */
  lemma LeaveGood(m: Mem, g: Ghosts, contents: map<Key, Ptr>, key: Key)
    requires Good(m, g, contents, None) && key in contents
    ensures Good(m, g, contents - {key}, Some(contents[key]))
  {
    hide TwoRings;
    hide Total;
    hide Freed;
  }

  /** What evictions leave: nothing new, and every entry in use. */
  ghost predicate OnlyEvicted(before: map<Key, Ptr>, after: map<Key, Ptr>, kept: seq<Ptr>) {
    && (forall k :: k in after ==> k in before && before[k] == after[k])
    && (forall k :: k in before && before[k] in kept ==> k in after)
  }

  lemma EvictedMore(a: map<Key, Ptr>, b: map<Key, Ptr>, c: map<Key, Ptr>, kept: seq<Ptr>)
    requires OnlyEvicted(a, b, kept) && OnlyEvicted(b, c, kept)
    ensures OnlyEvicted(a, c, kept)
  {
  }

  lemma NoneEvicted(a: map<Key, Ptr>, kept: seq<Ptr>)
    ensures OnlyEvicted(a, a, kept)
  {
  }

  lemma OneEvicted(a: map<Key, Ptr>, key: Key, kept: seq<Ptr>)
    requires key in a && a[key] !in kept
    ensures OnlyEvicted(a, a - {key}, kept)
  {
  }

  /** Records are as they were, except perhaps for one handle. */
  ghost predicate KeptBut(m: Mem, m': Mem, gone: Option<Ptr>) {
    forall p :: p in m.records && gone != Some(p) ==> p in m'.records && m'.records[p] == m.records[p]
  }

  lemma DroppedKeeps(m: Mem, e: Ptr)
    requires e in m.records && e in m.rings.next && e in m.rings.prev && m.usage >= m.records[e].charge && m.records[e].refs > 0
    ensures KeptBut(m, Dropped(m, e), Some(e))
  {
  }

  lemma StillInUse(g: Ghosts, e: Option<Ptr>)
    requires NoDuplicates(g.inUse)
    ensures var g' := if e.Some? then OffLists(g, e.value) else g;
            forall p :: p in g.inUse && e != Some(p) ==> p in g'.inUse
  {
    hide Without;
    if e.Some? {
      WithoutHolds(g.inUse, e.value);
    }
  }

  lemma InUseDistinct(m: Mem, g: Ghosts, contents: map<Key, Ptr>, leaving: Option<Ptr>)
    requires Good(m, g, contents, leaving)
    ensures NoDuplicates(g.inUse)
  {
    hide Ring;
    RingDistinct(m.rings, IN_USE, g.inUse);
  }

  lemma EntryKept(m: Mem, m': Mem, gone: Option<Ptr>, h: Ptr, key: Key, value: Bytes, charge: nat)
    requires KeptBut(m, m', gone) && gone != Some(h) && EntryIs(m, h, key, value, charge)
    ensures EntryIs(m', h, key, value, charge)
  {
  }

  ghost predicate KeptBeside(m: Mem, m': Mem, gone: seq<Ptr>) {
    forall p :: p in m.records && p !in gone ==> p in m'.records && m'.records[p] == m.records[p]
  }

  lemma NoneGone(m: Mem, gone: seq<Ptr>)
    ensures KeptBeside(m, m, gone)
  {
  }

  lemma OneGone(m: Mem, m1: Mem, m2: Mem, ps: seq<Ptr>, n: nat)
    requires n < |ps| && KeptBeside(m, m1, ps[..n]) && KeptBut(m1, m2, Some(ps[n..][0])) && NoDuplicates(ps) && ps[n] in m.records
    ensures KeptBeside(m, m2, ps[..n + 1]) && ChargeOf(m1.records, ps[n]) == ChargeOf(m.records, ps[n])
  {
    assert ps[n..][0] == ps[n] && ps[..n + 1] == ps[..n] + [ps[n]];
  }

  lemma EntryStays(m: Mem, m': Mem, gone: seq<Ptr>, h: Ptr, key: Key, value: Bytes, charge: nat)
    requires KeptBeside(m, m', gone) && h !in gone && EntryIs(m, h, key, value, charge)
    ensures EntryIs(m', h, key, value, charge)
  {
  }

  predicate EntryIs(m: Mem, h: Ptr, key: Key, value: Bytes, charge: nat) {
    h in m.records && m.records[h].key == key && m.records[h].value == value && m.records[h].charge == charge
  }

  /** What the invariant says of every entry: it is counted once for each handle and once for the cache; the
      cached ones are on the one list if only the cache refers to them and on the other if clients do; the usage
      is their charge; the table maps their keys; and a deleter ran once, on an entry nobody refers to. */
  lemma CacheFacts(m: Mem, g: Ghosts, contents: map<Key, Ptr>, p: Ptr)
    requires Good(m, g, contents, None)
    ensures p in m.records ==> p in g.handles && m.records[p].refs == g.handles[p] + (if m.records[p].inCache then 1 else 0)
    ensures p in m.records && m.records[p].inCache ==>
              && (p in g.lru <==> m.records[p].refs == 1) && (p in g.inUse <==> m.records[p].refs > 1)
              && m.records[p].key in contents && contents[m.records[p].key] == p
    ensures p in g.lru || p in g.inUse ==> p in m.records && m.records[p].inCache
    ensures forall k :: k in contents ==> HeldFor(m, contents[k], k)
    ensures m.usage == Total(m.records, g.lru + g.inUse)
    ensures NoDuplicates(m.freed) && (p in m.freed ==> p !in m.records && (p in g.handles ==> g.handles[p] == 0))
  {
    GoodParts(m, g, contents, None);
    hide Good;
    assert p in m.records ==> Counted(m, g, p);
    TotalSplit(m.records, g.lru, g.inUse);
    hide TwoRings;
    hide Total;
  }

  // ---- What the operations promise ----

  /** The entry a new one for `key` takes the place of. */
  function Replaced(contents: map<Key, Ptr>, key: Key, capacity: nat): Option<Ptr> {
    if capacity > 0 && key in contents then Some(contents[key]) else None
  }

  function LeftOf(ps: seq<Ptr>, e: Option<Ptr>): seq<Ptr> {
    if e.Some? then Without(ps, e.value) else ps
  }

  /** The deleter runs for an entry taken off the cache exactly if no client holds it. */
  function FreedOf(records: map<Ptr, Record>, e: Option<Ptr>): seq<Ptr> {
    if e.Some? && e.value in records && records[e.value].refs == 1 then [e.value] else []
  }

  function ChargeIf(records: map<Ptr, Record>, e: Option<Ptr>): nat {
    if e.Some? then ChargeOf(records, e.value) else 0
  }

  /** With the entries from `k` on still cached the usage was beyond the capacity. */
  predicate Needed(records: map<Ptr, Record>, lru: seq<Ptr>, k: nat, n: nat, left: nat, capacity: nat)
    requires k <= n <= |lru|
  {
    left + Total(records, lru[k..n]) > capacity
  }

  /** The `n` oldest entries of `lru` were evicted, no more than needed: before each of them the usage was still
      beyond the capacity, and it no longer is unless none is left. */
  ghost predicate Evicts(records: map<Ptr, Record>, lru: seq<Ptr>, n: nat, usage: nat, left: nat, capacity: nat) {
    && n <= |lru| && usage == left + Total(records, lru[..n])
    && (forall k :: 0 <= k < n ==> Needed(records, lru, k, n, left, capacity))
    && (n < |lru| ==> left <= capacity)
  }

  /** The same, but for the end. */
  ghost predicate Evicting(records: map<Ptr, Record>, lru: seq<Ptr>, n: nat, usage: nat, left: nat, capacity: nat) {
    && n <= |lru| && usage == left + Total(records, lru[..n])
    && (forall k :: 0 <= k < n ==> Needed(records, lru, k, n, left, capacity))
  }

  lemma EvictingStarts(records: map<Ptr, Record>, lru: seq<Ptr>, usage: nat, capacity: nat)
    ensures Evicting(records, lru, 0, usage, usage, capacity)
  {
  }

  lemma TotalNext(records: map<Ptr, Record>, ps: seq<Ptr>, k: nat, n: nat)
    requires k <= n < |ps|
    ensures Total(records, ps[k..n + 1]) == Total(records, ps[k..n]) + ChargeOf(records, ps[n])
  {
    assert ps[k..n + 1][..n - k] == ps[k..n];
  }

  lemma EvictingNext(records: map<Ptr, Record>, lru: seq<Ptr>, n: nat, usage: nat, left: nat, left': nat, capacity: nat)
    requires Evicting(records, lru, n, usage, left, capacity) && n < |lru| && left > capacity && left == left' + ChargeOf(records, lru[n])
    ensures Evicting(records, lru, n + 1, usage, left', capacity)
  {
    hide Total;
    TotalNext(records, lru, 0, n);
    assert lru[..n + 1] == lru[0..n + 1] && lru[..n] == lru[0..n];
    var n' := n + 1;
    forall k | 0 <= k < n' ensures Needed(records, lru, k, n', left', capacity) {
      TotalNext(records, lru, k, n);
      assert k < n ==> Needed(records, lru, k, n, left, capacity);
    }
  }

  lemma SameEvicts(r: map<Ptr, Record>, r': map<Ptr, Record>, lru: seq<Ptr>, n: nat, usage: nat, left: nat, capacity: nat)
    requires Evicts(r, lru, n, usage, left, capacity) && forall p :: p in lru ==> ChargeOf(r', p) == ChargeOf(r, p)
    ensures Evicts(r', lru, n, usage, left, capacity)
  {
    hide Total;
    TotalSame(r, r', lru[..n]);
    forall k | 0 <= k < n ensures Needed(r', lru, k, n, left, capacity) {
      TotalSame(r, r', lru[k..n]);
      assert Needed(r, lru, k, n, left, capacity);
    }
  }

  /** What adding an entry does to the others: the one for its key goes. */
  ghost predicate Makes(m: Mem, m': Mem, contents: map<Key, Ptr>, lru: seq<Ptr>, lru': seq<Ptr>, key: Key, charge: nat, capacity: nat) {
    var e := Replaced(contents, key, capacity);
    && lru' == LeftOf(lru, e) && KeptBut(m, m', e)
    && m'.freed == m.freed + FreedOf(m.records, e)
    && m.usage + (if capacity > 0 then charge else 0) == m'.usage + ChargeIf(m.records, e)
  }

  /** What an insertion does to the others: the one for its key goes, and then the `n` oldest unused ones, no more
      of them than needed. */
  ghost predicate Inserts(m: Mem, m': Mem, contents: map<Key, Ptr>, lru: seq<Ptr>, lru': seq<Ptr>, key: Key, charge: nat, capacity: nat, n: nat) {
    var e := Replaced(contents, key, capacity);
    var rest, usage := LeftOf(lru, e), m.usage + (if capacity > 0 then charge else 0) - ChargeIf(m.records, e);
    && usage >= 0 && Evicts(m.records, rest, n, usage, m'.usage, capacity)
    && lru' == rest[n..] && m'.freed == m.freed + FreedOf(m.records, e) + rest[..n]
  }

  lemma InsertsFrom(m: Mem, m1: Mem, m': Mem, contents: map<Key, Ptr>, lru: seq<Ptr>, lru1: seq<Ptr>, lru': seq<Ptr>, key: Key, charge: nat, capacity: nat, n: nat)
    requires Makes(m, m1, contents, lru, lru1, key, charge, capacity) && NoDuplicates(lru) && forall p :: p in lru ==> p in m.records
    requires Evicts(m1.records, lru1, n, m1.usage, m'.usage, capacity) && lru' == lru1[n..] && m'.freed == m1.freed + lru1[..n]
    ensures Inserts(m, m', contents, lru, lru', key, charge, capacity, n)
  {
    hide Without, Evicts, FreedOf, ChargeOf, Total;
    EvictsFew(m1.records, lru1, n, m1.usage, m'.usage, capacity);
    var e := Replaced(contents, key, capacity);
    if e.Some? {
      WithoutHolds(lru, e.value);
    }
    SameCharges(m, m1, lru1);
    SameEvicts(m1.records, m.records, lru1, n, m1.usage, m'.usage, capacity);
  }

  lemma EvictsFew(records: map<Ptr, Record>, lru: seq<Ptr>, n: nat, usage: nat, left: nat, capacity: nat)
    requires Evicts(records, lru, n, usage, left, capacity)
    ensures n <= |lru|
  {
  }

  lemma SameCharges(m: Mem, m': Mem, ps: seq<Ptr>)
    requires forall p :: p in ps ==> p in m.records && p in m'.records && m'.records[p] == m.records[p]
    ensures forall p :: p in ps ==> ChargeOf(m.records, p) == ChargeOf(m'.records, p)
  {
  }

  /** A record added, and then perhaps one gone. */
  lemma KeptThrough(m: Mem, m1: Mem, m2: Mem, h: Ptr, r: Record, gone: Option<Ptr>)
    requires m1.records == m.records[h := r] && h !in m.records && KeptBut(m1, m2, gone) && gone != Some(h)
    ensures KeptBut(m, m2, gone) && FreedOf(m1.records, gone) == FreedOf(m.records, gone) && ChargeIf(m1.records, gone) == ChargeIf(m.records, gone)
  {
  }

  // ---- The cache ----

  class LRUCache {
    const capacity: nat
    var m: Mem
    const table: HandleTable
    ghost var g: Ghosts

    ghost predicate Valid()
      reads this, table
    {
      && table.Valid() && Good(m, g, table.contents, None)
      && forall p :: p in table.t.keys ==> p < m.frontier
    }

    constructor (capacity: nat, hashOf: Key -> nat)
      ensures Valid() && fresh(table) && table.contents == map[] && m.usage == 0 && m.freed == [] && g.handles == map[]
      ensures this.capacity == capacity
    {
      this.capacity := capacity;
      table := new HandleTable(hashOf);
      m := Mem(Rings(map[LRU := LRU, IN_USE := IN_USE], map[LRU := LRU, IN_USE := IN_USE]), map[], 0, IN_USE + 1, []);
      g := Ghosts([], [], map[]);
      new;
      EmptyRings(m.rings);
    }

    lemma EmptyRings(r: Rings)
      requires r == Rings(map[LRU := LRU, IN_USE := IN_USE], map[LRU := LRU, IN_USE := IN_USE])
      ensures TwoRings(r, [], [])
    {
    }

    /** An entry's list links are taken out of its list. */
    method LruRemove(e: Ptr)
      requires e in m.rings.next && e in m.rings.prev
      modifies this`m
      ensures m == old(m).(rings := Unlinked(old(m).rings, e))
    {
      var next, prev := m.rings.next[e], m.rings.prev[e];
      m := m.(rings := m.rings.(prev := m.rings.prev[next := prev]));
      m := m.(rings := m.rings.(next := m.rings.next[prev := next]));
    }

    /** An entry becomes the newest of a list. */
    method LruAppend(list: Ptr, e: Ptr)
      requires list in m.rings.prev && list != e && m.rings.prev[list] != e
      modifies this`m
      ensures m == old(m).(rings := Appended(old(m).rings, list, e))
    {
      m := m.(rings := m.rings.(next := m.rings.next[e := list]));
      m := m.(rings := m.rings.(prev := m.rings.prev[e := m.rings.prev[list]]));
      m := m.(rings := m.rings.(next := m.rings.next[m.rings.prev[e] := e]));
      m := m.(rings := m.rings.(prev := m.rings.prev[m.rings.next[e] := e]));
    }

    method Ref(e: Ptr)
      requires Good(m, g, table.contents, None) && e in m.records && m.records[e].inCache
      modifies this`m, this`g
      ensures e in old(g.handles) && Good(m, g, table.contents, None)
      ensures g == HeldMore(old(m), old(g), e)
      ensures m == old(m).(rings := m.rings, records := m.records)
    {
      hide Good;
      hide Unlinked;
      hide Appended;
      RefGood(m, g, table.contents, e);
      ghost var m0, g0 := m, g;
      var r := m.records[e];
      if r.refs == 1 && r.inCache {
        LruRemove(e);
        AppendsAway(m0, g0, table.contents, e);
        LruAppend(IN_USE, e);
      }
      m := m.(records := m.records[e := r.(refs := r.refs + 1)]);
      g := HeldMore(m0, g0, e);
    }

    /** Gives one reference back. */
    method Unref(e: Ptr)
      requires Good(m, g, table.contents, None) && e in m.records && e in g.handles && g.handles[e] > 0
      modifies this`m, this`g
      ensures Good(m, g, table.contents, None)
      ensures g == HeldLess(old(m), old(g), e)
      ensures m == old(m).(rings := m.rings, records := m.records, freed := m.freed)
      ensures m.freed == if old(m.records[e].refs) == 1 then old(m.freed) + [e] else old(m.freed)
    {
      hide Good;
      hide Unlinked;
      hide Appended;
      ReleaseGood(m, g, table.contents, e);
      ghost var m0, g0 := m, g;
      var r := m.records[e].(refs := m.records[e].refs - 1);
      m := m.(records := m.records[e := r]);
      if r.refs == 0 {
        m := m.(records := m.records - {e}, freed := m.freed + [e]);
        assert m.records == m0.records - {e};
      } else if r.inCache && r.refs == 1 {
        LruRemove(e);
        AppendsAway(m0, g0, table.contents, e);
        LruAppend(LRU, e);
      }
      g := HeldLess(m0, g0, e);
    }

    /** An unlinked entry is not beside a head any more. */
    lemma AppendsAway(m: Mem, g: Ghosts, contents: map<Key, Ptr>, e: Ptr)
      requires Good(m, g, contents, None) && e in m.records && m.records[e].inCache && e in m.rings.next && e in m.rings.prev
      ensures var r := Unlinked(m.rings, e);
              && LRU in r.prev && LRU != e && r.prev[LRU] != e && IN_USE in r.prev && IN_USE != e && r.prev[IN_USE] != e
    {
      GoodParts(m, g, contents, None);
      assert Counted(m, g, e);
      hide Good;
      hide Unlinked;
      UnlinkTwo(m.rings, g.lru, g.inUse, e);
      RingDistinct(m.rings, LRU, g.lru);
      RingDistinct(m.rings, IN_USE, g.inUse);
      WithoutHolds(g.lru, e);
      WithoutHolds(g.inUse, e);
      RingHead(Unlinked(m.rings, e), LRU, Without(g.lru, e));
      RingHead(Unlinked(m.rings, e), IN_USE, Without(g.inUse, e));
    }

    /** Takes an entry, already out of the table, off the cache. */
    method FinishErase(e: Option<Ptr>)
      requires Good(m, g, table.contents, e)
      modifies this`m, this`g
      ensures Good(m, g, table.contents, None)
      ensures e.None? ==> m == old(m) && g == old(g)
      ensures e.Some? ==> e.value in old(m.records) && g == OffLists(old(g), e.value)
      ensures m.freed == old(m.freed) + FreedOf(old(m.records), e) && old(m.usage) == m.usage + ChargeIf(old(m.records), e)
      ensures m.frontier == old(m.frontier) && KeptBut(old(m), m, e)
    {
      hide Good;
      hide Unlinked;
      if e.Some? {
        var p := e.value;
        DropGood(m, g, table.contents, p);
        DroppedKeeps(m, p);
        ghost var m0 := m;
        LruRemove(p);
        var r := m.records[p].(inCache := false, refs := m.records[p].refs - 1);
        m := m.(records := m.records[p := r], usage := m.usage - r.charge);
        if r.refs == 0 {
          m := m.(records := m.records - {p}, freed := m.freed + [p]);
          assert m.records == m0.records - {p};
        }
        g := OffLists(g, p);
        assert m == Dropped(m0, p);
      }
    }

    /** The entry for a key, of which the caller gets a handle. */
    method Lookup(key: Key) returns (h: Option<Ptr>)
      requires Valid()
      modifies this`m, this`g
      ensures Valid() && h == if key in table.contents then Some(table.contents[key]) else None
      ensures h.None? ==> m == old(m) && g == old(g)
      ensures h.Some? ==> h.value in old(m.records) && h.value in old(g.handles) && g == HeldMore(old(m), old(g), h.value)
      ensures m.usage == old(m.usage) && m.freed == old(m.freed)
    {
      hide Good;
      h := table.Lookup(key);
      if h.Some? {
        HeldInTable(m, g, table.contents, key);
        Ref(h.value);
      }
    }

    lemma HeldInTable(m: Mem, g: Ghosts, contents: map<Key, Ptr>, key: Key)
      requires Good(m, g, contents, None) && key in contents
      ensures contents[key] in m.records && m.records[contents[key]].inCache
    {
    }

    /** Gives a handle back; the deleter runs if nobody else refers to the entry. */
    method Release(h: Ptr)
      requires Valid() && h in g.handles && g.handles[h] > 0
      modifies this`m, this`g
      ensures Valid() && h in old(m.records) && g == HeldLess(old(m), old(g), h) && m.usage == old(m.usage)
      ensures m.freed == if old(m.records[h].refs) == 1 then old(m.freed) + [h] else old(m.freed)
    {
      HeldAlive(m, g, table.contents, h);
      hide Good;
      Unref(h);
    }

    lemma HeldAlive(m: Mem, g: Ghosts, contents: map<Key, Ptr>, h: Ptr)
      requires Good(m, g, contents, None) && h in g.handles && g.handles[h] > 0
      ensures h in m.records
    {
    }

    method Erase(key: Key)
      requires Valid()
      modifies this`m, this`g, table
      ensures Valid() && table.contents == old(table.contents) - {key}
      ensures var e := if key in old(table.contents) then Some(old(table.contents)[key]) else None;
              && g == old(g).(lru := LeftOf(old(g.lru), e), inUse := LeftOf(old(g.inUse), e))
              && m.freed == old(m.freed) + FreedOf(old(m.records), e) && old(m.usage) == m.usage + ChargeIf(old(m.records), e)
    {
      hide Good, Ok, Without, ChargeOf, KeptBut, HeldFor;
      if key in table.contents {
        LeaveGood(m, g, table.contents, key);
      } else {
        assert table.contents - {key} == table.contents;
      }
      var e := table.Remove(key);
      FinishErase(e);
    }

    /** The unused entry that was used longest ago. */
    lemma OldestFacts(m: Mem, g: Ghosts, contents: map<Key, Ptr>)
      requires Good(m, g, contents, None)
      ensures LRU in m.rings.next && (m.rings.next[LRU] == LRU <==> g.lru == [])
      ensures g.lru != [] ==>
                && m.rings.next[LRU] == g.lru[0] && g.lru[0] in m.records && m.records[g.lru[0]].refs == 1
                && HeldFor(m, g.lru[0], m.records[g.lru[0]].key) && m.records[g.lru[0]].key in contents
                && contents[m.records[g.lru[0]].key] == g.lru[0]
                && Without(g.lru, g.lru[0]) == g.lru[1..] && Without(g.inUse, g.lru[0]) == g.inUse && g.lru[0] !in g.inUse
    {
      GoodParts(m, g, contents, None);
      hide Good;
      RingHead(m.rings, LRU, g.lru);
      RingDistinct(m.rings, LRU, g.lru);
      hide Ring;
      if g.lru != [] {
        assert g.lru[0] in g.lru && g.lru[0] !in g.inUse;
        assert m.records[g.lru[0]].inCache;
        FirstIndex(g.lru);
      }
    }

    lemma FirstIndex(ps: seq<Ptr>)
      requires ps != []
      ensures Without(ps, ps[0]) == ps[1..]
    {
      assert Index(ps, ps[0]) == 0;
      assert ps[..0] + ps[1..] == ps[1..];
    }

    method EvictOldest()
      requires Valid() && g.lru != []
      modifies this`m, this`g, table
      ensures Valid() && g == old(g).(lru := old(g.lru)[1..])
      ensures old(g.lru[0]) in old(m.records) && table.contents == old(table.contents) - {old(m.records[g.lru[0]].key)}
      ensures OnlyEvicted(old(table.contents), table.contents, g.inUse)
      ensures m.freed == old(m.freed) + [old(g.lru[0])] && old(m.usage) == m.usage + ChargeOf(old(m.records), old(g.lru[0]))
      ensures old(m.records[g.lru[0]].inCache) && old(g.lru[0]) !in old(g.inUse) && KeptBut(old(m), m, Some(old(g.lru[0])))
    {
      hide Good;
      hide KeptBut;
      OldestFacts(m, g, table.contents);
      var e := m.rings.next[LRU];
      var key := m.records[e].key;
      LeaveGood(m, g, table.contents, key);
      OneEvicted(table.contents, key, g.inUse);
      hide OnlyEvicted;
      var removed := table.Remove(key);
      FinishErase(removed);
    }

    lemma Advance(ps: seq<Ptr>, n: nat)
      requires n < |ps|
      ensures ps[n..][0] == ps[n] && ps[n..][1..] == ps[n + 1..] && ps[..n + 1] == ps[..n] + [ps[n]]
    {
    }

    /** Frees every entry no client holds. */
    method Prune()
      requires Valid()
      modifies this`m, this`g, table
      ensures Valid() && g.lru == [] && g.inUse == old(g.inUse) && g.handles == old(g.handles)
      ensures OnlyEvicted(old(table.contents), table.contents, g.inUse)
      ensures m.freed == old(m.freed) + old(g.lru)
    {
      hide Good, Ok, KeptBut, Without, NoDuplicates, OnlyEvicted, HeldFor, ChargeOf, FreedTo;
      ghost var lru, freed := g.lru, m.freed;
      ghost var n := 0;
      OldestFacts(m, g, table.contents);
      NoneEvicted(table.contents, g.inUse);
      FreedFrom(freed, lru);
      while m.rings.next[LRU] != LRU
        invariant Valid() && 0 <= n <= |lru| && g == old(g).(lru := lru[n..])
        invariant OnlyEvicted(old(table.contents), table.contents, g.inUse) && FreedTo(freed, m.freed, lru, n)
        invariant LRU in m.rings.next && (m.rings.next[LRU] == LRU <==> g.lru == [])
        decreases |lru| - n
      {
        ghost var contents, before := table.contents, m.freed;
        Advance(lru, n);
        EvictOldest();
        EvictedMore(old(table.contents), contents, table.contents, g.inUse);
        FreedNext(freed, before, m.freed, lru, n);
        OldestFacts(m, g, table.contents);
        n := n + 1;
      }
      FreedAll(freed, m.freed, lru);
    }

    static ghost predicate FreedTo(before: seq<Ptr>, after: seq<Ptr>, lru: seq<Ptr>, n: nat) {
      n <= |lru| && after == before + lru[..n]
    }

    lemma FreedFrom(freed: seq<Ptr>, lru: seq<Ptr>)
      ensures FreedTo(freed, freed, lru, 0) && lru[0..] == lru
    {
    }

    lemma FreedNext(freed: seq<Ptr>, before: seq<Ptr>, after: seq<Ptr>, lru: seq<Ptr>, n: nat)
      requires FreedTo(freed, before, lru, n) && n < |lru| && after == before + [lru[n]]
      ensures FreedTo(freed, after, lru, n + 1)
    {
    }

    lemma FreedAll(freed: seq<Ptr>, after: seq<Ptr>, lru: seq<Ptr>)
      requires FreedTo(freed, after, lru, |lru|)
      ensures after == freed + lru
    {
    }

    /** Puts a new entry into the cache, in place of the one for its key. */
    method CacheEntry(h: Ptr, r: Record)
      requires Valid() && r.inCache && r.refs == 2 && h == m.frontier
      modifies this`m, this`g, table
      ensures Valid() && g.handles == old(g.handles)[h := 1] && table.contents == old(table.contents)[r.key := h]
      ensures EntryIs(m, h, r.key, r.value, r.charge) && h in g.inUse
      ensures Makes(old(m), m, old(table.contents), old(g.lru), g.lru, r.key, r.charge, 1)
      ensures forall p :: p in old(g.inUse) && !(r.key in old(table.contents) && p == old(table.contents)[r.key]) ==> p in g.inUse
    {
      hide Good;
      hide Ok;
      hide Unlinked;
      hide Appended;
      hide Without;
      hide KeptBut;
      hide OnlyEvicted, FreedOf, ChargeOf, NoDuplicates;
      ghost var m0 := m;
      FreshHandle(m, g, table.contents);
      AddGood(m, g, table.contents, r);
      m := m.(records := m.records[h := r], frontier := h + 1);
      LruAppend(IN_USE, h);
      m := m.(usage := m.usage + r.charge);
      g := InUseToo(g, h);
      ghost var m1, g1 := m, g;
      assert forall p :: p in old(g.inUse) ==> p in g1.inUse;
      InUseDistinct(m, g, table.contents[r.key := h], if r.key in table.contents then Some(table.contents[r.key]) else None);
      NotReplaced(m, g, table.contents, r.key, h);
      var replaced := table.Insert(h, r.key);
      StillInUse(g, replaced);
      FinishErase(replaced);
      EntryKept(m1, m, replaced, h, r.key, r.value, r.charge);
      KeptThrough(m0, m1, m, h, r, replaced);
    }

    /** The new entry before anything is evicted. */
    method AddEntry(key: Key, value: Bytes, charge: nat) returns (h: Ptr)
      requires Valid()
      modifies this`m, this`g, table
      ensures Valid() && h !in old(m.records) && h !in old(m.freed) && g.handles == old(g.handles)[h := 1]
      ensures table.contents == if capacity > 0 then old(table.contents)[key := h] else old(table.contents)
      ensures EntryIs(m, h, key, value, charge) && (capacity > 0 ==> h in g.inUse)
      ensures forall p :: p in old(g.inUse) && !(key in old(table.contents) && p == old(table.contents)[key]) ==> p in g.inUse
      ensures Makes(old(m), m, old(table.contents), old(g.lru), g.lru, key, charge, capacity)
    {
      hide Good;
      hide Ok;
      h := m.frontier;
      FreshHandle(m, g, table.contents);
      if capacity > 0 {
        CacheEntry(h, Record(key, value, charge, true, 2));
      } else {
        UncachedGood(m, g, table.contents, Record(key, value, charge, false, 1));
        m := m.(records := m.records[h := Record(key, value, charge, false, 1)], frontier := h + 1);
        g := g.(handles := g.handles[h := 1]);
      }
    }

    /** The entry that makes room in the table is not the new one. */
    lemma NotReplaced(m: Mem, g: Ghosts, contents: map<Key, Ptr>, key: Key, h: Ptr)
      requires Good(m, g, contents[key := h], if key in contents then Some(contents[key]) else None)
      ensures key in contents ==> contents[key] != h
    {
      assert key in contents[key := h];
    }

    /** Evicts unused entries, oldest first, while the usage is beyond the capacity; entries off the list of
        unused ones are left alone. */
    method EvictOver() returns (ghost n: nat)
      requires Valid()
      modifies this`m, this`g, table
      ensures Valid() && Evicts(old(m.records), old(g.lru), n, old(m.usage), m.usage, capacity)
      ensures g == old(g).(lru := old(g.lru)[n..]) && m.freed == old(m.freed) + old(g.lru)[..n]
      ensures OnlyEvicted(old(table.contents), table.contents, g.inUse) && KeptBeside(old(m), m, old(g.lru)[..n])
    {
      hide Good, Ok, OnlyEvicted, KeptBut, KeptBeside, Without, NoDuplicates, HeldFor, Evicts, EvictedTo, Total, ChargeOf;
      ghost var lru, m0 := g.lru, m;
      n := 0;
      NoneEvicted(table.contents, g.inUse);
      OldestFacts(m, g, table.contents);
      EvictedNone(m, lru, capacity);
      LruDistinct(m, g, table.contents);
      assert lru[0..] == lru;
      while m.usage > capacity && m.rings.next[LRU] != LRU
        invariant Valid() && 0 <= n <= |lru| && g == old(g).(lru := lru[n..])
        invariant OnlyEvicted(old(table.contents), table.contents, g.inUse) && EvictedTo(m0, m, lru, n, capacity)
        invariant LRU in m.rings.next && (m.rings.next[LRU] == LRU <==> g.lru == [])
        decreases |lru| - n
      {
        ghost var contents, m1 := table.contents, m;
        Advance(lru, n);
        EvictOldest();
        EvictedMore(old(table.contents), contents, table.contents, g.inUse);
        EvictedNext(m0, m1, m, lru, n, capacity);
        OldestFacts(m, g, table.contents);
        n := n + 1;
      }
      EvictedEnds(m0, m, lru, n, capacity);
    }

    /** The `n` oldest unused entries are gone. */
    static ghost predicate EvictedTo(m: Mem, m': Mem, lru: seq<Ptr>, n: nat, capacity: nat) {
      && n <= |lru| && KeptBeside(m, m', lru[..n]) && m'.freed == m.freed + lru[..n]
      && Evicting(m.records, lru, n, m.usage, m'.usage, capacity)
    }

    lemma EvictedNone(m: Mem, lru: seq<Ptr>, capacity: nat)
      ensures EvictedTo(m, m, lru, 0, capacity)
    {
      NoneGone(m, lru[..0]);
      EvictingStarts(m.records, lru, m.usage, capacity);
    }

    lemma EvictedNext(m: Mem, m1: Mem, m2: Mem, lru: seq<Ptr>, n: nat, capacity: nat)
      requires EvictedTo(m, m1, lru, n, capacity) && NoDuplicates(lru) && (forall p :: p in lru ==> p in m.records) && n < |lru|
      requires KeptBut(m1, m2, Some(lru[n])) && m2.freed == m1.freed + [lru[n]] && m1.usage == m2.usage + ChargeOf(m1.records, lru[n])
      requires m1.usage > capacity
      ensures EvictedTo(m, m2, lru, n + 1, capacity)
    {
      hide KeptBut, KeptBeside, NoDuplicates, Evicting, ChargeOf;
      Advance(lru, n);
      OneGone(m, m1, m2, lru, n);
      EvictingNext(m.records, lru, n, m.usage, m1.usage, m2.usage, capacity);
    }

    lemma EvictedEnds(m: Mem, m': Mem, lru: seq<Ptr>, n: nat, capacity: nat)
      requires EvictedTo(m, m', lru, n, capacity) && (m'.usage <= capacity || n == |lru|)
      ensures Evicts(m.records, lru, n, m.usage, m'.usage, capacity) && KeptBeside(m, m', lru[..n]) && m'.freed == m.freed + lru[..n]
    {
      EvictingEnds(m.records, lru, n, m.usage, m'.usage, capacity);
    }

    lemma EvictingEnds(records: map<Ptr, Record>, lru: seq<Ptr>, n: nat, usage: nat, left: nat, capacity: nat)
      requires Evicting(records, lru, n, usage, left, capacity) && (left <= capacity || n == |lru|)
      ensures Evicts(records, lru, n, usage, left, capacity)
    {
    }

    lemma LruDistinct(m: Mem, g: Ghosts, contents: map<Key, Ptr>)
      requires Good(m, g, contents, None)
      ensures NoDuplicates(g.lru) && forall p :: p in g.lru ==> p in m.records
    {
      hide Ring;
      RingDistinct(m.rings, LRU, g.lru);
    }

    /** Adds an entry and returns a handle of it; when nothing is cached at all the handle is its only
        reference. Then evicts, oldest first, what is beyond the capacity. */
    method Insert(key: Key, value: Bytes, charge: nat) returns (h: Ptr, ghost n: nat)
      requires Valid()
      modifies this`m, this`g, table
      ensures Valid() && h !in old(m.records) && h !in old(m.freed) && g.handles == old(g.handles)[h := 1]
      ensures EntryIs(m, h, key, value, charge) && (capacity > 0 ==> h in g.inUse)
      ensures forall p :: p in old(g.inUse) && !(key in old(table.contents) && p == old(table.contents)[key]) ==> p in g.inUse
      ensures OnlyEvicted(if capacity > 0 then old(table.contents)[key := h] else old(table.contents), table.contents, g.inUse)
      ensures Inserts(old(m), m, old(table.contents), old(g.lru), g.lru, key, charge, capacity, n)
    {
      hide Good, Ok, OnlyEvicted, KeptBeside, KeptBut, Evicts, Without, NoDuplicates, Makes, Inserts;
      ghost var m1, g1, contents := m, g, table.contents;
      LruDistinct(m, g, table.contents);
      h := AddEntry(key, value, charge);
      ghost var m0, g0 := m, g;
      NotUnused(m, g, table.contents, h);
      n := EvictOver();
      EvictsFew(m0.records, g0.lru, n, m0.usage, m.usage, capacity);
      EntryStays(m0, m, g0.lru[..n], h, key, value, charge);
      InsertsFrom(m1, m0, m, contents, g1.lru, g0.lru, g.lru, key, charge, capacity, n);
    }

    /** An entry with a client is not among the unused ones. */
    lemma NotUnused(m: Mem, g: Ghosts, contents: map<Key, Ptr>, h: Ptr)
      requires Good(m, g, contents, None) && h in m.records && h in g.handles && g.handles[h] > 0
      ensures h !in g.lru
    {
      assert Counted(m, g, h);
    }

    lemma FreshHandle(m: Mem, g: Ghosts, contents: map<Key, Ptr>)
      requires Good(m, g, contents, None)
      ensures m.frontier !in m.records && m.frontier !in m.freed
      ensures IN_USE in m.rings.prev && IN_USE != m.frontier && m.rings.prev[IN_USE] != m.frontier
    {
      GoodParts(m, g, contents, None);
      assert m.frontier in m.records ==> Counted(m, g, m.frontier);
      hide Good;
      RingHead(m.rings, IN_USE, g.inUse);
      assert g.inUse != [] ==> g.inUse[|g.inUse| - 1] in g.inUse;
      hide Ring;
    }
  }
}
