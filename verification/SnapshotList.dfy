/** The circular list of live snapshots, oldest first. */
module SnapshotList {
  import opened InternalKeys
  import opened HandleTable
  import LruCache
  import opened LruRings

  const HEAD: Ptr := 0

  /** The sequence numbers of the snapshots on the list. */
  function Numbers(numberOf: map<Ptr, Sequence>, items: seq<Ptr>): (ns: seq<Sequence>)
    requires forall p :: p in items ==> p in numberOf
    ensures |ns| == |items|
  {
    seq(|items|, i requires 0 <= i < |items| => numberOf[items[i]])
  }

  predicate Rising(ns: seq<Sequence>) {
    forall i, j :: 0 <= i < j < |ns| ==> ns[i] <= ns[j]
  }

  lemma Ends(ns: seq<Sequence>)
    requires Rising(ns) && ns != []
    ensures ns[0] in ns && forall k :: k in ns ==> ns[0] <= k <= ns[|ns| - 1]
  {
    forall k | k in ns ensures ns[0] <= k <= ns[|ns| - 1] {
      var i :| 0 <= i < |ns| && ns[i] == k;
    }
  }

  lemma NumbersCut(numberOf: map<Ptr, Sequence>, items: seq<Ptr>, k: nat)
    requires NoDuplicates(items) && k < |items| && forall p :: p in items <==> p in numberOf
    ensures var rest := items[..k] + items[k + 1..];
            && (forall p :: p in rest <==> p in numberOf - {items[k]})
            && Numbers(numberOf - {items[k]}, rest) == Numbers(numberOf, items)[..k] + Numbers(numberOf, items)[k + 1..]
            && (Rising(Numbers(numberOf, items)) ==> Rising(Numbers(numberOf - {items[k]}, rest)))
  {
    hide Rising, NoDuplicates;
    LruCache.Cut(items, k);
    var rest := items[..k] + items[k + 1..];
    var ns, ms := Numbers(numberOf, items), Numbers(numberOf - {items[k]}, rest);
    forall i | 0 <= i < |rest| ensures ms[i] == (ns[..k] + ns[k + 1..])[i] {
      assert rest[i] == items[if i < k then i else i + 1];
    }
    assert ms == ns[..k] + ns[k + 1..];
    RisingCut(ns, k);
  }

  lemma RisingCut(ns: seq<Sequence>, k: nat)
    requires k < |ns|
    ensures Rising(ns) ==> Rising(ns[..k] + ns[k + 1..])
  {
    var ms := ns[..k] + ns[k + 1..];
    assert forall i :: 0 <= i < |ms| ==> ms[i] == ns[if i < k then i else i + 1];
  }

  class Snapshots {
    var rings: Rings
    var numberOf: map<Ptr, Sequence>
    var frontier: Ptr
    ghost var items: seq<Ptr>

    ghost predicate Valid()
      reads this
    {
      && Ring(rings, HEAD, items) && frontier > HEAD
      && (forall p :: p in items <==> p in numberOf) && (forall p :: p in items ==> HEAD < p < frontier)
      && Rising(Contents())
    }

    ghost function Contents(): seq<Sequence>
      reads this
    {
      if forall p :: p in items ==> p in numberOf then Numbers(numberOf, items) else []
    }

    constructor ()
      ensures Valid() && Contents() == []
    {
      rings, numberOf, frontier, items := Rings(map[HEAD := HEAD], map[HEAD := HEAD]), map[], 1, [];
    }

    method Empty() returns (e: bool)
      requires Valid()
      ensures e <==> Contents() == []
    {
      RingHead(rings, HEAD, items);
      assert items != [] ==> items[0] in items;
      e := rings.next[HEAD] == HEAD;
    }

    /** The oldest snapshot is at or below every live one. */
    method Oldest() returns (n: Sequence)
      requires Valid() && Contents() != []
      ensures n in Contents() && forall k :: k in Contents() ==> n <= k
      ensures n == Contents()[0]
    {
      RingHead(rings, HEAD, items);
      Ends(Contents());
      n := numberOf[rings.next[HEAD]];
    }

    method Newest() returns (n: Sequence)
      requires Valid() && Contents() != []
      ensures n == Contents()[|Contents()| - 1] && forall k :: k in Contents() ==> k <= n
    {
      RingHead(rings, HEAD, items);
      Ends(Contents());
      n := numberOf[rings.prev[HEAD]];
    }

    /** A new snapshot goes to the end of the list. */
    method New(n: Sequence) returns (h: Ptr)
      requires Valid() && forall k :: k in Contents() ==> k <= n
      modifies this
      ensures Valid() && Contents() == old(Contents()) + [n] && items == old(items) + [h] && h !in old(items)
    {
      RingHead(rings, HEAD, items);
      AppendKeepsRing(rings, HEAD, items, frontier);
      assert forall i :: 0 <= i < |Contents()| ==> Contents()[i] in Contents();
      h, frontier := frontier, frontier + 1;
      numberOf := numberOf[h := n];
      rings := rings.(next := rings.next[h := HEAD]);
      rings := rings.(prev := rings.prev[h := rings.prev[HEAD]]);
      rings := rings.(next := rings.next[rings.prev[h] := h]);
      rings := rings.(prev := rings.prev[rings.next[h] := h]);
      items := items + [h];
      assert Contents() == old(Contents()) + [n];
    }

    /** The snapshot at place `k` of the list goes; the others keep their order. */
    method Delete(h: Ptr, ghost k: nat)
      requires Valid() && k < |items| && items[k] == h
      modifies this
      ensures Valid() && items == old(items[..k] + items[k + 1..])
      ensures Contents() == old(Contents()[..k] + Contents()[k + 1..])
    {
      hide Ring, Numbers, Rising;
      LruCache.RingDistinct(rings, HEAD, items);
      LruCache.Cut(items, k);
      NumbersCut(numberOf, items, k);
      UnlinkKeepsRing(rings, HEAD, items, k);
      ghost var before := rings;
      var prev, next := rings.prev[h], rings.next[h];
      rings := rings.(next := rings.next[prev := next]);
      rings := rings.(prev := rings.prev[next := prev]);
      assert rings == Unlinked(before, h);
      numberOf := numberOf - {h};
      items := items[..k] + items[k + 1..];
    }
  }
}
