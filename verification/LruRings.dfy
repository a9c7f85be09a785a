/** Circular doubly linked lists through a dummy head. */
module LruRings {
  import opened HandleTable

  /** The forward and backward links of handles and heads. */
  datatype Rings = Rings(next: map<Ptr, Ptr>, prev: map<Ptr, Ptr>)

  /** From the head through the items and back. */
  function Circle(head: Ptr, items: seq<Ptr>): seq<Ptr> {
    [head] + items + [head]
  }

  ghost predicate LinkedAt(r: Rings, s: seq<Ptr>, i: nat)
    requires i + 1 < |s|
  {
    s[i] in r.next && s[i + 1] in r.prev && r.next[s[i]] == s[i + 1] && r.prev[s[i + 1]] == s[i]
  }

  ghost predicate Ring(r: Rings, head: Ptr, items: seq<Ptr>) {
    && NoDuplicates([head] + items)
    && forall i :: 0 <= i <= |items| ==> LinkedAt(r, Circle(head, items), i)
  }

  function Unlinked(r: Rings, e: Ptr): Rings
    requires e in r.next && e in r.prev
  {
    Rings(r.next[r.prev[e] := r.next[e]], r.prev[r.next[e] := r.prev[e]])
  }

  /** Just before the head: the newest place. */
  function Appended(r: Rings, head: Ptr, e: Ptr): Rings
    requires head in r.prev
  {
    Rings(r.next[e := head][r.prev[head] := e], r.prev[e := r.prev[head]][head := e])
  }

  lemma RingAt(r: Rings, head: Ptr, items: seq<Ptr>, k: nat)
    requires Ring(r, head, items) && k < |items|
    ensures var e := items[k];
            && e in r.next && e in r.prev
            && r.next[e] == (if k + 1 < |items| then items[k + 1] else head)
            && r.prev[e] == (if k > 0 then items[k - 1] else head)
  {
    var s := Circle(head, items);
    assert LinkedAt(r, s, k) && LinkedAt(r, s, k + 1);
  }

  lemma RingHead(r: Rings, head: Ptr, items: seq<Ptr>)
    requires Ring(r, head, items)
    ensures head in r.next && head in r.prev
    ensures r.next[head] == (if items == [] then head else items[0])
    ensures r.prev[head] == (if items == [] then head else items[|items| - 1])
  {
    var s := Circle(head, items);
    assert LinkedAt(r, s, 0) && LinkedAt(r, s, |items|);
  }

  lemma UnlinkKeepsRing(r: Rings, head: Ptr, items: seq<Ptr>, k: nat)
    requires Ring(r, head, items) && k < |items|
    ensures items[k] in r.next && items[k] in r.prev && Ring(Unlinked(r, items[k]), head, items[..k] + items[k + 1..])
  {
    RingAt(r, head, items, k);
    var rest := items[..k] + items[k + 1..];
    var s, s' := Circle(head, items), Circle(head, rest);
    var all := [head] + items;
    forall i, j | 0 <= i < j < |[head] + rest| ensures ([head] + rest)[i] != ([head] + rest)[j] {
      assert ([head] + rest)[i] == all[if i <= k then i else i + 1];
      assert ([head] + rest)[j] == all[if j <= k then j else j + 1];
    }
    forall i | 0 <= i <= |rest| ensures LinkedAt(Unlinked(r, items[k]), s', i) {
      assert s[k + 1] == items[k] == all[k + 1] && s[k] == all[k];
      assert s[k + 2] == if k + 2 <= |items| then all[k + 2] else all[0];
      if i < k {
        assert LinkedAt(r, s, i);
        assert s'[i] == s[i] == all[i] && s'[i + 1] == s[i + 1] == all[i + 1];
      } else if i == k {
        assert s'[i] == s[k] && s'[i + 1] == s[k + 2];
      } else {
        assert LinkedAt(r, s, i + 1);
        assert s'[i] == s[i + 1] == all[i + 1] && s'[i + 1] == s[i + 2];
        assert s[i + 2] == if i + 2 <= |items| then all[i + 2] else all[0];
      }
    }
  }

  /** A ring that shares nothing with a change does not notice it. */
  lemma RingFrame(r: Rings, r': Rings, head: Ptr, items: seq<Ptr>)
    requires Ring(r, head, items)
    requires forall p :: p in [head] + items ==> (p in r.next ==> p in r'.next && r'.next[p] == r.next[p])
    requires forall p :: p in [head] + items ==> (p in r.prev ==> p in r'.prev && r'.prev[p] == r.prev[p])
    ensures Ring(r', head, items)
  {
    var s := Circle(head, items);
    forall i | 0 <= i <= |items| ensures LinkedAt(r', s, i) {
      assert LinkedAt(r, s, i);
      assert s[i] in [head] + items && s[i + 1] in [head] + items;
    }
  }

  lemma AppendKeepsRing(r: Rings, head: Ptr, items: seq<Ptr>, e: Ptr)
    requires Ring(r, head, items) && e !in [head] + items
    ensures head in r.prev && Ring(Appended(r, head, e), head, items + [e])
  {
    RingHead(r, head, items);
    var r' := Appended(r, head, e);
    var s, s' := Circle(head, items), Circle(head, items + [e]);
    var all, all' := [head] + items, [head] + (items + [e]);
    assert all' == all + [e];
    forall i | 0 <= i <= |items| + 1 ensures LinkedAt(r', s', i) {
      if i < |items| {
        assert LinkedAt(r, s, i);
        assert s'[i] == s[i] == all[i] && s'[i + 1] == s[i + 1] == all[i + 1];
        assert r.prev[head] == all[|items|];
      } else if i == |items| {
        assert s'[i] == all[|items|] && s'[i + 1] == e;
      } else {
        assert s'[i] == e && s'[i + 1] == head;
      }
    }
  }
}
