/** The merging iterator: a cursor over the sorted union of its children. */
module MergingIterator {
  import opened InternalKeys
  import opened VersionSearch
  import opened Cursors
  import opened Wrapper = IteratorWrapper

  /** `all` is the sorted union of the lists, which share no entry. */
  ghost predicate Merges(all: seq<Entry>, lists: seq<seq<Entry>>) {
    && Sorted(all)
    && (forall i :: 0 <= i < |lists| ==> Sorted(lists[i]))
    && (forall i, e :: 0 <= i < |lists| && e in lists[i] ==> e in all)
    && (forall e :: e in all ==> exists i :: 0 <= i < |lists| && e in lists[i])
    && (forall i, j, e :: 0 <= i < |lists| && 0 <= j < |lists| && e in lists[i] && e in lists[j] ==> i == j)
  }

  /** The first `k` entries of a child are those among the first `n` of the union. */
  ghost predicate SplitAt(es: seq<Entry>, k: nat, all: seq<Entry>, n: nat) {
    && k <= |es| && n <= |all|
    && (forall j :: 0 <= j < k ==> es[j] in all[..n])
    && (forall j :: k <= j < |es| ==> es[j] in all[n..])
  }

  /** A child moving forward stands at its first entry not before `n`. */
  ghost predicate StandsAfter(es: seq<Entry>, pos: Position, all: seq<Entry>, n: nat) {
    Within(pos, |es|) && SplitAt(es, if pos.Some? then pos.value else |es|, all, n)
  }

  /** A child moving backward stands at its last entry before `n`. */
  ghost predicate StandsBefore(es: seq<Entry>, pos: Position, all: seq<Entry>, n: nat) {
    Within(pos, |es|) && SplitAt(es, if pos.Some? then pos.value + 1 else 0, all, n)
  }

  datatype Direction = Forward | Reverse

  ghost predicate Stands(d: Direction, es: seq<Entry>, pos: Position, all: seq<Entry>, n: nat) {
    if d.Forward? then StandsAfter(es, pos, all, n) else StandsBefore(es, pos, all, n)
  }

  // ---- Moving a child, moving the cut ----

  lemma IndexIn(all: seq<Entry>, e: Entry, n: nat) returns (i: nat)
    requires Sorted(all) && e in all && n <= |all|
    ensures i < |all| && all[i] == e
    ensures e in all[..n] <==> i < n
    ensures e in all[n..] <==> i >= n
  {
    i :| 0 <= i < |all| && all[i] == e;
    if i < n {
      assert all[..n][i] == e;
    } else {
      assert all[n..][i - n] == e;
    }
    forall j | 0 <= j < |all| && all[j] == e ensures i == j {
      SortedAt(all, i, j);
      SortedAt(all, j, i);
    }
    if e in all[..n] {
      var j :| 0 <= j < n && all[..n][j] == e;
      assert all[j] == e;
    }
    if e in all[n..] {
      var j :| 0 <= j < |all| - n && all[n..][j] == e;
      assert all[n + j] == e;
    }
  }

  /** A child that does not hold entry `n` stands the same way on either side of it. */
  lemma CutMoves(es: seq<Entry>, k: nat, all: seq<Entry>, n: nat)
    requires Sorted(all) && n < |all| && all[n] !in es && forall e :: e in es ==> e in all
    ensures SplitAt(es, k, all, n) <==> SplitAt(es, k, all, n + 1)
  {
    if k <= |es| {
      forall j | 0 <= j < |es| ensures es[j] in all[..n] <==> es[j] in all[..n + 1] {
        var i := IndexIn(all, es[j], n);
        var i' := IndexIn(all, es[j], n + 1);
      }
      forall j | 0 <= j < |es| ensures es[j] in all[n..] <==> es[j] in all[n + 1..] {
        var i := IndexIn(all, es[j], n);
        var i' := IndexIn(all, es[j], n + 1);
      }
    }
  }

  /** In the child that holds entry `n`, passing it moves the split by one. */
  lemma HolderMoves(es: seq<Entry>, k: nat, all: seq<Entry>, n: nat)
    requires Sorted(all) && Sorted(es) && n < |all| && k < |es| && es[k] == all[n] && forall e :: e in es ==> e in all
    ensures SplitAt(es, k, all, n) && SplitAt(es, k + 1, all, n + 1)
  {
    forall j | 0 <= j < |es|
      ensures j < k ==> es[j] in all[..n] && es[j] in all[..n + 1]
      ensures j > k ==> es[j] in all[n..] && es[j] in all[n + 1..]
    {
      var i := IndexIn(all, es[j], n);
      var i' := IndexIn(all, es[j], n + 1);
      assert j < k ==> Precedes(es[j].key, es[k].key);
      assert j > k ==> Precedes(es[k].key, es[j].key);
      assert i > n ==> Precedes(all[n].key, all[i].key);
      assert i < n ==> Precedes(all[i].key, all[n].key);
    }
    assert all[n] == all[..n + 1][n] && all[n] == all[n..][0];
  }

  /** Seeking splits child and union alike. */
  lemma SeekSplits(es: seq<Entry>, all: seq<Entry>, target: InternalKey)
    requires Sorted(all) && Sorted(es) && forall e :: e in es ==> e in all
    ensures SplitAt(es, SeekIndex(es, target), all, SeekIndex(all, target))
  {
    var k, n := SeekIndex(es, target), SeekIndex(all, target);
    forall j | 0 <= j < |es| ensures (j < k ==> es[j] in all[..n]) && (j >= k ==> es[j] in all[n..]) {
      var i := IndexIn(all, es[j], n);
      assert j > k ==> Precedes(es[k].key, es[j].key);
      assert i > n ==> Precedes(all[n].key, all[i].key);
    }
  }

  /** Seeking to the key of a stored entry finds the entry. */
  lemma SeekStored(all: seq<Entry>, n: nat)
    requires Sorted(all) && n < |all|
    ensures SeekIndex(all, all[n].key) == n
  {
    var i := SeekIndex(all, all[n].key);
    SortedAt(all, i, n);
    if n < i {
      SortedAt(all, n, i);
    }
  }

  /** Among children standing after `n`, none shows an entry before entry `n`, and one shows it. */
  lemma ShownForward(es: seq<Entry>, pos: Position, all: seq<Entry>, n: nat)
    requires Sorted(all) && Sorted(es) && StandsAfter(es, pos, all, n) && forall e :: e in es ==> e in all
    ensures n < |all| && all[n] in es ==> pos.Some? && es[pos.value] == all[n]
    ensures n < |all| && pos.Some? ==> es[pos.value] == all[n] || Less(all[n].key, es[pos.value].key)
    ensures n == |all| ==> pos.None?
  {
    if n < |all| && all[n] in es {
      var j :| 0 <= j < |es| && es[j] == all[n];
      var i := IndexIn(all, es[j], n);
      if pos.Some? && pos.value < j {
        assert Precedes(es[pos.value].key, es[j].key);
        var m := IndexIn(all, es[pos.value], n);
        SortedAt(all, n, m);
      }
    }
    if pos.Some? {
      var m := IndexIn(all, es[pos.value], n);
      SortedAt(all, n, m);
    }
  }

  lemma ShownBackward(es: seq<Entry>, pos: Position, all: seq<Entry>, n: nat)
    requires Sorted(all) && Sorted(es) && StandsBefore(es, pos, all, n) && forall e :: e in es ==> e in all
    ensures n > 0 && all[n - 1] in es ==> pos.Some? && es[pos.value] == all[n - 1]
    ensures n > 0 && pos.Some? ==> es[pos.value] == all[n - 1] || Less(es[pos.value].key, all[n - 1].key)
    ensures n == 0 ==> pos.None?
  {
    if n > 0 && all[n - 1] in es {
      var j :| 0 <= j < |es| && es[j] == all[n - 1];
      var i := IndexIn(all, es[j], n);
      if pos.Some? && pos.value > j {
        assert Precedes(es[j].key, es[pos.value].key);
        var m := IndexIn(all, es[pos.value], n);
        SortedAt(all, m, n - 1);
      }
    }
    if pos.Some? {
      var m := IndexIn(all, es[pos.value], n);
      SortedAt(all, m, n - 1);
    }
  }

  /** A child without entry `n` sought to its key stands after it, on no equal key, and one step
      back stands before it. */
  lemma SeekAside(es: seq<Entry>, all: seq<Entry>, n: nat)
    requires Sorted(all) && Sorted(es) && n < |all| && all[n] !in es && forall e :: e in es ==> e in all
    ensures var k := SeekIndex(es, all[n].key);
            && StandsAfter(es, At(k, |es|), all, n)
            && StandsBefore(es, if k < |es| then Before(k) else Last(|es|), all, n)
            && (k < |es| ==> es[k].key != all[n].key)
  {
    var k := SeekIndex(es, all[n].key);
    SeekSplits(es, all, all[n].key);
    SeekStored(all, n);
    if k < |es| {
      var i := IndexIn(all, es[k], n);
      SortedAt(all, i, n);
      SortedAt(all, n, i);
    }
  }

  // ---- The iterator ----

  /** Children that keep to themselves, within a footprint. */
  ghost predicate Bounded(children: seq<IteratorWrapper>, footprint: set<object>, shared: set<object>)
    reads footprint, shared
  {
    && footprint !! shared
    && (forall i :: 0 <= i < |children| ==> BoundedChild(children[i], footprint, shared))
    && (forall i, j :: 0 <= i < j < |children| ==> BoundedChild(children[i], footprint, shared) && BoundedChild(children[j], footprint, shared)
                                                   && children[i].repr !! children[j].repr)
  }

  ghost predicate BoundedChild(c: IteratorWrapper, footprint: set<object>, shared: set<object>)
    reads footprint, shared
  {
    c in footprint && c in c.repr && c.repr <= footprint && c.shared <= shared && c.Ok()
  }

  class MergingIterator {
    const children: seq<IteratorWrapper>
    ghost const all: seq<Entry>
    var current: Option<nat>
    var direction: Direction
    /** Where the iterator stands in the union. */
    ghost var place: nat
    /** What the children may change, and what they only read. */
    ghost var footprint: set<object>
    ghost const shared: set<object>

    ghost function Lists(): seq<seq<Entry>> {
      seq(|children|, i requires 0 <= i < |children| => children[i].entries)
    }

    ghost predicate Apart() {
      && (forall i, j :: 0 <= i < j < |children| ==> children[i] != children[j])
      && Merges(all, Lists())
    }

    /** Every child stands at cut `n` in direction `d`. */
    ghost predicate AllStand(d: Direction, n: nat)
      reads children
    {
      forall i :: 0 <= i < |children| ==> Stands(d, children[i].entries, children[i].pos, all, n)
    }

    /** The children are good, and none touches what belongs to another or to this iterator. */
    ghost predicate ChildrenOk()
      reads `footprint, footprint, shared
    {
      this !in footprint && this !in shared && Bounded(children, footprint, shared)
    }

    /** What the children show. */
    ghost predicate Shown()
      reads children
    {
      forall i :: 0 <= i < |children| ==> children[i].Shows()
    }

    lemma ChildrenFacts()
      requires ChildrenOk()
      ensures Shown() && this !in footprint && this !in shared
      ensures forall i :: 0 <= i < |children| ==> children[i] in footprint
    {
      forall i | 0 <= i < |children| ensures children[i].Shows() && children[i] in footprint {
        assert BoundedChild(children[i], footprint, shared);
      }
    }

    ghost predicate Ok()
      reads this, footprint, shared
    {
      ChildrenOk() && InFootprint() && Placed(direction)
    }

    ghost predicate InFootprint()
      reads this
    {
      forall i :: 0 <= i < |children| ==> children[i] in footprint
    }

    /** One child does one thing. */
    method Move(i: nat, m: Motion)
      requires ChildrenOk() && i < |children| && (m.Forth? || m.Back? ==> children[i].valid)
      modifies footprint, `footprint
      ensures ChildrenOk() && fresh(footprint - old(footprint)) && old(footprint) <= footprint
      ensures (m.Forth? || m.Back? ==> old(children[i].pos).Some?) && children[i].pos == Moved(old(children[i].pos), m, children[i].entries)
      ensures forall j :: 0 <= j < |children| && j != i ==> children[j].pos == old(children[j].pos)
    {
      hide Wrapper.IteratorWrapper.Ok, Moved;
      var child := children[i];
      ChildrenFacts();
      assert BoundedChild(child, footprint, shared);
      child.Do(m);
      child.OkFacts();
      footprint := footprint + child.repr;
      forall j | 0 <= j < |children| && j != i ensures BoundedChild(children[j], footprint, shared) && children[j].pos == old(children[j].pos) && children[j].repr == old(children[j].repr) {
        assert old(BoundedChild(children[j], footprint, shared)) && old(children[j].repr) !! old(child.repr);
      }
      assert footprint !! shared;
      assert this !in footprint;
    }

    ghost predicate Placed(d: Direction)
      reads this, children
    {
      && Apart()
      && (current.Some? ==>
            && current.value < |children| && place < |all|
            && children[current.value].pos.Some? && children[current.value].pos.value < |children[current.value].entries|
            && children[current.value].entries[children[current.value].pos.value] == all[place]
            && AllStand(d, if d.Forward? then place else place + 1))
    }

    ghost function Place(): Position
      reads this
    {
      if current.Some? then Some(place) else None
    }

    /** What users of the iterator know of it. */
    lemma OkFacts()
      requires Ok()
      ensures Sorted(all) && Within(Place(), |all|)
    {
    }

    constructor (children: seq<IteratorWrapper>, ghost all: seq<Entry>, ghost footprint: set<object>, ghost shared: set<object>)
      requires forall i, j :: 0 <= i < j < |children| ==> children[i] != children[j]
      requires Merges(all, seq(|children|, i requires 0 <= i < |children| => children[i].entries))
      requires Bounded(children, footprint, shared)
      ensures Ok() && current.None? && this.children == children && this.all == all && this.footprint == footprint && this.shared == shared
    {
      this.children, this.all, this.footprint, this.shared := children, all, footprint, shared;
      current, direction := None, Forward;
      new;
      hide Wrapper.IteratorWrapper.Ok, Merges, Sorted;
    }

    predicate Valid()
      reads this
    {
      current.Some?
    }

    function Key(): (k: InternalKey)
      requires Ok() && Valid()
      reads this, footprint, shared
      ensures k == all[Place().value].key
    {
      children[current.value].key
    }

    function Value(): (x: Bytes)
      requires Ok() && Valid()
      reads this, footprint, shared
      ensures x == all[Place().value].value
    {
      children[current.value].Value()
    }

    /** The facts about one child. */
    lemma ChildFacts(i: nat)
      requires Apart() && i < |children|
      ensures Sorted(all) && Sorted(children[i].entries)
      ensures forall e :: e in children[i].entries ==> e in all
    {
      assert Lists()[i] == children[i].entries;
    }

    lemma Holder(n: nat) returns (i: nat)
      requires Apart() && n < |all|
      ensures i < |children| && all[n] in children[i].entries
    {
      assert all[n] in all;
      i :| 0 <= i < |Lists()| && all[n] in Lists()[i];
    }

    lemma OnlyHolder(n: nat, c: nat, i: nat)
      requires Apart() && n < |all| && c < |children| && i < |children| && i != c && all[n] in children[c].entries
      ensures all[n] !in children[i].entries
    {
      assert Lists()[i] == children[i].entries && Lists()[c] == children[c].entries;
    }

    lemma Distinct()
      requires Apart()
      ensures forall i, j :: 0 <= i < j < |children| ==> children[i] != children[j]
    {
    }

    method FindSmallest(ghost n: nat)
      requires Apart() && n <= |all| && AllStand(Forward, n)
      requires ChildrenOk()
      modifies `current, `place
      ensures ChildrenOk() && Placed(Forward) && Place() == At(n, |all|)
    {
      hide Apart, Sorted, StandsAfter, ChildrenOk;
      ChildrenFacts();
      var smallest: Option<nat> := None;
      for i := 0 to |children|
        invariant smallest.Some? ==> smallest.value < i && children[smallest.value].valid
        invariant forall j :: 0 <= j < i && children[j].valid ==>
                    smallest.Some? && !Less(children[j].key, children[smallest.value].key)
      {
        var child := children[i];
        if child.valid {
          if smallest.None? {
            smallest := Some(i);
          } else if Less(child.key, children[smallest.value].key) {
            smallest := Some(i);
          }
        }
      }
      forall i | 0 <= i < |children|
        ensures n == |all| ==> !children[i].valid
        ensures n < |all| && children[i].valid ==> children[i].entries[children[i].pos.value] == all[n] || Less(all[n].key, children[i].key)
        ensures n < |all| && all[n] in children[i].entries ==> children[i].valid && children[i].key == all[n].key
      {
        ChildFacts(i);
        assert Stands(Forward, children[i].entries, children[i].pos, all, n);
        ShownForward(children[i].entries, children[i].pos, all, n);
      }
      if n < |all| {
        var h := Holder(n);
        assert children[h].valid;
        assert children[smallest.value].entries[children[smallest.value].pos.value] == all[n];
      }
      place := n;
      current := smallest;
    }

    method FindLargest(ghost n: nat)
      requires Apart() && n <= |all| && AllStand(Reverse, n)
      requires ChildrenOk()
      modifies `current, `place
      ensures ChildrenOk() && Placed(Reverse) && Place() == Before(n)
    {
      hide Apart, Sorted, StandsBefore, ChildrenOk;
      ChildrenFacts();
      var largest: Option<nat> := None;
      for i := |children| downto 0
        invariant largest.Some? ==> i <= largest.value < |children| && children[largest.value].valid
        invariant forall j :: i <= j < |children| && children[j].valid ==>
                    largest.Some? && !Less(children[largest.value].key, children[j].key)
      {
        var child := children[i];
        if child.valid {
          if largest.None? {
            largest := Some(i);
          } else if Less(children[largest.value].key, child.key) {
            largest := Some(i);
          }
        }
      }
      forall i | 0 <= i < |children|
        ensures n == 0 ==> !children[i].valid
        ensures n > 0 && children[i].valid ==> children[i].entries[children[i].pos.value] == all[n - 1] || Less(children[i].key, all[n - 1].key)
        ensures n > 0 && all[n - 1] in children[i].entries ==> children[i].valid && children[i].key == all[n - 1].key
      {
        ChildFacts(i);
        assert Stands(Reverse, children[i].entries, children[i].pos, all, n);
        ShownBackward(children[i].entries, children[i].pos, all, n);
      }
      if n > 0 {
        var h := Holder(n - 1);
        assert children[h].valid;
        assert children[largest.value].entries[children[largest.value].pos.value] == all[n - 1];
        place := n - 1;
      }
      current := largest;
    }

    /** How a child stands after one of the seeks. */
    lemma Sought(i: nat, target: InternalKey)
      requires Apart() && i < |children|
      ensures var es := children[i].entries;
              && StandsAfter(es, First(|es|), all, 0)
              && StandsBefore(es, Last(|es|), all, |all|)
              && StandsAfter(es, At(SeekIndex(es, target), |es|), all, SeekIndex(all, target))
    {
      ChildFacts(i);
      assert all[0..] == all && all[..|all|] == all;
      SeekSplits(children[i].entries, all, target);
    }

    method SeekToFirst()
      requires Ok()
      modifies this, footprint
      ensures fresh(footprint - old(footprint))
      ensures Ok() && Place() == First(|all|)
    {
      hide Apart, StandsAfter, StandsBefore, ChildrenOk;
      ChildrenFacts();
      for i := 0 to |children|
        invariant ChildrenOk() && fresh(footprint - old(footprint))
        invariant forall j :: 0 <= j < i ==> children[j].pos == First(|children[j].entries|)
      {
        Move(i, ToFirst);
      }
      forall i | 0 <= i < |children| ensures Stands(Forward, children[i].entries, children[i].pos, all, 0) {
        Sought(i, InternalKey(0, 0, ValueType.Value));
      }
      FindSmallest(0);
      ChildrenFacts();
      direction := Forward;
    }

    method SeekToLast()
      requires Ok()
      modifies this, footprint
      ensures fresh(footprint - old(footprint))
      ensures Ok() && Place() == Last(|all|)
    {
      hide Apart, StandsAfter, StandsBefore, ChildrenOk;
      ChildrenFacts();
      for i := 0 to |children|
        invariant ChildrenOk() && fresh(footprint - old(footprint))
        invariant forall j :: 0 <= j < i ==> children[j].pos == Last(|children[j].entries|)
      {
        Move(i, ToLast);
      }
      forall i | 0 <= i < |children| ensures Stands(Reverse, children[i].entries, children[i].pos, all, |all|) {
        Sought(i, InternalKey(0, 0, ValueType.Value));
      }
      FindLargest(|all|);
      ChildrenFacts();
      direction := Reverse;
    }

    method Seek(target: InternalKey)
      requires Ok()
      modifies this, footprint
      ensures fresh(footprint - old(footprint))
      ensures Ok() && Place() == At(SeekIndex(all, target), |all|)
    {
      hide Apart, StandsAfter, StandsBefore, ChildrenOk, Sorted;
      ChildrenFacts();
      for i := 0 to |children|
        invariant ChildrenOk() && fresh(footprint - old(footprint))
        invariant forall j :: 0 <= j < i ==> children[j].pos == At(SeekIndex(children[j].entries, target), |children[j].entries|)
      {
        Move(i, To(target));
      }
      forall i | 0 <= i < |children| ensures Stands(Forward, children[i].entries, children[i].pos, all, SeekIndex(all, target)) {
        Sought(i, target);
      }
      FindSmallest(SeekIndex(all, target));
      ChildrenFacts();
      direction := Forward;
    }

    /** A child other than the current one, sought to the current key. */
    lemma Aside(n: nat, c: nat, i: nat)
      requires Apart() && n < |all| && c < |children| && i < |children| && i != c && all[n] in children[c].entries
      ensures var es := children[i].entries;
              var k := SeekIndex(es, all[n].key);
              && StandsAfter(es, At(k, |es|), all, n)
              && StandsBefore(es, if k < |es| then Before(k) else Last(|es|), all, n)
              && (k < |es| ==> es[k].key != all[n].key)
    {
      ChildFacts(i);
      OnlyHolder(n, c, i);
      SeekAside(children[i].entries, all, n);
    }

    /** Passing entry `n`, held by child `c`, changes nothing for the other children. */
    lemma OthersPass(n: nat, c: nat, i: nat, pos: Position)
      requires Apart() && n < |all| && c < |children| && i < |children| && i != c && all[n] in children[c].entries
      ensures StandsAfter(children[i].entries, pos, all, n) <==> StandsAfter(children[i].entries, pos, all, n + 1)
      ensures StandsBefore(children[i].entries, pos, all, n) <==> StandsBefore(children[i].entries, pos, all, n + 1)
    {
      ChildFacts(i);
      OnlyHolder(n, c, i);
      CutMoves(children[i].entries, if pos.Some? then pos.value else |children[i].entries|, all, n);
      CutMoves(children[i].entries, if pos.Some? then pos.value + 1 else 0, all, n);
    }

    /** The current child one step on stands after entry `n`, one step back before it. */
    lemma CurrentPasses(n: nat, c: nat, k: nat)
      requires Apart() && n < |all| && c < |children| && k < |children[c].entries| && children[c].entries[k] == all[n]
      ensures StandsAfter(children[c].entries, After(k, |children[c].entries|), all, n + 1)
      ensures StandsBefore(children[c].entries, Before(k), all, n)
    {
      ChildFacts(c);
      HolderMoves(children[c].entries, k, all, n);
    }

    /** Turning round: the children other than the current one are positioned after its key. */
    method TurnForward(key: InternalKey, c: nat, ghost n: nat)
      requires Apart() && ChildrenOk() && c < |children| && n < |all| && key == all[n].key && all[n] in children[c].entries
      modifies footprint, `footprint
      ensures ChildrenOk() && fresh(footprint - old(footprint)) && old(footprint) <= footprint && children[c].pos == old(children[c].pos)
      ensures forall j :: 0 <= j < |children| && j != c ==> StandsAfter(children[j].entries, children[j].pos, all, n)
    {
      hide Apart, Sorted, StandsAfter, StandsBefore, ChildrenOk;
      ChildrenFacts();
      for i := 0 to |children|
        invariant ChildrenOk() && fresh(footprint - old(footprint)) && old(footprint) <= footprint
        invariant children[c].pos == old(children[c].pos)
        invariant forall j :: 0 <= j < i && j != c ==> StandsAfter(children[j].entries, children[j].pos, all, n)
      {
        if i != c {
          Move(i, To(key));
          ChildrenFacts();
          Aside(n, c, i);
          // No two children share a key, so there is no entry at the key to step over.
          if children[i].valid && children[i].key == key {
            assert false;
          }
        }
      }
    }

    /** Turning round: they are positioned before its key. */
    method TurnBack(key: InternalKey, c: nat, ghost n: nat)
      requires Apart() && ChildrenOk() && c < |children| && n < |all| && key == all[n].key && all[n] in children[c].entries
      modifies footprint, `footprint
      ensures ChildrenOk() && fresh(footprint - old(footprint)) && old(footprint) <= footprint && children[c].pos == old(children[c].pos)
      ensures forall j :: 0 <= j < |children| && j != c ==> StandsBefore(children[j].entries, children[j].pos, all, n)
    {
      hide Apart, Sorted, StandsAfter, StandsBefore, ChildrenOk;
      ChildrenFacts();
      for i := 0 to |children|
        invariant ChildrenOk() && fresh(footprint - old(footprint)) && old(footprint) <= footprint
        invariant children[c].pos == old(children[c].pos)
        invariant forall j :: 0 <= j < i && j != c ==> StandsBefore(children[j].entries, children[j].pos, all, n)
      {
        if i != c {
          Move(i, To(key));
          ChildrenFacts();
          Aside(n, c, i);
          if children[i].valid {
            Move(i, Back);
          } else {
            Move(i, ToLast);
          }
        }
      }
    }

    method Next()
      requires Ok() && Valid()
      modifies this, footprint
      ensures fresh(footprint - old(footprint))
      ensures Ok() && Place() == After(old(Place().value), |all|)
    {
      hide Apart, Sorted, StandsAfter, StandsBefore, ChildrenOk;
      ChildrenFacts();
      ghost var n := place;
      var c := current.value;
      if direction != Forward {
        TurnForward(Key(), c, n);
        direction := Forward;
      } else {
        assert forall j :: 0 <= j < |children| ==> Stands(Forward, children[j].entries, children[j].pos, all, n);
      }
      CurrentPasses(n, c, children[c].pos.value);
      ChildrenFacts();
      Move(c, Forth);
      ChildrenFacts();
      forall i | 0 <= i < |children| ensures Stands(Forward, children[i].entries, children[i].pos, all, n + 1) {
        if i != c {
          OthersPass(n, c, i, children[i].pos);
        }
      }
      FindSmallest(n + 1);
    }

    method Prev()
      requires Ok() && Valid()
      modifies this, footprint
      ensures fresh(footprint - old(footprint))
      ensures Ok() && Place() == Before(old(Place().value))
    {
      hide Apart, Sorted, StandsAfter, StandsBefore, ChildrenOk;
      ChildrenFacts();
      ghost var n := place;
      var c := current.value;
      if direction != Reverse {
        TurnBack(Key(), c, n);
        direction := Reverse;
      } else {
        forall j | 0 <= j < |children| && j != c ensures StandsBefore(children[j].entries, children[j].pos, all, n) {
          assert Stands(Reverse, children[j].entries, children[j].pos, all, n + 1);
          OthersPass(n, c, j, children[j].pos);
        }
      }
      CurrentPasses(n, c, children[c].pos.value);
      ChildrenFacts();
      Move(c, Back);
      ChildrenFacts();
      FindLargest(n);
    }
  }
}
