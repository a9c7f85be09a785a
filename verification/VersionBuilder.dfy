/** Version edits, the builder that accumulates them, and replay of a manifest. */
module VersionBuilder {
  import opened InternalKeys
  import opened Files

  /** Files dropped and added, each with its level; additions are in the order they were recorded. */
  datatype Edit = Edit(deleted: seq<(nat, nat)>, added: seq<(nat, File)>)

  ghost predicate ValidEdit(e: Edit) {
    && (forall p :: p in e.deleted ==> p.0 < NUM_LEVELS)
    && (forall p :: p in e.added ==> p.0 < NUM_LEVELS)
  }

  ghost predicate Adds(e: Edit, l: nat, f: File) {
    (l, f) in e.added
  }

  ghost predicate AddsNumber(e: Edit, l: nat, n: nat) {
    exists f :: Adds(e, l, f) && f.number == n
  }

  // ---- The builder ----

  /** Same position in a level's order. */
  predicate SameSlot(f: File, g: File) {
    f.smallest == g.smallest && f.number == g.number
  }

  /** Insertion into a sorted set: a file in an occupied slot is not inserted. */
  function InsertFile(fs: Level, f: File): (r: Level)
    requires SortedBySmallest(fs)
    ensures SortedBySmallest(r)
    ensures forall g :: g in r ==> g == f || g in fs
    ensures forall g :: g in fs ==> g in r
    ensures (forall g :: g in fs ==> !SameSlot(f, g) || f == g) ==> f in r
  {
    if fs == [] then [f]
    else if BySmallest(f, fs[0]) then [f] + fs
    else if SameSlot(f, fs[0]) then fs
    else
      var rest := InsertFile(fs[1..], f);
      assert forall i :: 0 <= i < |rest| ==> rest[i] == f || rest[i] in fs[1..];
      [fs[0]] + rest
  }

  /** Files of a level once `deleted` numbers are gone from base and additions together. */
  ghost predicate Saved(base: Level, deleted: set<nat>, added: Level, r: Level) {
    && SortedBySmallest(r)
    && (forall f :: f in r ==> (f in base || f in added) && f.number !in deleted)
    && (forall f :: (f in base || f in added) && f.number !in deleted ==> f in r)
  }

  /** Kept files of base and additions never compete for a slot. */
  ghost predicate Compatible(base: Level, deleted: set<nat>, added: Level) {
    forall f, g :: f in base && g in added && f.number !in deleted && g.number !in deleted ==> !SameSlot(f, g)
  }

  class Builder {
    const base: Version
    var deleted: seq<set<nat>>
    var added: seq<Level>

    ghost predicate Valid()
      reads this
    {
      && |deleted| == NUM_LEVELS && |added| == NUM_LEVELS
      && (forall l :: 0 <= l < NUM_LEVELS ==> SortedBySmallest(base[l]))
      && (forall l :: 0 <= l < NUM_LEVELS ==> SortedBySmallest(added[l]))
    }

    constructor (base: Version)
      requires forall l :: 0 <= l < NUM_LEVELS ==> SortedBySmallest(base[l])
      ensures Valid() && this.base == base
      ensures deleted == seq(NUM_LEVELS, _ => {}) && added == seq(NUM_LEVELS, _ => [])
    {
      this.base := base;
      deleted := seq(NUM_LEVELS, _ => {});
      added := seq(NUM_LEVELS, _ => []);
    }

    /** Takes in one edit: first its deletions, then its additions, each of which undoes a deletion
        of its number. */
    method Apply(e: Edit)
      requires Valid() && ValidEdit(e)
      modifies this
      ensures Valid()
      ensures forall l: nat :: l < NUM_LEVELS ==> deleted[l] == DeletedBy(old(deleted[l]), e, l)
      ensures forall l: nat :: l < NUM_LEVELS ==> added[l] == AddedBy(old(added[l]), e, l)
    {
      for i := 0 to |e.deleted|
        invariant Valid() && added == old(added)
        invariant forall l: nat :: l < NUM_LEVELS ==> deleted[l] == DeletionsBelow(old(deleted[l]), e, l, i)
      {
        var (level, number) := e.deleted[i];
        deleted := deleted[level := deleted[level] + {number}];
      }
      for i := 0 to |e.added|
        invariant Valid()
        invariant forall l: nat :: l < NUM_LEVELS ==>
                    deleted[l] == RevivedBelow(DeletionsBelow(old(deleted[l]), e, l, |e.deleted|), e, l, i)
        invariant forall l: nat :: l < NUM_LEVELS ==> added[l] == AddedBelow(old(added[l]), e, l, i)
      {
        var (level, f) := e.added[i];
        deleted := deleted[level := deleted[level] - {f.number}];
        added := added[level := InsertFile(added[level], f)];
      }
    }

    /** Merges base and additions of every level in order, leaving out deleted numbers. */
    method SaveTo() returns (v: Version)
      requires Valid()
      requires forall l: nat :: l < NUM_LEVELS ==> Compatible(base[l], deleted[l], added[l])
      ensures forall l: nat :: l < NUM_LEVELS ==> Saved(base[l], deleted[l], added[l], v[l])
    {
      v := [[], [], [], [], [], [], []];
      for level := 0 to NUM_LEVELS
        invariant forall l: nat :: l < level ==> Saved(base[l], deleted[l], added[l], v[l])
      {
        var files := MergeLevel(base[level], deleted[level], added[level]);
        v := v[level := files];
      }
    }
  }

  ghost function DeletionsBelow(d: set<nat>, e: Edit, l: nat, n: nat): set<nat>
    requires n <= |e.deleted|
  {
    if n == 0 then d
    else DeletionsBelow(d, e, l, n - 1) + (if e.deleted[n - 1].0 == l then {e.deleted[n - 1].1} else {})
  }

  ghost function RevivedBelow(d: set<nat>, e: Edit, l: nat, n: nat): set<nat>
    requires n <= |e.added|
  {
    if n == 0 then d
    else RevivedBelow(d, e, l, n - 1) - (if e.added[n - 1].0 == l then {e.added[n - 1].1.number} else {})
  }

  ghost function DeletedBy(d: set<nat>, e: Edit, l: nat): set<nat> {
    RevivedBelow(DeletionsBelow(d, e, l, |e.deleted|), e, l, |e.added|)
  }

  ghost function AddedBelow(a: Level, e: Edit, l: nat, n: nat): (r: Level)
    requires SortedBySmallest(a) && n <= |e.added|
    ensures SortedBySmallest(r)
  {
    if n == 0 then a
    else if e.added[n - 1].0 == l then InsertFile(AddedBelow(a, e, l, n - 1), e.added[n - 1].1)
    else AddedBelow(a, e, l, n - 1)
  }

  ghost function AddedBy(a: Level, e: Edit, l: nat): (r: Level)
    requires SortedBySmallest(a)
    ensures SortedBySmallest(r)
  {
    AddedBelow(a, e, l, |e.added|)
  }

  /** First index from `i` on whose file comes after `f`. */
  method UpperBound(base: Level, i: nat, f: File) returns (j: nat)
    requires SortedBySmallest(base) && i <= |base|
    ensures i <= j <= |base|
    ensures forall k :: i <= k < j ==> !BySmallest(f, base[k])
    ensures forall k :: j <= k < |base| ==> BySmallest(f, base[k])
  {
    j := i;
    while j < |base| && !BySmallest(f, base[j])
      invariant i <= j <= |base|
      invariant forall k :: i <= k < j ==> !BySmallest(f, base[k])
    {
      j := j + 1;
    }
  }

  /** Where the merge stands: base up to `i` and additions up to `n` are in, and all of that comes
      before what is left. */
  ghost predicate Merging(base: Level, deleted: set<nat>, added: Level, r: Level, i: nat, n: nat) {
    && i <= |base| && n <= |added|
    && Saved(base[..i], deleted, added[..n], r)
    && (forall f, k :: f in r && i <= k < |base| && base[k].number !in deleted ==> BySmallest(f, base[k]))
    && (forall f, k :: f in r && n <= k < |added| && added[k].number !in deleted ==> BySmallest(f, added[k]))
  }

  /** Appending a file that comes after everything saved so far. */
  lemma SavedAppend(base: Level, deleted: set<nat>, added: Level, r: Level, f: File, base': Level, added': Level)
    requires Saved(base, deleted, added, r)
    requires f.number !in deleted ==> forall g :: g in r ==> BySmallest(g, f)
    requires (base' == base + [f] && added' == added) || (base' == base && added' == added + [f])
    ensures Saved(base', deleted, added', if f.number in deleted then r else r + [f])
  {
    assert forall g :: g in base' || g in added' <==> g in base || g in added || g == f;
    if f.number !in deleted {
      var r' := r + [f];
      assert forall g :: g in r' <==> g in r || g == f;
      assert forall i :: 0 <= i < |r| ==> r[i] in r;
    }
  }

  lemma MergeTakesBase(base: Level, deleted: set<nat>, added: Level, r: Level, i: nat, n: nat)
    requires SortedBySmallest(base) && SortedBySmallest(added) && Compatible(base, deleted, added)
    requires Merging(base, deleted, added, r, i, n) && i < |base|
    requires forall k :: n <= k < |added| ==> !BySmallest(added[k], base[i])
    ensures Merging(base, deleted, added, if base[i].number in deleted then r else r + [base[i]], i + 1, n)
  {
    hide Saved;
    var f := base[i];
    var r' := if f.number in deleted then r else r + [f];
    assert base[..i + 1] == base[..i] + [f];
    SavedAppend(base[..i], deleted, added[..n], r, f, base[..i + 1], added[..n]);
    assert forall g :: g in r' ==> g in r || (g == f && f.number !in deleted);
    forall k | n <= k < |added| && added[k].number !in deleted && f.number !in deleted ensures BySmallest(f, added[k]) {
      assert !BySmallest(added[k], f) && !SameSlot(f, added[k]);
    }
  }

  lemma MergeTakesAdded(base: Level, deleted: set<nat>, added: Level, r: Level, i: nat, n: nat)
    requires SortedBySmallest(base) && SortedBySmallest(added) && Compatible(base, deleted, added)
    requires Merging(base, deleted, added, r, i, n) && n < |added|
    requires forall k :: i <= k < |base| ==> BySmallest(added[n], base[k])
    ensures Merging(base, deleted, added, if added[n].number in deleted then r else r + [added[n]], i, n + 1)
  {
    hide Saved;
    var f := added[n];
    var r' := if f.number in deleted then r else r + [f];
    assert added[..n + 1] == added[..n] + [f];
    SavedAppend(base[..i], deleted, added[..n], r, f, base[..i], added[..n + 1]);
    assert forall g :: g in r' ==> g in r || (g == f && f.number !in deleted);
  }

  method MergeLevel(base: Level, deleted: set<nat>, added: Level) returns (r: Level)
    requires SortedBySmallest(base) && SortedBySmallest(added) && Compatible(base, deleted, added)
    ensures Saved(base, deleted, added, r)
  {
    hide Saved;
    hide Compatible;
    hide Merging;
    r := [];
    var i := 0;
    assert Merging(base, deleted, added, r, 0, 0) by { MergeStart(base, deleted, added); }
    for n := 0 to |added|
      invariant i <= |base| && Merging(base, deleted, added, r, i, n)
    {
      var bpos := UpperBound(base, i, added[n]);
      while i < bpos
        invariant i <= bpos && Merging(base, deleted, added, r, i, n)
      {
        assert forall k :: n < k < |added| ==> BySmallest(added[n], added[k]);
        MergeTakesBase(base, deleted, added, r, i, n);
        if base[i].number !in deleted {
          r := r + [base[i]];
        }
        i := i + 1;
      }
      MergeTakesAdded(base, deleted, added, r, i, n);
      if added[n].number !in deleted {
        r := r + [added[n]];
      }
    }
    while i < |base|
      invariant i <= |base| && Merging(base, deleted, added, r, i, |added|)
    {
      MergeTakesBase(base, deleted, added, r, i, |added|);
      if base[i].number !in deleted {
        r := r + [base[i]];
      }
      i := i + 1;
    }
    MergeDone(base, deleted, added, r);
  }

  lemma MergeStart(base: Level, deleted: set<nat>, added: Level)
    ensures Merging(base, deleted, added, [], 0, 0)
  {
  }

  lemma MergeDone(base: Level, deleted: set<nat>, added: Level, r: Level)
    requires Merging(base, deleted, added, r, |base|, |added|)
    ensures Saved(base, deleted, added, r)
  {
    assert base[..|base|] == base && added[..|added|] == added;
  }
}
