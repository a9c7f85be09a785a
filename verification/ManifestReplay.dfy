/** Replaying a manifest: one builder fed every edit saves what saving after each edit gave. */
module ManifestReplay {
  import opened InternalKeys
  import opened Files
  import opened VersionBuilder

  ghost predicate HasNumber(fs: Level, n: nat) {
    exists f :: f in fs && f.number == n
  }

  /** Two edits never add the same file number to the same level, and neither does one edit twice. */
  ghost predicate NeverReadded(base: Version, es: seq<Edit>) {
    && (forall i, l: nat, f :: 0 <= i < |es| && l < NUM_LEVELS && Adds(es[i], l, f) ==> !HasNumber(base[l], f.number))
    && (forall i, j, l: nat, f, g :: 0 <= i < j < |es| && Adds(es[i], l, f) && Adds(es[j], l, g) ==> f.number != g.number)
    && (forall i :: 0 <= i < |es| ==> DistinctAdds(es[i]))
  }

  ghost predicate DistinctAdds(e: Edit) {
    forall a, b :: 0 <= a < b < |e.added| && e.added[a].0 == e.added[b].0 ==> e.added[a].1.number != e.added[b].1.number
  }

  /** What the builder has accumulated for a level after the first `n` edits. */
  ghost function DeletedAfter(es: seq<Edit>, n: nat, l: nat): set<nat>
    requires n <= |es|
  {
    if n == 0 then {} else DeletedBy(DeletedAfter(es, n - 1, l), es[n - 1], l)
  }

  ghost function AddedAfter(es: seq<Edit>, n: nat, l: nat): (r: Level)
    requires n <= |es|
    ensures SortedBySmallest(r)
  {
    if n == 0 then [] else AddedBy(AddedAfter(es, n - 1, l), es[n - 1], l)
  }

  /** `after` is the version one edit makes of `before` through a fresh builder. */
  ghost predicate Applied(before: Version, e: Edit, after: Version) {
    forall l: nat :: l < NUM_LEVELS ==> Saved(before[l], DeletedBy({}, e, l), AddedBy([], e, l), after[l])
  }

  // ---- Membership ----

  lemma {:induction false} DeletionsBelowAre(d: set<nat>, e: Edit, l: nat, n: nat, x: nat)
    requires n <= |e.deleted|
    ensures x in DeletionsBelow(d, e, l, n) <==> x in d || (l, x) in e.deleted[..n]
  {
    if n > 0 {
      DeletionsBelowAre(d, e, l, n - 1, x);
      assert e.deleted[..n] == e.deleted[..n - 1] + [e.deleted[n - 1]];
    }
  }

  lemma {:induction false} RevivedBelowAre(d: set<nat>, e: Edit, l: nat, n: nat, x: nat)
    requires n <= |e.added|
    ensures x in RevivedBelow(d, e, l, n) <==>
            x in d && forall i :: 0 <= i < n && e.added[i].0 == l ==> e.added[i].1.number != x
  {
    if n > 0 {
      RevivedBelowAre(d, e, l, n - 1, x);
    }
  }

  lemma DeletedByIs(d: set<nat>, e: Edit, l: nat, x: nat)
    ensures x in DeletedBy(d, e, l) <==> (x in d || (l, x) in e.deleted) && !AddsNumber(e, l, x)
  {
    DeletionsBelowAre(d, e, l, |e.deleted|, x);
    assert e.deleted[..|e.deleted|] == e.deleted;
    RevivedBelowAre(DeletionsBelow(d, e, l, |e.deleted|), e, l, |e.added|, x);
    if i :| 0 <= i < |e.added| && e.added[i].0 == l && e.added[i].1.number == x {
      assert Adds(e, l, e.added[i].1);
    }
  }

  lemma {:induction false} AddedBelowIs(a: Level, e: Edit, l: nat, n: nat, f: File)
    requires SortedBySmallest(a) && n <= |e.added| && DistinctAdds(e)
    requires forall g :: Adds(e, l, g) ==> !HasNumber(a, g.number)
    ensures f in AddedBelow(a, e, l, n) <==> f in a || (l, f) in e.added[..n]
  {
    if n > 0 {
      AddedBelowIs(a, e, l, n - 1, f);
      var (m, g) := e.added[n - 1];
      assert e.added[..n] == e.added[..n - 1] + [(m, g)];
      if m == l {
        assert Adds(e, l, g);
        forall h | h in AddedBelow(a, e, l, n - 1) ensures h.number != g.number {
          AddedBelowIs(a, e, l, n - 1, h);
          if h !in a {
            var k :| 0 <= k < n - 1 && e.added[..n - 1][k] == (l, h);
            assert e.added[k] == (l, h);
          }
        }
      }
    }
  }

  lemma AddedByIs(a: Level, e: Edit, l: nat, f: File)
    requires SortedBySmallest(a) && DistinctAdds(e)
    requires forall g :: Adds(e, l, g) ==> !HasNumber(a, g.number)
    ensures f in AddedBy(a, e, l) <==> f in a || Adds(e, l, f)
  {
    AddedBelowIs(a, e, l, |e.added|, f);
    assert e.added[..|e.added|] == e.added;
  }

  lemma {:induction false} AddedAfterIs(base: Version, es: seq<Edit>, n: nat, l: nat, f: File)
    requires NeverReadded(base, es) && n <= |es| && l < NUM_LEVELS
    ensures f in AddedAfter(es, n, l) <==> exists i :: 0 <= i < n && Adds(es[i], l, f)
  {
    hide DistinctAdds;
    if n > 0 {
      AddedAfterIs(base, es, n - 1, l, f);
      forall g | Adds(es[n - 1], l, g) ensures !HasNumber(AddedAfter(es, n - 1, l), g.number) {
        FreshNumber(base, es, n - 1, l, g);
      }
      AddedByIs(AddedAfter(es, n - 1, l), es[n - 1], l, f);
    }
  }

  lemma {:induction false} FreshNumber(base: Version, es: seq<Edit>, n: nat, l: nat, g: File)
    requires NeverReadded(base, es) && n < |es| && l < NUM_LEVELS && Adds(es[n], l, g)
    ensures !HasNumber(AddedAfter(es, n, l), g.number)
    decreases n, 0
  {
    forall h | h in AddedAfter(es, n, l) ensures h.number != g.number {
      AddedSomewhere(es, n, l, h);
    }
  }

  lemma {:induction false} AddedSomewhere(es: seq<Edit>, n: nat, l: nat, h: File)
    requires n <= |es| && h in AddedAfter(es, n, l)
    ensures exists i :: 0 <= i < n && Adds(es[i], l, h)
  {
    AddedBelowFrom(AddedAfter(es, n - 1, l), es[n - 1], l, |es[n - 1].added|, h);
    if h in AddedAfter(es, n - 1, l) {
      AddedSomewhere(es, n - 1, l, h);
    }
  }

  lemma {:induction false} AddedBelowFrom(a: Level, e: Edit, l: nat, n: nat, h: File)
    requires SortedBySmallest(a) && n <= |e.added| && h in AddedBelow(a, e, l, n)
    ensures h in a || Adds(e, l, h)
  {
    if n > 0 {
      if h in AddedBelow(a, e, l, n - 1) {
        AddedBelowFrom(a, e, l, n - 1, h);
      } else {
        assert e.added[n - 1] == (l, h);
      }
    }
  }

  // ---- Uniqueness and replay ----

  lemma NonEmptyHasFile(r: Level)
    ensures r == [] || exists f :: f in r
  {
    if |r| > 0 {
      assert r[0] in r;
    }
  }

  /** A level's order and membership fix it. */
  lemma {:induction false} SortedUnique(r: Level, s: Level)
    requires SortedBySmallest(r) && SortedBySmallest(s) && forall f :: f in r <==> f in s
    ensures r == s
  {
    NonEmptyHasFile(r);
    NonEmptyHasFile(s);
    if r != [] && s != [] {
      assert r[0] in r && r[0] in s && s[0] in s && s[0] in r;
      assert r[0] == s[0];
      forall f | f in r[1..] ensures f in s[1..] {
        assert f in r && f != r[0];
      }
      forall f | f in s[1..] ensures f in r[1..] {
        assert f in s && f != s[0];
      }
      SortedUnique(r[1..], s[1..]);
    }
  }

  lemma SavedUnique(base: Level, deleted: set<nat>, added: Level, r: Level, s: Level)
    requires Saved(base, deleted, added, r) && Saved(base, deleted, added, s)
    ensures r == s
  {
    SortedUnique(r, s);
  }

  /** The files a level holds after each edit are the ones the builder's totals leave. */
  lemma {:induction false} ReplayLevel(es: seq<Edit>, vs: seq<Version>, n: nat, l: nat)
    requires |vs| == |es| + 1 && n <= |es| && l < NUM_LEVELS && SortedBySmallest(vs[0][l])
    requires NeverReadded(vs[0], es) && forall i :: 0 <= i < |es| ==> Applied(vs[i], es[i], vs[i + 1])
    ensures Saved(vs[0][l], DeletedAfter(es, n, l), AddedAfter(es, n, l), vs[n][l])
  {
    if n > 0 {
      ReplayLevel(es, vs, n - 1, l);
      var e := es[n - 1];
      assert Applied(vs[n - 1], e, vs[n]);
      assert Saved(vs[n - 1][l], DeletedBy({}, e, l), AddedBy([], e, l), vs[n][l]);
      forall f: File ensures f in vs[n][l] <==>
          (f in vs[0][l] || f in AddedAfter(es, n, l)) && f.number !in DeletedAfter(es, n, l)
      {
        ReplayFile(es, vs, n, l, f);
      }
    }
  }

  lemma ReplayFile(es: seq<Edit>, vs: seq<Version>, n: nat, l: nat, f: File)
    requires |vs| == |es| + 1 && 0 < n <= |es| && l < NUM_LEVELS
    requires NeverReadded(vs[0], es)
    requires Saved(vs[0][l], DeletedAfter(es, n - 1, l), AddedAfter(es, n - 1, l), vs[n - 1][l])
    requires Saved(vs[n - 1][l], DeletedBy({}, es[n - 1], l), AddedBy([], es[n - 1], l), vs[n][l])
    ensures f in vs[n][l] <==> (f in vs[0][l] || f in AddedAfter(es, n, l)) && f.number !in DeletedAfter(es, n, l)
  {
    var e := es[n - 1];
    assert DistinctAdds(e);
    hide DistinctAdds;
    DeletedByIs({}, e, l, f.number);
    DeletedByIs(DeletedAfter(es, n - 1, l), e, l, f.number);
    AddedByIs([], e, l, f);
    AddedAfterIs(vs[0], es, n, l, f);
    AddedAfterIs(vs[0], es, n - 1, l, f);
    if AddsNumber(e, l, f.number) {
      var g :| Adds(e, l, g) && g.number == f.number;
      assert !HasNumber(vs[0][l], g.number);
      FreshNumber(vs[0], es, n - 1, l, g);
    }
  }

  /** Replaying all edits through one builder, as recovery does, gives the version that applying and
      saving them one by one gave. */
  lemma ReplayIsStepwise(es: seq<Edit>, vs: seq<Version>, replayed: Version)
    requires |vs| == |es| + 1 && forall l: nat :: l < NUM_LEVELS ==> SortedBySmallest(vs[0][l])
    requires NeverReadded(vs[0], es) && forall i :: 0 <= i < |es| ==> Applied(vs[i], es[i], vs[i + 1])
    requires forall l: nat :: l < NUM_LEVELS ==>
               Saved(vs[0][l], DeletedAfter(es, |es|, l), AddedAfter(es, |es|, l), replayed[l])
    ensures replayed == vs[|es|]
  {
    forall l: nat | l < NUM_LEVELS ensures replayed[l] == vs[|es|][l] {
      ReplayLevel(es, vs, |es|, l);
      SavedUnique(vs[0][l], DeletedAfter(es, |es|, l), AddedAfter(es, |es|, l), replayed[l], vs[|es|][l]);
    }
  }

  /** Recovery of a version set: every edit goes into one builder, which is saved once. `vs` are the
      versions the edits made while the database was running. */
  method Recover(base: Version, es: seq<Edit>, ghost vs: seq<Version>) returns (v: Version)
    requires forall i :: 0 <= i < |es| ==> ValidEdit(es[i])
    requires |vs| == |es| + 1 && vs[0] == base && forall l: nat :: l < NUM_LEVELS ==> SortedBySmallest(base[l])
    requires NeverReadded(base, es) && forall i :: 0 <= i < |es| ==> Applied(vs[i], es[i], vs[i + 1])
    ensures v == vs[|es|]
  {
    hide NeverReadded;
    hide Applied;
    var builder := new Builder(base);
    for i := 0 to |es|
      invariant builder.Valid()
      invariant forall l: nat :: l < NUM_LEVELS ==> builder.deleted[l] == DeletedAfter(es, i, l)
      invariant forall l: nat :: l < NUM_LEVELS ==> builder.added[l] == AddedAfter(es, i, l)
    {
      builder.Apply(es[i]);
    }
    forall l: nat | l < NUM_LEVELS ensures Compatible(base[l], builder.deleted[l], builder.added[l]) {
      NeverReaddedCompatible(base, es, l);
    }
    v := builder.SaveTo();
    ReplayIsStepwise(es, vs, v);
  }

  lemma NeverReaddedCompatible(base: Version, es: seq<Edit>, l: nat)
    requires NeverReadded(base, es) && l < NUM_LEVELS
    ensures Compatible(base[l], DeletedAfter(es, |es|, l), AddedAfter(es, |es|, l))
  {
    forall f, g | f in base[l] && g in AddedAfter(es, |es|, l) ensures f.number != g.number {
      AddedAfterIs(base, es, |es|, l, g);
    }
  }
}
