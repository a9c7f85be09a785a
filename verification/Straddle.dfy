/** A run in which a compaction brings a deleted key back. */
module Straddle {
  import opened InternalKeys
  import opened Files
  import opened CompactionInputs
  import opened CompactionPick
  import opened CompactionInstall
  import opened CompactionWork
  import opened CompactionMeaning
  import opened VersionBuilder
  import opened ManifestReplay
  import opened Store
  import opened StoreMeaning

  function P(k: UserKey, n: Sequence): Entry {
    Entry(InternalKey(k, n, Value), [1])
  }

  function D(k: UserKey, n: Sequence): Entry {
    Entry(InternalKey(k, n, Deletion), [])
  }

  function Table(number: nat, es: seq<Entry>): (f: File)
    requires es != []
  {
    File(number, 1, es[0].key, es[|es| - 1].key, es)
  }

  const NOTHING: Version := [[], [], [], [], [], [], []]

  /** Key 5 is written, and deleted behind a snapshot; then key 4 is overwritten, and a compaction cuts its output
      between the tombstone of key 5 and the old value. With the snapshot gone and key 4 overwritten again, another
      compaction takes the first of the two tables only. */
  const flushed := Table(3, [P(4, 2), D(5, 3), P(5, 1)])
  const second := Table(5, [P(4, 4)])
  const near := Table(6, [P(4, 4), P(4, 2), D(5, 3)])
  const far := Table(7, [P(5, 1)])
  const third := Table(9, [P(4, 5)])
  const last := Table(10, [P(4, 5)])

  const v1 := NOTHING[2 := [flushed]]
  const v2 := v1[1 := [second]]
  const v3 := NOTHING[2 := [near, far]]
  const v4 := v3[1 := [third]]
  const v5 := NOTHING[2 := [last, far]]

  const c1 := Inputs(1, [second], [flushed], P(4, 4).key, P(4, 4).key, [])
  const c2 := Inputs(1, [third], [near], P(4, 5).key, P(4, 5).key, [])
  const m1 := [P(4, 4), P(4, 2), D(5, 3), P(5, 1)]
  const m2 := [P(4, 5), P(4, 4), P(4, 2), D(5, 3)]

  function Actions(): (r: seq<Action>)
    ensures |r| == 14
  {
    [Write([Op.Put(5, [1])]), TakeSnapshot, Write([Op.Put(4, [1]), Op.Delete(5)]), Switch, Flush(2, flushed),
     Write([Op.Put(4, [1])]), Switch, Flush(1, second), Compact(c1, m1, [near, far]),
     Release(0), Write([Op.Put(4, [1])]), Switch, Flush(1, third), Compact(c2, m2, [last])]
  }

  function States(): (r: seq<State>)
    ensures |r| == 15 && r[0] == Init()
  {
    [Init(),
     State([P(5, 1)], None, NOTHING, 1, [], 2),
     State([P(5, 1)], None, NOTHING, 1, [1], 2),
     State([P(4, 2), D(5, 3), P(5, 1)], None, NOTHING, 3, [1], 2),
     State([], Some([P(4, 2), D(5, 3), P(5, 1)]), NOTHING, 3, [1], 3),
     State([], None, v1, 3, [1], 4),
     State([P(4, 4)], None, v1, 4, [1], 4),
     State([], Some([P(4, 4)]), v1, 4, [1], 5),
     State([], None, v2, 4, [1], 6),
     State([], None, v3, 4, [1], 8),
     State([], None, v3, 4, [], 8),
     State([P(4, 5)], None, v3, 5, [], 8),
     State([], Some([P(4, 5)]), v3, 5, [], 9),
     State([], None, v4, 5, [], 10),
     State([], None, v5, 5, [], 11)]
  }

  // ---- Writes ----

  lemma FirstWrite()
    ensures WriteNext(States()[0], [Op.Put(5, [1])], States()[1])
  {
    assert InsertBatch([], [], 0) == [];
    assert InsertEntry([], P(5, 1)) == [P(5, 1)];
    assert [Op.Put(5, [1])][..0] == [];
  }

  lemma SecondWrite()
    ensures WriteNext(States()[2], [Op.Put(4, [1]), Op.Delete(5)], States()[3])
  {
    var ops := [Op.Put(4, [1]), Op.Delete(5)];
    assert ops[..1] == [Op.Put(4, [1])] && [Op.Put(4, [1])][..0] == [];
    assert InsertBatch([P(5, 1)], [], 1) == [P(5, 1)];
    assert InsertBatch([P(5, 1)], ops[..1], 1) == InsertEntry([P(5, 1)], P(4, 2)) == [P(4, 2), P(5, 1)];
    assert [P(4, 2), P(5, 1)][1..] == [P(5, 1)];
    assert InsertEntry([P(5, 1)], D(5, 3)) == [D(5, 3), P(5, 1)];
    assert InsertEntry([P(4, 2), P(5, 1)], D(5, 3)) == [P(4, 2), D(5, 3), P(5, 1)];
  }

  /** Key 4 alone in the memtable. */
  lemma LaterWrite(n: nat)
    requires n < 10
    ensures InsertBatch([], [Op.Put(4, [1])], n) == [P(4, n + 1)]
  {
    assert [Op.Put(4, [1])][..0] == [];
    assert InsertBatch([], [], n) == [];
  }

  // ---- Flushes and compactions ----

  /** A table put where there was none. */
  lemma PlacedAlone(v: Version, l: nat, f: File)
    requires l < NUM_LEVELS && v[l] == [] && forall m :: 0 <= m < NUM_LEVELS ==> SortedBySmallest(v[m])
    ensures Applied(v, Edit([], [(l, f)]), v[l := [f]])
  {
    var e := Edit([], [(l, f)]);
    var v' := v[l := [f]];
    forall m: nat | m < NUM_LEVELS ensures Saved(v[m], DeletedBy({}, e, m), AddedBy([], e, m), v'[m]) {
      AddedOne(l, f, m);
    }
  }

  lemma AddedOne(l: nat, f: File, m: nat)
    ensures var e := Edit([], [(l, f)]); DeletedBy({}, e, m) == {} && AddedBy([], e, m) == if m == l then [f] else []
  {
    var e := Edit([], [(l, f)]);
    assert DeletionsBelow({}, e, m, 0) == {};
    assert RevivedBelow({}, e, m, 0) == {};
    assert AddedBelow([], e, m, 0) == [];
    assert InsertFile([], f) == [f];
  }

  /** What a compaction installs is what its edit makes of the version. */
  lemma InstallApplies(v: Version, c: Inputs, outs: Level, v': Version, n: nat)
    requires GoodInputs(v, c) && UniqueNumbers(v, n) && NumberedFrom(outs, n) && Installed(v, c, outs, v')
    ensures Applied(v, CompactionEdit(c, outs), v')
  {
    var e := CompactionEdit(c, outs);
    assert DistinctAdds(e);
    forall l: nat | l < NUM_LEVELS ensures Saved(v[l], DeletedBy({}, e, l), AddedBy([], e, l), v'[l]) {
      forall f ensures f in v'[l] <==> (f in v[l] || f in AddedBy([], e, l)) && f.number !in DeletedBy({}, e, l) {
        InstallAppliesFile(v, c, outs, v', n, l, f);
      }
    }
  }

  lemma InstallAppliesFile(v: Version, c: Inputs, outs: Level, v': Version, n: nat, l: nat, f: File)
    requires GoodInputs(v, c) && UniqueNumbers(v, n) && NumberedFrom(outs, n) && Installed(v, c, outs, v') && l < NUM_LEVELS
    requires DistinctAdds(CompactionEdit(c, outs))
    ensures var e := CompactionEdit(c, outs);
            f in v'[l] <==> (f in v[l] || f in AddedBy([], e, l)) && f.number !in DeletedBy({}, e, l)
  {
    hide GoodInputs, UniqueNumbers, DistinctAdds, CompactionEdit;
    var e := CompactionEdit(c, outs);
    DeletedByIs({}, e, l, f.number);
    AddedByIs([], e, l, f);
    CompactionEditAdds(c, outs, l, f);
    if f in v[l] {
      CompactionEditDeletes(v, c, outs, n, l, f);
      NumberNew(v, n, l, f, outs);
      if AddsNumber(e, l, f.number) {
        var g :| Adds(e, l, g) && g.number == f.number;
        CompactionEditAdds(c, outs, l, g);
      }
    }
    assert f in v'[l] <==> Belongs(v, c, outs, l, f);
    if l == c.level + 1 && f in outs {
      assert AddsNumber(e, l, f.number);
    }
  }

  lemma NumberNew(v: Version, n: nat, l: nat, f: File, outs: Level)
    requires UniqueNumbers(v, n) && NumberedFrom(outs, n) && l < NUM_LEVELS && f in v[l]
    ensures forall o :: o in outs ==> o.number > f.number
  {
  }

  lemma LevelsOf(v: Version, l: nat)
    requires v in {NOTHING, v1, v2, v3, v4, v5} && l < NUM_LEVELS
    ensures v[l] == if l == 1 then (if v == v2 then [second] else if v == v4 then [third] else [])
                    else if l != 2 || v == NOTHING then []
                    else if v == v1 || v == v2 then [flushed] else if v == v5 then [last, far] else [near, far]
    ensures SortedBySmallest(v[l])
  {
  }

  lemma AllSorted(v: Version)
    requires v in {NOTHING, v1, v2, v3, v4, v5}
    ensures forall l :: 0 <= l < NUM_LEVELS ==> SortedBySmallest(v[l])
  {
    hide SortedBySmallest;
    forall l | 0 <= l < NUM_LEVELS ensures SortedBySmallest(v[l]) {
      LevelsOf(v, l);
    }
  }

  lemma FlushAlone(s: State, l: nat, f: File, es: seq<Entry>)
    requires s.version in {NOTHING, v1, v3} && s.imm == Some(es) && es != [] && Sorted(es) && f == Table(s.nextFile, es)
    requires (l == 2 && s.version == NOTHING) || (l == 1 && (s.version == v1 || s.version == v3))
    ensures FlushNext(s, l, f, s.(imm := None, version := s.version[l := [f]], nextFile := s.nextFile + 1))
  {
    AllSorted(s.version);
    forall m: nat | m <= l ensures s.version[m] == [] {
      LevelsOf(s.version, m);
    }
    PlacedAlone(s.version, l, f);
    hide Applied, SortedBySmallest;
    assert ValidFile(f);
  }

  // The first compaction.

  lemma FirstPicked()
    ensures GoodInputs(v2, c1)
  {
    var lo, hi := Some(4), Some(4);
    assert v2[1] == [second] && v2[2] == [flushed] && second in c1.upper;
    assert [flushed][..0] == [];
    assert Overlapping([], lo, hi) == [];
    assert Overlapping([flushed], lo, hi) == [flushed];
  }

  lemma FirstMerged()
    ensures Merged(c1, m1)
  {
    forall e ensures e in m1 <==> InInputs(c1, e) {
      assert second in c1.upper && flushed in c1.lower;
      assert second.entries == [P(4, 4)] && flushed.entries == [P(4, 2), D(5, 3), P(5, 1)];
      assert forall f :: f in c1.upper ==> f == second;
      assert forall f :: f in c1.lower ==> f == flushed;
      assert m1[0] == P(4, 4) && m1[1] == P(4, 2) && m1[2] == D(5, 3) && m1[3] == P(5, 1);
    }
  }

  lemma FirstKeepsAll()
    ensures Survivors(v2, 1, m1, 4, 1) == m1
  {
    assert Survivors(v2, 1, m1, 0, 1) == [];
    assert Survivors(v2, 1, m1, 1, 1) == [P(4, 4)];
    assert Survivors(v2, 1, m1, 2, 1) == [P(4, 4), P(4, 2)];
    assert Survivors(v2, 1, m1, 3, 1) == [P(4, 4), P(4, 2), D(5, 3)];
  }

  lemma FirstWritten()
    ensures Written(v2, c1, m1, 1, [near, far])
  {
    FirstKeepsAll();
    FirstMerged();
    var outs := [near, far];
    assert ValidFile(near) && ValidFile(far);
    assert near in outs && far in outs;
    assert near.entries[0] == P(4, 4) && near.entries[1] == P(4, 2) && near.entries[2] == D(5, 3) && far.entries[0] == P(5, 1);
    forall e ensures InFiles(e, outs) <==> e in m1 {
      assert m1[0] == P(4, 4) && m1[1] == P(4, 2) && m1[2] == D(5, 3) && m1[3] == P(5, 1);
    }
    forall f, e | f in outs && e in f.entries ensures InInputs(c1, e) {
      assert InFiles(e, outs);
      assert e in m1;
    }
  }

  lemma FirstInstalled()
    ensures Installed(v2, c1, [near, far], v3)
  {
    AllSorted(v3);
    hide SortedBySmallest;
    forall l: nat, f | l < NUM_LEVELS ensures f in v3[l] <==> Belongs(v2, c1, [near, far], l, f) {
      LevelsOf(v2, l);
      LevelsOf(v3, l);
    }
  }

  lemma FirstNumbers()
    ensures UniqueNumbers(v2, 6)
  {
    forall l: nat, f | l < NUM_LEVELS && f in v2[l] ensures (l == 1 && f == second) || (l == 2 && f == flushed) {
      LevelsOf(v2, l);
    }
  }

  lemma FirstCompaction()
    ensures CompactNext(States()[8], c1, m1, [near, far], States()[9])
  {
    FirstPicked();
    FirstMerged();
    FirstWritten();
    FirstInstalled();
    FirstNumbers();
    hide GoodInputs, Merged, Written, Installed, UniqueNumbers, Applied;
    InstallApplies(v2, c1, [near, far], v3, 6);
  }

  // The second compaction.

  lemma SecondPicked()
    ensures GoodInputs(v4, c2)
  {
    var lo, hi := Some(4), Some(4);
    assert v4[1] == [third] && v4[2] == [near, far] && third in c2.upper;
    assert [near, far][..1] == [near] && [near][..0] == [];
    assert Overlapping([], lo, hi) == [];
    assert Overlapping([near], lo, hi) == [near];
    assert Overlapping([near, far], lo, hi) == [near];
  }

  lemma SecondMerged()
    ensures Merged(c2, m2)
  {
    forall e ensures e in m2 <==> InInputs(c2, e) {
      assert third in c2.upper && near in c2.lower;
      assert third.entries == [P(4, 5)] && near.entries == [P(4, 4), P(4, 2), D(5, 3)];
      assert forall f :: f in c2.upper ==> f == third;
      assert forall f :: f in c2.lower ==> f == near;
      assert m2[0] == P(4, 5) && m2[1] == P(4, 4) && m2[2] == P(4, 2) && m2[3] == D(5, 3);
    }
  }

  lemma SecondKeepsOne()
    ensures Survivors(v4, 1, m2, 4, 5) == [P(4, 5)]
  {
    forall l: nat | 3 <= l < NUM_LEVELS ensures v4[l] == [] {
      LevelsOf(v4, l);
    }
    assert IsBaseLevel(v4, 1, 5);
    assert Survivors(v4, 1, m2, 0, 5) == [];
    assert Survivors(v4, 1, m2, 1, 5) == [P(4, 5)];
    assert Survivors(v4, 1, m2, 2, 5) == [P(4, 5)];
    assert Survivors(v4, 1, m2, 3, 5) == [P(4, 5)];
  }

  lemma SecondWritten()
    ensures Written(v4, c2, m2, 5, [last])
  {
    SecondKeepsOne();
    SecondMerged();
    var outs := [last];
    assert ValidFile(last);
    assert last in outs && last.entries == [P(4, 5)];
    assert m2[0] == P(4, 5);
    forall e ensures InFiles(e, outs) <==> e == P(4, 5) {
    }
  }

  lemma SecondInstalled()
    ensures Installed(v4, c2, [last], v5)
  {
    AllSorted(v5);
    hide SortedBySmallest;
    forall l: nat, f | l < NUM_LEVELS ensures f in v5[l] <==> Belongs(v4, c2, [last], l, f) {
      LevelsOf(v4, l);
      LevelsOf(v5, l);
    }
  }

  lemma SecondNumbers()
    ensures UniqueNumbers(v4, 10)
  {
    forall l: nat, f | l < NUM_LEVELS && f in v4[l] ensures (l == 1 && f == third) || (l == 2 && (f == near || f == far)) {
      LevelsOf(v4, l);
    }
  }

  lemma SecondCompaction()
    ensures CompactNext(States()[13], c2, m2, [last], States()[14])
  {
    SecondPicked();
    SecondMerged();
    SecondWritten();
    SecondInstalled();
    SecondNumbers();
    hide GoodInputs, Merged, Written, Installed, UniqueNumbers, Applied;
    InstallApplies(v4, c2, [last], v5, 10);
  }

  // ---- The run ----

  lemma FirstSteps()
    ensures var ss, a := States(), Actions(); Next(ss[0], a[0], ss[1]) && Next(ss[1], a[1], ss[2]) && Next(ss[2], a[2], ss[3]) && Next(ss[3], a[3], ss[4])
  {
    FirstWrite();
    SecondWrite();
    hide InsertBatch;
  }

  lemma FlushStep()
    ensures Next(States()[4], Actions()[4], States()[5])
  {
    FlushAlone(States()[4], 2, flushed, [P(4, 2), D(5, 3), P(5, 1)]);
    hide FlushNext;
  }

  lemma SecondSteps()
    ensures var ss, a := States(), Actions(); Next(ss[5], a[5], ss[6]) && Next(ss[6], a[6], ss[7]) && Next(ss[9], a[9], ss[10])
  {
    LaterWrite(3);
    hide InsertBatch;
    assert [1][..0] + [1][0 + 1..] == [];
  }

  lemma SecondFlushStep()
    ensures Next(States()[7], Actions()[7], States()[8])
  {
    FlushAlone(States()[7], 1, second, [P(4, 4)]);
    hide FlushNext;
  }

  lemma CompactSteps()
    ensures Next(States()[8], Actions()[8], States()[9]) && Next(States()[13], Actions()[13], States()[14])
  {
    FirstCompaction();
    SecondCompaction();
    hide CompactNext;
  }

  lemma ThirdSteps()
    ensures var ss, a := States(), Actions(); Next(ss[10], a[10], ss[11]) && Next(ss[11], a[11], ss[12])
  {
    LaterWrite(4);
    hide InsertBatch;
  }

  lemma ThirdFlushStep()
    ensures Next(States()[12], Actions()[12], States()[13])
  {
    FlushAlone(States()[12], 1, third, [P(4, 5)]);
    hide FlushNext;
  }

  lemma IsRun()
    ensures Run(States(), Actions())
  {
    hide Next, States, Actions;
    FirstSteps();
    FlushStep();
    SecondSteps();
    SecondFlushStep();
    CompactSteps();
    ThirdSteps();
    ThirdFlushStep();
    var ss, a := States(), Actions();
    forall i | 0 <= i < 14 ensures Next(ss[i], a[i], ss[i + 1]) {
      assert i == 0 || i == 1 || i == 2 || i == 3 || i == 4 || i == 5 || i == 6
             || i == 7 || i == 8 || i == 9 || i == 10 || i == 11 || i == 12 || i == 13;
    }
  }

  lemma EndContents(e: Entry)
    ensures e in View(States()[14]) <==> e == P(4, 5) || e == P(5, 1)
  {
    LevelsOf(v5, 2);
    assert last in v5[2] && far in v5[2];
    assert P(4, 5) in last.entries && P(5, 1) in far.entries;
    if e in View(States()[14]) {
      var l: nat, f :| l < NUM_LEVELS && f in v5[l] && e in f.entries;
      LevelsOf(v5, l);
    }
  }

  const written: seq<Op> := [Op.Put(5, [1]), Op.Put(4, [1]), Op.Delete(5), Op.Put(4, [1]), Op.Put(4, [1])]

  lemma WritesAre()
    ensures var a := Actions();
            && Writes(a[0]) == [Op.Put(5, [1])] && Writes(a[2]) == [Op.Put(4, [1]), Op.Delete(5)]
            && Writes(a[5]) == Writes(a[10]) == [Op.Put(4, [1])]
            && Writes(a[1]) == Writes(a[3]) == Writes(a[4]) == Writes(a[6]) == Writes(a[7]) == []
            && Writes(a[8]) == Writes(a[9]) == Writes(a[11]) == Writes(a[12]) == Writes(a[13]) == []
  {
  }

  lemma EndWrites()
    ensures AllWrites(Actions()) == written
  {
    hide Actions, Writes, AllWrites;
    WritesAre();
    NoWrites();
    var a := Actions();
    assert a[..0] == [] && a[..14] == a;
    WritesNext(a, 0);
    WritesNext(a, 1);
    WritesNext(a, 2);
    assert AllWrites(a[..3]) == [Op.Put(5, [1]), Op.Put(4, [1]), Op.Delete(5)];
    WritesNext(a, 3);
    WritesNext(a, 4);
    WritesNext(a, 5);
    WritesNext(a, 6);
    WritesNext(a, 7);
    WritesNext(a, 8);
    WritesNext(a, 9);
    assert AllWrites(a[..10]) == [Op.Put(5, [1]), Op.Put(4, [1]), Op.Delete(5), Op.Put(4, [1])];
    WritesNext(a, 10);
    WritesNext(a, 11);
    WritesNext(a, 12);
    WritesNext(a, 13);
  }

  lemma NoWrites()
    ensures AllWrites([]) == []
  {
  }

  /** What was written: key 5 is deleted. */
  lemma EndMeaning()
    ensures Lookup(Meaning(written), 5) == None
  {
    hide Meaning, Lookup;
    MeaningNext(written, 5, 5);
    MeaningNext(written, 4, 5);
    MeaningNext(written, 3, 5);
    assert written[..5] == written;
  }

  lemma WritesNext(a: seq<Action>, i: nat)
    requires i < |a|
    ensures AllWrites(a[..i + 1]) == AllWrites(a[..i]) + Writes(a[i])
  {
    assert a[..i + 1][..i] == a[..i];
  }

  /** A run from the empty store after which a read at the current sequence finds the old value of a deleted key. */
  lemma DeletedKeyReturns()
    ensures Run(States(), Actions()) && States()[14].lastSequence == |AllWrites(Actions())| == 5
    ensures Lookup(Meaning(AllWrites(Actions())), 5) == None
    ensures ReadAt(View(States()[14]), 5, 5) == Some([1])
  {
    IsRun();
    EndWrites();
    EndMeaning();
    EndRead();
    hide Run, AllWrites, Meaning, Lookup, ReadAt, View, Actions;
    assert States()[14].lastSequence == 5;
  }

  lemma EndRead()
    ensures ReadAt(View(States()[14]), 5, 5) == Some([1])
  {
    var s := States()[14];
    forall e ensures e in View(s) <==> e == P(4, 5) || e == P(5, 1) {
      EndContents(e);
    }
    hide View, States;
    assert IsNewest(View(s), 5, 5, P(5, 1));
    ReadAtNewest(View(s), 5, 5, P(5, 1));
  }
}
