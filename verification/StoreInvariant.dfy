/** Every step of the store keeps the layering invariant. */
module StoreInvariant {
  import opened InternalKeys
  import opened Files
  import opened CompactionInputs
  import opened CompactionPick
  import opened CompactionInstall
  import opened CompactionMeaning
  import opened VersionBuilder
  import opened ManifestReplay
  import opened Store

  lemma EmptyVersionOk(v: Version, n: nat)
    requires forall l :: 0 <= l < NUM_LEVELS ==> v[l] == []
    ensures ValidVersion(v) && UniqueNumbers(v, n) && forall e :: e !in Contents(v)
  {
  }

  lemma InvInitially()
    ensures Inv(Init())
  {
    var s := Init();
    hide ValidVersion;
    hide UniqueNumbers;
    hide Contents;
    EmptyVersionOk(s.version, s.nextFile);
    InvFrom(s);
  }

  lemma InvFacts(s: State)
    requires Inv(s)
    ensures ValidVersion(s.version) && Above(InMemory(s), s.version) && UniqueNumbers(s.version, s.nextFile) && SnapshotsOk(s)
    ensures Sorted(s.mem) && Sorted(ImmEntries(s)) && NewerThan(s.mem, ImmEntries(s))
    ensures forall e :: e in View(s) ==> e.key.sequence <= s.lastSequence
  {
  }

  // ---- Compactions and moves ----

  /** The edit of a compaction takes exactly the inputs out and puts the outputs in. */
  lemma EditInstalls(v: Version, c: Inputs, outs: Level, v': Version, n: nat)
    requires GoodInputs(v, c) && UniqueNumbers(v, n)
    requires Applied(v, CompactionEdit(c, outs), v')
    requires forall i, j :: 0 <= i < j < |outs| ==> outs[i].number != outs[j].number
    requires forall f, o :: f in v[c.level + 1] && o in outs ==> f.number != o.number
    ensures Installed(v, c, outs, v')
  {
    hide GoodInputs;
    hide Applied;
    hide UniqueNumbers;
    InputLevels(v, c);
    assert DistinctAdds(CompactionEdit(c, outs));
    forall l: nat, f | l < NUM_LEVELS
      ensures SortedBySmallest(v'[l])
      ensures f in v'[l] <==> Belongs(v, c, outs, l, f)
    {
      EditInstallsFile(v, c, outs, v', n, l, f);
    }
    forall l: nat | l < NUM_LEVELS ensures SortedBySmallest(v'[l]) {
      var f := File(0, 0, LookupKey(0, 0), LookupKey(0, 0), []);
      assert f in v'[l] <==> Belongs(v, c, outs, l, f);
    }
  }

  lemma EditInstallsFile(v: Version, c: Inputs, outs: Level, v': Version, n: nat, l: nat, f: File)
    requires GoodInputs(v, c) && UniqueNumbers(v, n) && l < NUM_LEVELS && c.level + 1 < NUM_LEVELS
    requires Applied(v, CompactionEdit(c, outs), v') && DistinctAdds(CompactionEdit(c, outs))
    requires forall f, o :: f in v[c.level + 1] && o in outs ==> f.number != o.number
    ensures SortedBySmallest(v'[l])
    ensures f in v'[l] <==> Belongs(v, c, outs, l, f)
  {
    hide GoodInputs;
    hide Applied;
    hide UniqueNumbers;
    hide DistinctAdds;
    hide SortedBySmallest;
    var e := CompactionEdit(c, outs);
    EditMembership(v, e, v', l, f);
    CompactionEditAdds(c, outs, l, f);
    if l == c.level + 1 && f in outs {
      assert AddsNumber(e, l, f.number);
    } else if f in v[l] {
      CompactionEditDeletes(v, c, outs, n, l, f);
    }
  }

  lemma CompactInstalls(s: State, c: Inputs, m: seq<Entry>, outs: Level, s': State)
    requires Inv(s) && CompactNext(s, c, m, outs, s')
    ensures Installed(s.version, c, outs, s'.version)
  {
    hide Inv;
    InvFacts(s);
    InputLevels(s.version, c);
    EditInstalls(s.version, c, outs, s'.version, s.nextFile);
  }

  lemma MoveInstalls(s: State, c: Inputs, s': State)
    requires Inv(s) && MoveNext(s, c, s')
    ensures Installed(s.version, c, c.upper, s'.version) && GoodOutputs(c, c.upper)
  {
    hide Inv;
    InvFacts(s);
    InputLevels(s.version, c);
    UpperIsGood(s.version, c);
    hide ValidVersion;
    hide GoodInputs;
    hide GoodOutputs;
    EditInstalls(s.version, c, c.upper, s'.version, s.nextFile);
  }

  /** A single input file is a good output of its own compaction, and its number occurs once. */
  lemma UpperIsGood(v: Version, c: Inputs)
    requires ValidVersion(v) && GoodInputs(v, c) && |c.upper| == 1
    ensures GoodOutputs(c, c.upper) && c.upper[0] in v[c.level]
  {
    hide ValidVersion;
    LevelFacts(v, c.level);
    assert c.upper[0] in c.upper;
    forall f, e | f in c.upper && e in f.entries ensures InInputs(c, e) {
      assert InFiles(e, c.upper);
    }
  }

  /** Installing outputs brings in no entry. */
  lemma InstalledContents(v: Version, c: Inputs, outs: Level, v': Version, d: Entry)
    requires GoodInputs(v, c) && GoodOutputs(c, outs) && Installed(v, c, outs, v') && d in Contents(v')
    ensures d in Contents(v)
  {
    AfterContents(v, c, outs, v', d);
    if InFiles(d, outs) {
      var f :| f in outs && d in f.entries;
      InputsAreContents(v, c, d);
    }
  }

  lemma InstallKeepsInv(s: State, c: Inputs, outs: Level, s': State)
    requires Inv(s) && GoodInputs(s.version, c) && GoodOutputs(c, outs) && Installed(s.version, c, outs, s'.version)
    requires s' == s.(version := s'.version, nextFile := s'.nextFile) && UniqueNumbers(s'.version, s'.nextFile)
    ensures Inv(s')
  {
    hide Inv;
    hide UniqueNumbers;
    hide GoodInputs;
    hide GoodOutputs;
    hide Contents;
    InvFacts(s);
    hide ValidVersion;
    InstallKeepsValid(s.version, c, outs, s'.version);
    forall d | d in Contents(s'.version) ensures d in Contents(s.version) {
      InstalledContents(s.version, c, outs, s'.version, d);
    }
    assert InMemory(s') == InMemory(s);
    InvFrom(s');
  }

  lemma InvFrom(s: State)
    requires ValidVersion(s.version) && Above(InMemory(s), s.version) && UniqueNumbers(s.version, s.nextFile) && SnapshotsOk(s)
    requires Sorted(s.mem) && Sorted(ImmEntries(s)) && NewerThan(s.mem, ImmEntries(s))
    requires forall e :: e in View(s) ==> e.key.sequence <= s.lastSequence
    ensures Inv(s)
  {
  }

  lemma CompactKeepsInv(s: State, c: Inputs, m: seq<Entry>, outs: Level, s': State)
    requires Inv(s) && CompactNext(s, c, m, outs, s')
    ensures Inv(s')
  {
    hide Inv;
    hide GoodInputs;
    CompactInstalls(s, c, m, outs, s');
    InvFacts(s);
    hide ValidVersion;
    hide GoodOutputs;
    assert UniqueNumbers(s'.version, s'.nextFile) by {
      CompactedNumbers(s.version, c, outs, s'.version, s.nextFile);
    }
    InstallKeepsInv(s, c, outs, s');
  }

  lemma CompactedNumbers(v: Version, c: Inputs, outs: Level, v': Version, n: nat)
    requires UniqueNumbers(v, n) && NumberedFrom(outs, n) && Installed(v, c, outs, v')
    ensures UniqueNumbers(v', n + |outs|)
  {
    forall l, f | 0 <= l < NUM_LEVELS && f in v'[l] ensures f.number < n + |outs| {
      assert Belongs(v, c, outs, l, f);
    }
    forall l, m, f, g | 0 <= l < NUM_LEVELS && 0 <= m < NUM_LEVELS && f in v'[l] && g in v'[m] && f.number == g.number
      ensures l == m && f == g
    {
      assert Belongs(v, c, outs, l, f) && Belongs(v, c, outs, m, g);
    }
  }

  lemma MoveKeepsInv(s: State, c: Inputs, s': State)
    requires Inv(s) && MoveNext(s, c, s')
    ensures Inv(s')
  {
    hide Inv;
    hide GoodInputs;
    MoveInstalls(s, c, s');
    InvFacts(s);
    assert UniqueNumbers(s'.version, s'.nextFile) by {
      MovedNumbers(s.version, c, s'.version, s.nextFile);
    }
    InstallKeepsInv(s, c, c.upper, s');
  }

  lemma MovedNumbers(v: Version, c: Inputs, v': Version, n: nat)
    requires GoodInputs(v, c) && UniqueNumbers(v, n) && Installed(v, c, c.upper, v') && |c.upper| == 1
    ensures UniqueNumbers(v', n)
  {
    hide GoodInputs;
    hide UniqueNumbers;
    forall l: nat, f | l < NUM_LEVELS && f in v'[l]
      ensures f.number < n
    {
      var m := MovedFrom(v, c, v', n, l, f);
      NumberFacts(v, n, m, f, m, f);
    }
    forall l: nat, m: nat, f, g | l < NUM_LEVELS && m < NUM_LEVELS && f in v'[l] && g in v'[m] && f.number == g.number
      ensures l == m && f == g
    {
      var l0 := MovedFrom(v, c, v', n, l, f);
      var m0 := MovedFrom(v, c, v', n, m, g);
      NumberFacts(v, n, l0, f, m0, g);
    }
    NumbersFrom(v', n);
  }

  lemma NumbersFrom(v: Version, n: nat)
    requires forall l: nat, f :: l < NUM_LEVELS && f in v[l] ==> f.number < n
    requires forall l: nat, m: nat, f, g :: l < NUM_LEVELS && m < NUM_LEVELS && f in v[l] && g in v[m] && f.number == g.number
               ==> l == m && f == g
    ensures UniqueNumbers(v, n)
  {
  }

  /** The level a file had before the move; only the moved file changes its level. */
  lemma MovedFrom(v: Version, c: Inputs, v': Version, n: nat, l: nat, f: File) returns (m: nat)
    requires GoodInputs(v, c) && UniqueNumbers(v, n) && Installed(v, c, c.upper, v') && l < NUM_LEVELS && f in v'[l]
    ensures m < NUM_LEVELS && f in v[m]
    ensures if f in c.upper then l == c.level + 1 else l == m
  {
    hide UniqueNumbers;
    assert Belongs(v, c, c.upper, l, f);
    if f in c.upper {
      m := c.level;
      if l != c.level + 1 {
        NumberFacts(v, n, l, f, m, f);
        assert false;
      }
    } else {
      m := l;
    }
  }

  // ---- Flushes ----

  /** The table of a flush joins its level and nothing else changes. */
  ghost predicate Placed(v: Version, level: nat, file: File, v': Version) {
    && (forall l :: 0 <= l < NUM_LEVELS ==> SortedBySmallest(v'[l]))
    && (forall l, f :: 0 <= l < NUM_LEVELS && f in v'[l] ==> f in v[l] || (l == level && f == file))
    && (forall l, f :: 0 <= l < NUM_LEVELS && (f in v[l] || (l == level && f == file)) ==> f in v'[l])
  }

  lemma FlushPlaces(v: Version, level: nat, file: File, v': Version)
    requires Applied(v, Edit([], [(level, file)]), v')
    ensures Placed(v, level, file, v')
  {
    hide Applied;
    var e := Edit([], [(level, file)]);
    forall l: nat, f | l < NUM_LEVELS
      ensures SortedBySmallest(v'[l])
      ensures f in v'[l] <==> f in v[l] || (l == level && f == file)
    {
      EditMembership(v, e, v', l, f);
      assert e.added[0] == (level, file);
    }
    forall l: nat | l < NUM_LEVELS ensures SortedBySmallest(v'[l]) {
      assert file in v'[l] <==> file in v[l] || l == level;
    }
  }

  /** Entries of `file` are newer than every table entry of the same user key. */
  ghost predicate NewTable(v: Version, file: File) {
    && ValidFile(file)
    && (forall l, f :: 0 <= l < NUM_LEVELS && f in v[l] ==> NewerThan(file.entries, f.entries) && f.number < file.number)
  }

  lemma DisjointUsers(f: File, g: File)
    requires ValidFile(f) && ValidFile(g) && !Overlaps(f, Some(g.smallest.user), Some(g.largest.user))
    ensures NewerThan(f.entries, g.entries) && NewerThan(g.entries, f.entries)
    ensures Precedes(f.largest, g.smallest) || Precedes(g.largest, f.smallest)
  {
    forall d, e | d in f.entries && e in g.entries ensures d.key.user != e.key.user {
      FileBounds(f, d);
      FileBounds(g, e);
    }
  }

  lemma PlacedLevelSorted(v: Version, level: nat, file: File, v': Version, l: nat)
    requires ValidVersion(v) && NewTable(v, file) && MayPlace(v, level, file.smallest.user, file.largest.user)
    requires Placed(v, level, file, v') && l < NUM_LEVELS
    ensures ValidFiles(v'[l]) && (l > 0 ==> SortedDisjoint(v'[l]))
  {
    hide ValidVersion;
    LevelFacts(v, l);
    if l > 0 {
      forall f, g | f in v'[l] && g in v'[l] && f != g
        ensures Precedes(f.largest, g.smallest) || Precedes(g.largest, f.smallest)
      {
        if f in v[l] && g in v[l] {
          SortedPair(v[l], f, g);
        } else if f in v[l] {
          DisjointUsers(f, file);
        } else {
          DisjointUsers(g, file);
        }
      }
      DisjointFromPairs(v'[l]);
    }
  }

  lemma PlacedPairLayered(v: Version, level: nat, file: File, v': Version, l: nat, m: nat, f: File, g: File)
    requires ValidVersion(v) && NewTable(v, file) && MayPlace(v, level, file.smallest.user, file.largest.user)
    requires Placed(v, level, file, v') && l < m < NUM_LEVELS && f in v'[l] && g in v'[m]
    ensures NewerThan(f.entries, g.entries)
  {
    hide ValidVersion;
    hide NewerThan;
    LevelFacts(v, l);
    if m == level && g == file && f in v[l] {
      DisjointUsers(f, file);
    } else if l == level && f == file && g in v[m] {
      assert NewerThan(file.entries, g.entries);
    } else if f in v[l] && g in v[m] {
      ValidLayers(v);
    }
  }

  lemma PlacedZeroLayered(v: Version, level: nat, file: File, v': Version)
    requires ValidVersion(v) && NewTable(v, file) && Placed(v, level, file, v')
    ensures LevelZeroLayered(v'[0])
  {
    hide NewerThan;
    hide LevelsLayered;
    forall f, g | f in v'[0] && g in v'[0] && f.number > g.number
      ensures NewerThan(f.entries, g.entries)
    {
      assert f in v[0] || f == file;
      assert g in v[0] || g == file;
    }
  }

  /** A table over newer entries may go anywhere above the files it overlaps. */
  lemma PlacingKeepsValid(v: Version, level: nat, file: File, v': Version)
    requires ValidVersion(v) && NewTable(v, file) && MayPlace(v, level, file.smallest.user, file.largest.user)
    requires Placed(v, level, file, v')
    ensures ValidVersion(v')
  {
    hide NewerThan;
    hide NewTable;
    hide MayPlace;
    PlacedZeroLayered(v, level, file, v');
    forall l: nat | l < NUM_LEVELS
      ensures ValidFiles(v'[l]) && (l > 0 ==> SortedDisjoint(v'[l]))
    {
      PlacedLevelSorted(v, level, file, v', l);
    }
    forall l: nat, m: nat, f, g | l < m < NUM_LEVELS && f in v'[l] && g in v'[m]
      ensures NewerThan(f.entries, g.entries)
    {
      PlacedPairLayered(v, level, file, v', l, m, f, g);
    }
  }

  lemma PlacedContents(v: Version, level: nat, file: File, v': Version, d: Entry)
    requires Placed(v, level, file, v') && level < NUM_LEVELS
    ensures d in Contents(v') <==> d in Contents(v) || d in file.entries
  {
    if d in Contents(v') {
      var l, f :| 0 <= l < NUM_LEVELS && f in v'[l] && d in f.entries;
    }
    if d in Contents(v) {
      var l, f :| 0 <= l < NUM_LEVELS && f in v[l] && d in f.entries;
      assert f in v'[l];
    }
    if d in file.entries {
      assert file in v'[level];
    }
  }

  lemma FlushIsNewTable(s: State, level: nat, file: File, s': State)
    requires Inv(s) && FlushNext(s, level, file, s') && s.imm.value != []
    ensures NewTable(s.version, file)
  {
    hide ValidVersion;
    forall l, f | 0 <= l < NUM_LEVELS && f in s.version[l]
      ensures NewerThan(file.entries, f.entries) && f.number < file.number
    {
      forall d, e | d in file.entries && e in f.entries && d.key.user == e.key.user
        ensures d.key.sequence > e.key.sequence
      {
        assert d in InMemory(s) && e in Contents(s.version);
      }
    }
  }

  lemma FlushView(s: State, level: nat, file: File, s': State)
    requires Inv(s) && FlushNext(s, level, file, s')
    ensures View(s') == View(s)
  {
    hide Inv;
    if s.imm.value != [] {
      FlushPlaces(s.version, level, file, s'.version);
      forall d ensures d in Contents(s'.version) <==> d in Contents(s.version) || d in file.entries {
        PlacedContents(s.version, level, file, s'.version, d);
      }
      hide Contents;
      hide Applied;
      assert forall d :: d in View(s') <==> d in View(s);
    } else {
      assert InMemory(s') == InMemory(s);
    }
  }

  lemma FlushKeepsInv(s: State, level: nat, file: File, s': State)
    requires Inv(s) && FlushNext(s, level, file, s')
    ensures Inv(s')
  {
    hide Inv;
    hide ValidVersion;
    hide UniqueNumbers;
    hide View;
    hide Contents;
    hide Placed;
    hide Applied;
    hide NewTable;
    hide MayPlace;
    FlushView(s, level, file, s');
    InvFacts(s);
    if s.imm.value != [] {
      FlushPlaces(s.version, level, file, s'.version);
      FlushIsNewTable(s, level, file, s');
      PlacingKeepsValid(s.version, level, file, s'.version);
      FlushNumbers(s.version, level, file, s'.version, s.nextFile);
      FlushAbove(s, level, file, s');
    } else {
      assert forall e :: e in InMemory(s') ==> e in InMemory(s);
      MoreNumbers(s.version, s.nextFile, s'.nextFile);
    }
    InvFrom(s');
  }

  lemma MoreNumbers(v: Version, n: nat, n': nat)
    requires UniqueNumbers(v, n) && n <= n'
    ensures UniqueNumbers(v, n')
  {
  }

  lemma FlushNumbers(v: Version, level: nat, file: File, v': Version, n: nat)
    requires UniqueNumbers(v, n) && Placed(v, level, file, v') && file.number == n
    ensures UniqueNumbers(v', n + 1)
  {
  }

  lemma FlushAbove(s: State, level: nat, file: File, s': State)
    requires Inv(s) && FlushNext(s, level, file, s') && s.imm.value != []
    ensures Above(InMemory(s'), s'.version)
  {
    hide ValidVersion;
    hide UniqueNumbers;
    FlushPlaces(s.version, level, file, s'.version);
    forall a, b | a in InMemory(s') && b in Contents(s'.version) && a.key.user == b.key.user
      ensures a.key.sequence > b.key.sequence
    {
      PlacedContents(s.version, level, file, s'.version, b);
      assert a in s.mem && a in InMemory(s);
      assert b in file.entries ==> b in ImmEntries(s);
    }
  }

  // ---- Writes, switches, snapshots ----

  lemma {:induction false} InsertEntrySorted(es: seq<Entry>, e: Entry)
    requires Sorted(es) && forall d :: d in es && d.key.user == e.key.user ==> d.key.sequence < e.key.sequence
    ensures Sorted(InsertEntry(es, e))
  {
    if es != [] {
      assert es[0] in es;
      if !Less(e.key, es[0].key) {
        InsertEntrySorted(es[1..], e);
        var r := InsertEntry(es[1..], e);
        assert forall i :: 0 <= i < |r| ==> r[i] == e || r[i] in es[1..];
        assert forall d :: d in es[1..] ==> Precedes(es[0].key, d.key);
      }
    }
  }

  lemma {:induction false} InsertBatchSorted(es: seq<Entry>, ops: seq<Op>, last: nat)
    requires Sorted(es) && last + |ops| <= MAX_SEQUENCE && forall d :: d in es ==> d.key.sequence <= last
    ensures Sorted(InsertBatch(es, ops, last))
  {
    if ops != [] {
      var n := |ops| - 1;
      InsertBatchSorted(es, ops[..n], last);
      InsertEntrySorted(InsertBatch(es, ops[..n], last), EntryOf(ops[n], last + |ops|));
    }
  }

  lemma WriteKeepsInv(s: State, ops: seq<Op>, s': State)
    requires Inv(s) && WriteNext(s, ops, s')
    ensures Inv(s')
  {
    hide Inv;
    hide ValidVersion;
    hide UniqueNumbers;
    hide Contents;
    InvFacts(s);
    assert forall e :: e in s.mem || e in ImmEntries(s) || e in Contents(s.version) ==> e in View(s);
    InsertBatchSorted(s.mem, ops, s.lastSequence);
    assert forall d :: InBatch(ops, s.lastSequence, d) ==> s.lastSequence < d.key.sequence <= s'.lastSequence;
    hide InBatch;
    assert forall d :: d in InMemory(s') <==> d in InMemory(s) || InBatch(ops, s.lastSequence, d);
    hide InMemory;
    InvFrom(s');
  }

  lemma SwitchKeepsInv(s: State, s': State)
    requires Inv(s) && SwitchNext(s, s')
    ensures Inv(s') && View(s') == View(s)
  {
    hide Inv;
    hide ValidVersion;
    hide UniqueNumbers;
    hide Contents;
    InvFacts(s);
    assert InMemory(s') == InMemory(s);
    MoreNumbers(s.version, s.nextFile, s'.nextFile);
    InvFrom(s');
  }

  lemma SnapshotKeepsInv(s: State, a: Action, s': State)
    requires Inv(s) && Next(s, a, s') && (a.TakeSnapshot? || a.Release?)
    ensures Inv(s') && View(s') == View(s) && Oldest(s') >= Oldest(s)
  {
    hide Inv;
    hide ValidVersion;
    hide UniqueNumbers;
    hide Contents;
    InvFacts(s);
    assert InMemory(s') == InMemory(s);
    InvFrom(s');
  }

  /** Every step keeps the invariant. */
  lemma NextKeepsInv(s: State, a: Action, s': State)
    requires Inv(s) && Next(s, a, s')
    ensures Inv(s')
  {
    hide Inv;
    match a
    case Write(ops) => WriteKeepsInv(s, ops, s');
    case Switch => SwitchKeepsInv(s, s');
    case Flush(level, file) => FlushKeepsInv(s, level, file, s');
    case Compact(c, m, outs) => CompactKeepsInv(s, c, m, outs, s');
    case Move(c) => MoveKeepsInv(s, c, s');
    case TakeSnapshot => SnapshotKeepsInv(s, a, s');
    case Release(i) => SnapshotKeepsInv(s, a, s');
  }
}
