/** When a compaction leaves every read at or above the oldest snapshot unchanged. */
module CompactionMeaning {
  import opened InternalKeys
  import opened Files
  import opened CompactionInputs
  import opened CompactionPick
  import opened CompactionInstall
  import opened CompactionWork

  /** `m` is the merged input of `c`: each input entry once, in order. */
  ghost predicate Merged(c: Inputs, m: seq<Entry>) {
    && Sorted(m)
    && forall e :: e in m <==> InInputs(c, e)
  }

  /** The tables `outs` hold exactly the entries the merge loop keeps of `m`. */
  ghost predicate Written(v: Version, c: Inputs, m: seq<Entry>, snapshot: int, outs: Level) {
    && GoodOutputs(c, outs)
    && forall e :: InFiles(e, outs) <==> e in Survivors(v, c.level, m, |m|, snapshot)
  }

  /** Everything a read can see: memtable entries `x` and the tables of `v`. */
  ghost function Everything(x: iset<Entry>, v: Version): iset<Entry> {
    x + Contents(v)
  }

  /** Memtable entries are newer than table entries of the same user key. */
  ghost predicate Above(x: iset<Entry>, v: Version) {
    forall a, b :: a in x && b in Contents(v) && a.key.user == b.key.user ==> a.key.sequence > b.key.sequence
  }

  /** One compaction, from picked inputs to the installed version. */
  ghost predicate Compacts(x: iset<Entry>, before: Version, c: Inputs, m: seq<Entry>, snapshot: Sequence, outs: Level, after: Version) {
    && ValidVersion(before) && GoodInputs(before, c) && Merged(c, m)
    && Written(before, c, m, snapshot, outs) && Installed(before, c, outs, after)
    && Above(x, before) && WellKeyed(Everything(x, before))
  }

  /** The case in which dropping a tombstone uncovers older data: the last table taken from the lower
      level and the table behind it share a user key, that table continues the key with a value, the
      newest entry of the key at the snapshot is a tombstone the compaction reads, and no deeper
      table covers the key. */
  ghost predicate Resurrects(x: iset<Entry>, v: Version, c: Inputs, snapshot: int) {
    c.level + 1 < NUM_LEVELS &&
    exists i :: 0 <= i < |v[c.level + 1]| - 1 && ResurrectsAt(x, v, c, snapshot, i)
  }

  /** The table at `i` of the lower level is taken, the next one is not, and they share a user key. */
  ghost predicate Straddled(v: Version, c: Inputs, i: nat)
    requires c.level + 1 < NUM_LEVELS && i < |v[c.level + 1]| - 1
  {
    var f, g := v[c.level + 1][i], v[c.level + 1][i + 1];
    f in c.lower && g !in c.lower && f.largest.user == g.smallest.user
  }

  ghost predicate ResurrectsAt(x: iset<Entry>, v: Version, c: Inputs, snapshot: int, i: nat)
    requires c.level + 1 < NUM_LEVELS && i < |v[c.level + 1]| - 1
  {
    var g := v[c.level + 1][i + 1];
    && Straddled(v, c, i)
    && g.smallest.kind.Value?
    && IsBaseLevel(v, c.level, g.smallest.user)
    && exists e :: IsNewest(Everything(x, v), g.smallest.user, snapshot, e) && e.key.kind.Deletion? && InInputs(c, e)
  }

  // ---- What the loop keeps ----

  lemma {:induction false} SurvivorsAre(v: Version, level: nat, m: seq<Entry>, n: nat, snapshot: int, e: Entry)
    requires Sorted(m) && n <= |m|
    ensures e in Survivors(v, level, m, n, snapshot) <==> exists i :: 0 <= i < n && m[i] == e && !Dropped(v, level, m, i, snapshot)
  {
    hide Dropped;
    if n > 0 {
      SurvivorsAre(v, level, m, n - 1, snapshot, e);
      assert e == m[n - 1] ==> forall i :: 0 <= i < n && m[i] == e ==> i == n - 1;
    }
  }

  /** An entry older than one at or below the snapshot is hidden. */
  lemma OlderIsHidden(m: seq<Entry>, i: nat, j: nat, snapshot: int)
    requires Sorted(m) && i < j < |m| && m[i].key.user == m[j].key.user && m[i].key.sequence <= snapshot
    ensures Hidden(m, j, snapshot)
  {
    assert i < j - 1 ==> Precedes(m[i].key, m[j - 1].key);
    assert Precedes(m[j - 1].key, m[j].key);
  }

  // ---- Contents across the installation ----

  lemma InputsAreContents(v: Version, c: Inputs, e: Entry)
    requires GoodInputs(v, c) && InInputs(c, e)
    ensures e in Contents(v)
  {
    var l, g := InputFileOf(v, c, e);
  }

  /** An input entry sits in no file that stays. */
  lemma InputsLeave(v: Version, c: Inputs, l: nat, f: File, e: Entry)
    requires ValidVersion(v) && GoodInputs(v, c) && Stays(v, c, l, f) && e in f.entries
    ensures !InInputs(c, e)
  {
    hide ValidVersion;
    hide GoodInputs;
    if InInputs(c, e) {
      if l <= c.level {
        UpperStaysNewer(v, c, l, f, e, e);
      } else if l == c.level + 1 {
        StaysAside(v, c, f);
        LevelFacts(v, l);
        FileBounds(f, e);
      } else {
        ValidLayers(v);
        DeeperOlder(v, c, l, f, e, e);
      }
    }
  }

  lemma ValidLayers(v: Version)
    requires ValidVersion(v)
    ensures LevelsLayered(v)
  {
  }

  lemma StaysAside(v: Version, c: Inputs, f: File)
    requires ValidVersion(v) && GoodInputs(v, c) && Stays(v, c, c.level + 1, f)
    ensures (f.largest.user < c.smallest.user && forall e :: InInputs(c, e) ==> Precedes(f.largest, e.key))
            || (f.smallest.user > c.largest.user && forall e :: InInputs(c, e) ==> Precedes(e.key, f.smallest))
  {
    hide ValidVersion;
    LevelFacts(v, c.level);
    LevelFacts(v, c.level + 1);
    LowerStaysAside(v, c, f);
  }

  /** Where an entry of the new version comes from. */
  lemma AfterContents(before: Version, c: Inputs, outs: Level, after: Version, d: Entry)
    requires Installed(before, c, outs, after)
    ensures d in Contents(after) <==>
            (exists l, f :: Stays(before, c, l, f) && d in f.entries) || (c.level + 1 < NUM_LEVELS && InFiles(d, outs))
  {
    if d in Contents(after) {
      var l, f :| 0 <= l < NUM_LEVELS && f in after[l] && d in f.entries;
      assert Belongs(before, c, outs, l, f);
    }
    if l: nat, f :| Stays(before, c, l, f) && d in f.entries {
      assert Belongs(before, c, outs, l, f);
      assert f in after[l];
    }
    if c.level + 1 < NUM_LEVELS && InFiles(d, outs) {
      var f :| f in outs && d in f.entries;
      assert Belongs(before, c, outs, c.level + 1, f);
      assert f in after[c.level + 1];
    }
  }

  // ---- One key, one snapshot ----

  /** `e` is dropped although some read finds it: then it is a tombstone at or below the snapshot
      whose key no deeper table covers. */
  lemma DroppedIsTombstone(x: iset<Entry>, before: Version, c: Inputs, m: seq<Entry>, snapshot: Sequence, outs: Level, after: Version,
                           k: UserKey, s: int, e: Entry)
    requires Compacts(x, before, c, m, snapshot, outs, after) && s >= snapshot
    requires IsNewest(Everything(x, before), k, s, e) && e !in Everything(x, after)
    ensures InInputs(c, e) && e.key.kind.Deletion? && e.key.sequence <= snapshot && IsBaseLevel(before, c.level, k)
  {
    hide ValidVersion;
    hide GoodInputs;
    hide GoodOutputs;
    hide Dropped;
    assert e in Contents(before) && e !in Contents(after);
    var l: nat, f :| 0 <= l < NUM_LEVELS && f in before[l] && e in f.entries;
    AfterContents(before, c, outs, after, e);
    assert !Stays(before, c, l, f);
    assert InInputs(c, e) by { assert f in c.upper || f in c.lower; }
    var i :| 0 <= i < |m| && m[i] == e;
    SurvivorsAre(before, c.level, m, |m|, snapshot, e);
    assert c.level + 1 < NUM_LEVELS by { InputLevels(before, c); }
    assert Dropped(before, c.level, m, i, snapshot);
    if Hidden(m, i, snapshot) {
      assert Precedes(m[i - 1].key, e.key);
      assert m[i - 1] in m;
      InputsAreContents(before, c, m[i - 1]);
      assert false;
    }
    DroppedNotHidden(before, c.level, m, i, snapshot);
  }

  lemma InputLevels(v: Version, c: Inputs)
    requires GoodInputs(v, c)
    ensures c.level + 1 < NUM_LEVELS
  {
  }

  lemma DroppedNotHidden(v: Version, level: nat, m: seq<Entry>, i: nat, snapshot: int)
    requires i < |m| && Dropped(v, level, m, i, snapshot) && !Hidden(m, i, snapshot)
    ensures m[i].key.kind.Deletion? && m[i].key.sequence <= snapshot && IsBaseLevel(v, level, m[i].key.user)
  {
  }

  /** What is still visible of a key behind a dropped tombstone `e`: entries of tables of the lower
      level that stay and come after all inputs. */
  lemma BehindDropped(x: iset<Entry>, before: Version, c: Inputs, m: seq<Entry>, snapshot: Sequence, outs: Level, after: Version,
                      e: Entry, d: Entry) returns (f: File)
    requires Compacts(x, before, c, m, snapshot, outs, after)
    requires InInputs(c, e) && e.key.sequence <= snapshot && IsBaseLevel(before, c.level, e.key.user)
    requires d in Everything(x, after) && d.key.user == e.key.user && d.key.sequence < e.key.sequence
    ensures c.level + 1 < NUM_LEVELS && Stays(before, c, c.level + 1, f) && d in f.entries
    ensures forall a :: InInputs(c, a) ==> Precedes(a.key, f.smallest)
  {
    hide Compacts;
    hide ValidVersion;
    hide GoodInputs;
    CompactsFacts(x, before, c, m, snapshot, outs, after);
    CompactsInstalled(x, before, c, m, snapshot, outs, after);
    InputLevels(before, c);
    InputsAreContents(before, c, e);
    assert d !in x;
    AfterContents(before, c, outs, after, d);
    assert !InFiles(d, outs) by {
      OlderNotWritten(before, c, m, snapshot, outs, e, d);
    }
    var l: nat;
    l, f :| Stays(before, c, l, f) && d in f.entries;
    if l <= c.level {
      UpperStaysNewer(before, c, l, f, d, e);
      assert false;
    }
    LevelFacts(before, l);
    FileBounds(f, d);
    if l > c.level + 1 {
      assert false;
    }
    StaysAside(before, c, f);
  }

  /** The loop keeps nothing older than an entry at or below the snapshot. */
  lemma OlderNotWritten(before: Version, c: Inputs, m: seq<Entry>, snapshot: Sequence, outs: Level, e: Entry, d: Entry)
    requires Merged(c, m) && Written(before, c, m, snapshot, outs) && InInputs(c, e) && e.key.sequence <= snapshot
    requires d.key.user == e.key.user && d.key.sequence < e.key.sequence
    ensures !InFiles(d, outs)
  {
    hide GoodOutputs;
    hide IsBaseLevel;
    SurvivorsAre(before, c.level, m, |m|, snapshot, d);
    if i :| 0 <= i < |m| && m[i] == d && !Dropped(before, c.level, m, i, snapshot) {
      var j :| 0 <= j < |m| && m[j] == e;
      assert j < i;
      OlderIsHidden(m, j, i, snapshot);
    }
  }

  /** The same tombstone in the lower level: some table behind the inputs continues its key. */
  lemma EdgeExists(v: Version, c: Inputs, e: Entry, f: File) returns (i: nat)
    requires ValidVersion(v) && GoodInputs(v, c) && InInputs(c, e)
    requires Stays(v, c, c.level + 1, f)
    requires f.smallest.user <= e.key.user && forall a :: InInputs(c, a) ==> Precedes(a.key, f.smallest)
    ensures i + 1 < |v[c.level + 1]| && v[c.level + 1][i] in c.lower && v[c.level + 1][i + 1] !in c.lower
    ensures v[c.level + 1][i].largest.user == e.key.user == v[c.level + 1][i + 1].smallest.user
    ensures v[c.level + 1][i + 1] == f || Precedes(v[c.level + 1][i + 1].largest, f.smallest)
  {
    hide ValidVersion;
    hide GoodInputs;
    LevelFacts(v, c.level + 1);
    LevelFacts(v, c.level);
    var fs := v[c.level + 1];
    var b :| 0 <= b < |fs| && fs[b] == f;
    var a := LowerIndex(v, c, e, f);
    assert a < b by {
      var e0 := fs[a].entries[0];
      assert ValidFile(fs[a]) && e0 in fs[a].entries;
      assert InInputs(c, e0);
      if b < a {
        assert Precedes(f.largest, fs[a].smallest);
        assert ValidFile(f);
        FileOrdered(f);
      }
    }
    i := a;
    while fs[i + 1] in c.lower
      invariant a <= i < b && fs[i] in c.lower
      decreases b - i
    {
      assert i + 1 != b;
      i := i + 1;
    }
    EdgeUsers(fs, a, i, b, e);
  }

  lemma LowerIndex(v: Version, c: Inputs, e: Entry, f: File) returns (a: nat)
    requires GoodInputs(v, c) && InInputs(c, e) && ValidFiles(v[c.level]) && ValidFiles(v[c.level + 1])
    requires Stays(v, c, c.level + 1, f) && f.smallest.user <= e.key.user
    requires forall d :: InInputs(c, d) ==> Precedes(d.key, f.smallest)
    ensures a < |v[c.level + 1]| && v[c.level + 1][a] in c.lower && e in v[c.level + 1][a].entries
  {
    if InFiles(e, c.upper) {
      NotUpper(v, c, e, f);
    }
    var g :| g in c.lower && e in g.entries;
    a :| 0 <= a < |v[c.level + 1]| && v[c.level + 1][a] == g;
  }

  lemma NotUpper(v: Version, c: Inputs, e: Entry, f: File)
    requires GoodInputs(v, c) && InFiles(e, c.upper) && ValidFiles(v[c.level]) && ValidFiles(v[c.level + 1])
    requires Stays(v, c, c.level + 1, f) && f.smallest.user <= e.key.user
    ensures Precedes(f.largest, e.key)
  {
    assert !Overlaps(f, Some(c.smallest.user), Some(c.largest.user));
    var g :| g in c.upper && e in g.entries;
    FileBounds(g, e);
    FileOrdered(f);
  }

  lemma EdgeUsers(fs: Level, a: nat, i: nat, b: nat, e: Entry)
    requires ValidFiles(fs) && SortedDisjoint(fs) && a <= i < b < |fs| && e in fs[a].entries
    requires fs[b].smallest.user <= e.key.user
    ensures fs[i].largest.user == e.key.user == fs[i + 1].smallest.user
    ensures i + 1 == b || Precedes(fs[i + 1].largest, fs[b].smallest)
  {
    assert ValidFile(fs[a]) && ValidFile(fs[i]) && ValidFile(fs[i + 1]);
    FileBounds(fs[a], e);
    FileOrdered(fs[i]);
    FileOrdered(fs[i + 1]);
    assert Precedes(fs[i].largest, fs[i + 1].smallest);
  }

  // ---- The theorem ----

  /** Reads of `k` at `s` agree on both sides. */
  ghost predicate SameRead(x: iset<Entry>, before: Version, after: Version, k: UserKey, s: int) {
    ReadAt(Everything(x, after), k, s) == ReadAt(Everything(x, before), k, s)
  }

  lemma NothingAppears(x: iset<Entry>, before: Version, c: Inputs, m: seq<Entry>, snapshot: Sequence, outs: Level, after: Version, d: Entry)
    requires Compacts(x, before, c, m, snapshot, outs, after) && d in Everything(x, after)
    ensures d in Everything(x, before)
  {
    hide ValidVersion;
    hide GoodInputs;
    if d !in x {
      AfterContents(before, c, outs, after, d);
      if InFiles(d, outs) {
        var f :| f in outs && d in f.entries;
        InputsAreContents(before, c, d);
      }
    }
  }

  lemma AfterWellKeyed(x: iset<Entry>, before: Version, c: Inputs, m: seq<Entry>, snapshot: Sequence, outs: Level, after: Version)
    requires Compacts(x, before, c, m, snapshot, outs, after)
    ensures WellKeyed(Everything(x, after))
  {
    forall d | d in Everything(x, after) ensures d in Everything(x, before) {
      NothingAppears(x, before, c, m, snapshot, outs, after, d);
    }
  }

  /** A read that changes does so because a tombstone was dropped in front of a table behind the edge. */
  lemma ChangedMeansResurrects(x: iset<Entry>, before: Version, c: Inputs, m: seq<Entry>, snapshot: Sequence, outs: Level, after: Version,
                               k: UserKey, s: int)
    requires Compacts(x, before, c, m, snapshot, outs, after) && s >= snapshot
    requires !SameRead(x, before, after, k, s)
    ensures Resurrects(x, before, c, snapshot)
  {
    hide Compacts;
    hide Resurrects;
    hide Everything;
    hide ReadAt;
    hide ValidVersion;
    hide GoodInputs;
    hide Above;
    var all, rest := Everything(x, before), Everything(x, after);
    CompactsFacts(x, before, c, m, snapshot, outs, after);
    AfterWellKeyed(x, before, c, m, snapshot, outs, after);
    forall d | d in rest ensures d in all {
      NothingAppears(x, before, c, m, snapshot, outs, after, d);
    }
    if NothingVisible(all, k, s) {
      ReadAtNothing(all, k, s);
      ReadAtNothing(rest, k, s);
      assert false;
    }
    var e0 :| e0 in all && VisibleAt(e0, k, s);
    var e := NewestExists(all, k, s, e0);
    ReadAtNewest(all, k, s, e);
    if e in rest {
      assert IsNewest(rest, k, s, e);
      ReadAtNewest(rest, k, s, e);
      assert false;
    }
    DroppedIsTombstone(x, before, c, m, snapshot, outs, after, k, s, e);
    var d := ReadAtSome(rest, k, s);
    assert d.key.sequence < e.key.sequence;
    UncoveredValue(x, before, c, m, snapshot, outs, after, k, s, e, d);
  }

  lemma CompactsFacts(x: iset<Entry>, before: Version, c: Inputs, m: seq<Entry>, snapshot: Sequence, outs: Level, after: Version)
    requires Compacts(x, before, c, m, snapshot, outs, after)
    ensures ValidVersion(before) && GoodInputs(before, c) && WellKeyed(Everything(x, before)) && Above(x, before)
  {
  }

  lemma UncoveredValue(x: iset<Entry>, before: Version, c: Inputs, m: seq<Entry>, snapshot: Sequence, outs: Level, after: Version,
                       k: UserKey, s: int, e: Entry, d: Entry)
    requires Compacts(x, before, c, m, snapshot, outs, after) && s >= snapshot
    requires IsNewest(Everything(x, before), k, s, e) && IsNewest(Everything(x, after), k, s, d)
    requires d.key.kind.Value? && d.key.sequence < e.key.sequence
    requires InInputs(c, e) && e.key.kind.Deletion? && e.key.sequence <= snapshot && IsBaseLevel(before, c.level, k)
    ensures Resurrects(x, before, c, snapshot)
  {
    hide Compacts;
    hide ValidVersion;
    hide GoodInputs;
    CompactsFacts(x, before, c, m, snapshot, outs, after);
    var f := BehindDropped(x, before, c, m, snapshot, outs, after, e, d);
    LevelFacts(before, c.level + 1);
    FileBounds(f, d);
    var i := EdgeExists(before, c, e, f);
    var g := before[c.level + 1][i + 1];
    var g0 := EdgeEntryVisible(x, before, c, m, snapshot, outs, after, e, i);
    assert d == g0 by {
      BehindEdge(before, c, i, f, d);
      assert WellKeyed(Everything(x, before));
      NothingAppears(x, before, c, m, snapshot, outs, after, d);
      NothingAppears(x, before, c, m, snapshot, outs, after, g0);
    }
    assert IsNewest(Everything(x, before), k, snapshot, e);
    assert ResurrectsAt(x, before, c, snapshot, i);
  }

  /** The first entry of the table behind the edge stays, and is older than the tombstone. */
  lemma EdgeEntryVisible(x: iset<Entry>, before: Version, c: Inputs, m: seq<Entry>, snapshot: Sequence, outs: Level, after: Version,
                         e: Entry, i: nat) returns (g0: Entry)
    requires Compacts(x, before, c, m, snapshot, outs, after) && c.level + 1 < NUM_LEVELS && InInputs(c, e)
    requires i + 1 < |before[c.level + 1]|
    requires before[c.level + 1][i] in c.lower && before[c.level + 1][i + 1] !in c.lower
    requires before[c.level + 1][i + 1].smallest.user == e.key.user
    ensures g0.key == before[c.level + 1][i + 1].smallest
    ensures g0 in Everything(x, after) && g0.key.sequence < e.key.sequence
    ensures forall a :: InInputs(c, a) ==> Precedes(a.key, before[c.level + 1][i + 1].smallest)
  {
    hide Compacts, ValidVersion, GoodInputs, Installed, Written, Merged;
    CompactsFacts(x, before, c, m, snapshot, outs, after);
    CompactsInstalled(x, before, c, m, snapshot, outs, after);
    var fs := before[c.level + 1];
    var f, g := fs[i], fs[i + 1];
    LevelFacts(before, c.level + 1);
    assert ValidFile(f) && ValidFile(g);
    g0 := g.entries[0];
    assert g0 in g.entries;
    assert Stays(before, c, c.level + 1, g);
    AfterContents(before, c, outs, after, g0);
    StaysAside(before, c, g);
    var f0 := f.entries[0];
    assert f0 in f.entries && InInputs(c, f0);
    FileOrdered(f);
    FileOrdered(g);
    assert Precedes(f.largest, g.smallest);
  }

  lemma CompactsInstalled(x: iset<Entry>, before: Version, c: Inputs, m: seq<Entry>, snapshot: Sequence, outs: Level, after: Version)
    requires Compacts(x, before, c, m, snapshot, outs, after)
    ensures Installed(before, c, outs, after) && Written(before, c, m, snapshot, outs) && Merged(c, m)
  {
  }

  /** At such an edge the read of the shared key at the snapshot turns from absent to a value. */
  lemma ResurrectsMeansChanged(x: iset<Entry>, before: Version, c: Inputs, m: seq<Entry>, snapshot: Sequence, outs: Level, after: Version)
    returns (k: UserKey)
    requires Compacts(x, before, c, m, snapshot, outs, after) && Resurrects(x, before, c, snapshot)
    ensures ReadAt(Everything(x, before), k, snapshot) == None
    ensures ReadAt(Everything(x, after), k, snapshot).Some?
  {
    hide Compacts;
    hide ValidVersion;
    hide GoodInputs;
    hide IsBaseLevel;
    hide ReadAt;
    hide Above;
    var i :| 0 <= i < |before[c.level + 1]| - 1 && ResurrectsAt(x, before, c, snapshot, i);
    var g := before[c.level + 1][i + 1];
    k := g.smallest.user;
    var all, rest := Everything(x, before), Everything(x, after);
    var e :| IsNewest(all, k, snapshot, e) && e.key.kind.Deletion? && InInputs(c, e);
    CompactsFacts(x, before, c, m, snapshot, outs, after);
    AfterWellKeyed(x, before, c, m, snapshot, outs, after);
    ReadAtNewest(all, k, snapshot, e);
    var g0 := EdgeEntryVisible(x, before, c, m, snapshot, outs, after, e, i);
    TombstoneGone(x, before, c, m, snapshot, outs, after, e);
    hide Everything;
    forall d | d in rest && VisibleAt(d, k, snapshot) ensures d.key.sequence <= g0.key.sequence {
      NothingAppears(x, before, c, m, snapshot, outs, after, d);
      var f := BehindDropped(x, before, c, m, snapshot, outs, after, e, d);
      BehindEdge(before, c, i, f, d);
    }
    ReadAtNewest(rest, k, snapshot, g0);
  }

  lemma TombstoneGone(x: iset<Entry>, before: Version, c: Inputs, m: seq<Entry>, snapshot: Sequence, outs: Level, after: Version, e: Entry)
    requires Compacts(x, before, c, m, snapshot, outs, after) && InInputs(c, e)
    requires e.key.kind.Deletion? && e.key.sequence <= snapshot && IsBaseLevel(before, c.level, e.key.user)
    ensures e !in Everything(x, after)
  {
    hide ValidVersion;
    hide GoodInputs;
    hide GoodOutputs;
    AfterContents(before, c, outs, after, e);
    SurvivorsAre(before, c.level, m, |m|, snapshot, e);
    forall l: nat, f | Stays(before, c, l, f) ensures e !in f.entries {
      if e in f.entries {
        InputsLeave(before, c, l, f, e);
      }
    }
    InputsAreContents(before, c, e);
  }

  lemma BehindEdge(v: Version, c: Inputs, i: nat, f: File, d: Entry)
    requires ValidVersion(v) && c.level + 1 < NUM_LEVELS && i + 1 < |v[c.level + 1]| && v[c.level + 1][i] in c.lower
    requires f in v[c.level + 1] && d in f.entries && forall a :: InInputs(c, a) ==> Precedes(a.key, f.smallest)
    ensures AtMost(v[c.level + 1][i + 1].smallest, d.key)
  {
    hide ValidVersion;
    LevelFacts(v, c.level + 1);
    var fs := v[c.level + 1];
    var b :| 0 <= b < |fs| && fs[b] == f;
    assert ValidFile(fs[i]) && ValidFile(f) && ValidFile(fs[i + 1]);
    var a := fs[i].entries[0];
    assert a in fs[i].entries && InInputs(c, a);
    FileBounds(f, d);
    FileOrdered(f);
    FileOrdered(fs[i + 1]);
    if b <= i {
      assert false;
    }
    assert b > i + 1 ==> Precedes(fs[i + 1].largest, fs[b].smallest);
  }

  /** A compaction preserves every read at or above the oldest snapshot exactly when no tombstone is
      dropped at the edge of the lower inputs in front of a value of the same key. */
  lemma CompactionPreservesReads(x: iset<Entry>, before: Version, c: Inputs, m: seq<Entry>, snapshot: Sequence, outs: Level, after: Version)
    requires Compacts(x, before, c, m, snapshot, outs, after)
    ensures (forall k, s :: s >= snapshot ==> SameRead(x, before, after, k, s)) <==> !Resurrects(x, before, c, snapshot)
  {
    hide Compacts;
    hide Resurrects;
    if Resurrects(x, before, c, snapshot) {
      var k := ResurrectsMeansChanged(x, before, c, m, snapshot, outs, after);
      assert !SameRead(x, before, after, k, snapshot);
    } else {
      forall k, s | s >= snapshot ensures SameRead(x, before, after, k, s) {
        if !SameRead(x, before, after, k, s) {
          ChangedMeansResurrects(x, before, c, m, snapshot, outs, after, k, s);
        }
      }
    }
  }

  /** No user key straddles the edge between a taken and a following table of the lower level. */
  ghost predicate CleanEdge(v: Version, c: Inputs) {
    c.level + 1 < NUM_LEVELS ==> forall i :: 0 <= i < |v[c.level + 1]| - 1 ==> !Straddled(v, c, i)
  }

  lemma CleanEdgeSuffices(x: iset<Entry>, before: Version, c: Inputs, m: seq<Entry>, snapshot: Sequence, outs: Level, after: Version)
    requires Compacts(x, before, c, m, snapshot, outs, after) && CleanEdge(before, c)
    ensures forall k, s :: s >= snapshot ==> SameRead(x, before, after, k, s)
  {
    hide Compacts;
    CompactionPreservesReads(x, before, c, m, snapshot, outs, after);
  }
}
