/** Replacing the inputs of a compaction by its outputs keeps a version sorted and layered. */
module CompactionInstall {
  import opened InternalKeys
  import opened Files
  import opened CompactionInputs
  import opened CompactionPick

  /** `f` is one of the files the compaction reads at level `l`. */
  predicate IsInput(c: Inputs, l: nat, f: File) {
    (l == c.level && f in c.upper) || (l == c.level + 1 && f in c.lower)
  }

  /** `e` is read by the compaction. */
  ghost predicate InInputs(c: Inputs, e: Entry) {
    InFiles(e, c.upper) || InFiles(e, c.lower)
  }

  /** `f` sits at level `l` and is not an input. */
  predicate Stays(v: Version, c: Inputs, l: nat, f: File) {
    l < NUM_LEVELS && f in v[l] && !IsInput(c, l, f)
  }

  /** `after` is `before` with the inputs taken out and `outs` put one level below. */
  ghost predicate Installed(before: Version, c: Inputs, outs: Level, after: Version) {
    && (forall l :: 0 <= l < NUM_LEVELS ==> SortedBySmallest(after[l]))
    && (forall l, f :: 0 <= l < NUM_LEVELS && f in after[l] ==> Belongs(before, c, outs, l, f))
    && (forall l, f :: 0 <= l < NUM_LEVELS && Belongs(before, c, outs, l, f) ==> f in after[l])
  }

  predicate Belongs(v: Version, c: Inputs, outs: Level, l: nat, f: File) {
    Stays(v, c, l, f) || (l == c.level + 1 && f in outs)
  }

  /** The outputs are tables over input entries, in order and without overlap. */
  ghost predicate GoodOutputs(c: Inputs, outs: Level) {
    && ValidFiles(outs) && SortedDisjoint(outs)
    && forall f, e :: f in outs && e in f.entries ==> InInputs(c, e)
  }

  lemma InputFileOf(v: Version, c: Inputs, e: Entry) returns (l: nat, g: File)
    requires GoodInputs(v, c) && InInputs(c, e)
    ensures IsInput(c, l, g) && g in v[l] && e in g.entries && (l == c.level || l == c.level + 1)
  {
    if InFiles(e, c.upper) {
      g :| g in c.upper && e in g.entries;
      l := c.level;
    } else {
      g :| g in c.lower && e in g.entries;
      l := c.level + 1;
    }
  }

  /** Two files of a sorted level do not overlap. */
  lemma SortedPair(fs: Level, f: File, g: File)
    requires SortedDisjoint(fs) && ValidFiles(fs) && f in fs && g in fs && f != g
    ensures Precedes(f.largest, g.smallest) || Precedes(g.largest, f.smallest)
  {
    var i :| 0 <= i < |fs| && fs[i] == f;
    var j :| 0 <= j < |fs| && fs[j] == g;
  }

  lemma FileOrdered(f: File)
    requires ValidFile(f)
    ensures AtMost(f.smallest, f.largest)
  {
    FileBounds(f, f.entries[0]);
  }

  /** The lower file `f`, not met by the range of the upper ones, is aside of the input file `g`. */
  lemma InputAside(v: Version, c: Inputs, f: File, l: nat, g: File, e: Entry)
    requires GoodInputs(v, c) && Stays(v, c, c.level + 1, f)
    requires ValidFiles(v[c.level]) && ValidFiles(v[c.level + 1]) && SortedDisjoint(v[c.level + 1])
    requires IsInput(c, l, g) && g in v[l] && e in g.entries && (l == c.level || l == c.level + 1)
    ensures f.largest.user < c.smallest.user ==> Precedes(f.largest, e.key)
    ensures f.smallest.user > c.largest.user ==> Precedes(e.key, f.smallest)
  {
    assert ValidFile(g) && ValidFile(f);
    FileBounds(g, e);
    FileOrdered(f);
    if l == c.level {
      assert AtMost(c.smallest, g.smallest) && AtMost(g.largest, c.largest);
    } else {
      assert Overlaps(g, Some(c.smallest.user), Some(c.largest.user));
      SortedPair(v[l], f, g);
    }
  }

  /** A lower file left behind lies wholly on one side of all the inputs. */
  lemma LowerStaysAside(v: Version, c: Inputs, f: File)
    requires GoodInputs(v, c) && Stays(v, c, c.level + 1, f)
    requires ValidFiles(v[c.level]) && ValidFiles(v[c.level + 1]) && SortedDisjoint(v[c.level + 1])
    ensures (f.largest.user < c.smallest.user && forall e :: InInputs(c, e) ==> Precedes(f.largest, e.key))
            || (f.smallest.user > c.largest.user && forall e :: InInputs(c, e) ==> Precedes(e.key, f.smallest))
  {
    assert !Overlaps(f, Some(c.smallest.user), Some(c.largest.user));
    forall e | InInputs(c, e)
      ensures f.largest.user < c.smallest.user ==> Precedes(f.largest, e.key)
      ensures f.smallest.user > c.largest.user ==> Precedes(e.key, f.smallest)
    {
      var l, g := InputFileOf(v, c, e);
      InputAside(v, c, f, l, g, e);
    }
  }

  lemma DisjointFromPairs(fs: Level)
    requires SortedBySmallest(fs) && ValidFiles(fs)
    requires forall f, g :: f in fs && g in fs && f != g ==> Precedes(f.largest, g.smallest) || Precedes(g.largest, f.smallest)
    ensures SortedDisjoint(fs)
  {
    forall i, j | 0 <= i < j < |fs| ensures Precedes(fs[i].largest, fs[j].smallest) {
      assert BySmallest(fs[i], fs[j]) && fs[i] != fs[j];
      assert ValidFile(fs[i]) && ValidFile(fs[j]);
      FileOrdered(fs[i]);
      FileOrdered(fs[j]);
    }
  }

  /** Any two files of the new lower level are apart. */
  lemma LowerPairApart(before: Version, c: Inputs, outs: Level, f: File, g: File)
    requires GoodInputs(before, c) && GoodOutputs(c, outs) && f != g
    requires ValidFiles(before[c.level]) && ValidFiles(before[c.level + 1]) && SortedDisjoint(before[c.level + 1])
    requires f in outs || Stays(before, c, c.level + 1, f)
    requires g in outs || Stays(before, c, c.level + 1, g)
    ensures Precedes(f.largest, g.smallest) || Precedes(g.largest, f.smallest)
  {
    if f in outs && g in outs {
      SortedPair(outs, f, g);
    } else if f in outs {
      LowerStaysAside(before, c, g);
      OutputEnds(c, outs, f);
    } else if g in outs {
      LowerStaysAside(before, c, f);
      OutputEnds(c, outs, g);
    } else {
      SortedPair(before[c.level + 1], f, g);
    }
  }

  lemma LowerLevelSorted(before: Version, c: Inputs, outs: Level, after: Version)
    requires GoodInputs(before, c) && GoodOutputs(c, outs) && Installed(before, c, outs, after)
    requires ValidFiles(before[c.level]) && ValidFiles(before[c.level + 1]) && SortedDisjoint(before[c.level + 1])
    ensures ValidFiles(after[c.level + 1]) && SortedDisjoint(after[c.level + 1])
  {
    var fs := after[c.level + 1];
    forall f, g | f in fs && g in fs && f != g
      ensures Precedes(f.largest, g.smallest) || Precedes(g.largest, f.smallest)
    {
      LowerPairApart(before, c, outs, f, g);
    }
    DisjointFromPairs(fs);
  }

  lemma OutputEnds(c: Inputs, outs: Level, f: File)
    requires GoodOutputs(c, outs) && f in outs
    ensures exists a, b :: InInputs(c, a) && InInputs(c, b) && a.key == f.smallest && b.key == f.largest
  {
    var a, b := f.entries[0], f.entries[|f.entries| - 1];
    assert a in f.entries && b in f.entries;
    assert InInputs(c, a) && InInputs(c, b) && a.key == f.smallest && b.key == f.largest;
  }

  /** Files left behind above level + 1 are newer than every input. */
  lemma UpperStaysNewer(v: Version, c: Inputs, l: nat, f: File, d: Entry, e: Entry)
    requires ValidVersion(v) && GoodInputs(v, c) && Stays(v, c, l, f) && l <= c.level
    requires d in f.entries && InInputs(c, e) && d.key.user == e.key.user
    ensures d.key.sequence > e.key.sequence
  {
    var m, g := InputFileOf(v, c, e);
    if l < m {
      assert NewerThan(f.entries, g.entries);
    } else {
      assert ValidFile(f) && ValidFile(g);
      FileBounds(f, d);
      FileBounds(g, e);
      assert Touch(f, g);
    }
  }

  /** Files deeper than level + 1 are older than every input. */
  lemma DeeperOlder(v: Version, c: Inputs, l: nat, f: File, d: Entry, e: Entry)
    requires LevelsLayered(v) && GoodInputs(v, c) && c.level + 1 < l < NUM_LEVELS && f in v[l]
    requires d in f.entries && InInputs(c, e) && d.key.user == e.key.user
    ensures e.key.sequence > d.key.sequence
  {
    var m, g := InputFileOf(v, c, e);
    assert NewerThan(g.entries, f.entries);
  }

  lemma OtherLevelSorted(before: Version, c: Inputs, outs: Level, after: Version, l: nat)
    requires ValidVersion(before) && Installed(before, c, outs, after) && l < NUM_LEVELS && l != c.level + 1
    ensures ValidFiles(after[l]) && (l > 0 ==> SortedDisjoint(after[l]))
  {
    hide GoodInputs;
    LevelFacts(before, l);
    if l > 0 {
      forall f, g | f in after[l] && g in after[l] && f != g
        ensures Precedes(f.largest, g.smallest) || Precedes(g.largest, f.smallest)
      {
        SortedPair(before[l], f, g);
      }
      DisjointFromPairs(after[l]);
    }
  }

  lemma InstalledPairLayered(before: Version, c: Inputs, outs: Level, after: Version, l: nat, m: nat, f: File, g: File)
    requires ValidVersion(before) && GoodInputs(before, c) && GoodOutputs(c, outs) && Installed(before, c, outs, after)
    requires l < m < NUM_LEVELS && f in after[l] && g in after[m]
    ensures NewerThan(f.entries, g.entries)
  {
    hide GoodInputs;
    forall d, e | d in f.entries && e in g.entries && d.key.user == e.key.user
      ensures d.key.sequence > e.key.sequence
    {
      if l == c.level + 1 && f in outs {
        assert Stays(before, c, m, g);
        DeeperOlder(before, c, m, g, e, d);
      } else if m == c.level + 1 && g in outs {
        assert Stays(before, c, l, f);
        UpperStaysNewer(before, c, l, f, d, e);
      } else {
        assert f in before[l] && g in before[m];
        assert NewerThan(f.entries, g.entries);
      }
    }
  }

  /** Installing good outputs of good inputs keeps every level sorted and the levels layered. */
  lemma InstallKeepsValid(before: Version, c: Inputs, outs: Level, after: Version)
    requires ValidVersion(before) && GoodInputs(before, c) && GoodOutputs(c, outs) && Installed(before, c, outs, after)
    ensures ValidVersion(after)
  {
    hide NewerThan, GoodInputs, GoodOutputs, Installed, ValidFiles, SortedDisjoint;
    InstalledLevels(before, c, outs, after);
    LevelZeroKept(before, c, outs, after);
    hide LevelZeroLayered, SortedBySmallest;
    forall l, m, f, g | 0 <= l < m < NUM_LEVELS && f in after[l] && g in after[m]
      ensures NewerThan(f.entries, g.entries)
    {
      InstalledPairLayered(before, c, outs, after, l, m, f, g);
    }
  }

  lemma InstalledLevels(before: Version, c: Inputs, outs: Level, after: Version)
    requires ValidVersion(before) && GoodInputs(before, c) && GoodOutputs(c, outs) && Installed(before, c, outs, after)
    ensures forall l :: 0 <= l < NUM_LEVELS ==> ValidFiles(after[l]) && (l > 0 ==> SortedDisjoint(after[l]))
  {
    hide NewerThan;
    LevelFacts(before, c.level);
    LevelFacts(before, c.level + 1);
    LowerLevelSorted(before, c, outs, after);
    forall l | 0 <= l < NUM_LEVELS
      ensures ValidFiles(after[l]) && (l > 0 ==> SortedDisjoint(after[l]))
    {
      if l != c.level + 1 {
        OtherLevelSorted(before, c, outs, after, l);
      }
    }
  }

  lemma LevelZeroKept(before: Version, c: Inputs, outs: Level, after: Version)
    requires ValidVersion(before) && Installed(before, c, outs, after)
    ensures LevelZeroLayered(after[0]) && SortedBySmallest(after[0])
  {
    hide NewerThan;
    hide LevelsLayered;
    assert forall f :: f in after[0] ==> Belongs(before, c, outs, 0, f) && f in before[0];
  }
}
