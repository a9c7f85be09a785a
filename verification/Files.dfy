/** Table files, versions, and the layering invariant a version keeps. */
module Files {
  import opened InternalKeys

  const NUM_LEVELS: nat := 7

  /** A table's metadata together with the entries its bytes hold. */
  datatype File = File(number: nat, size: nat, smallest: InternalKey, largest: InternalKey, entries: seq<Entry>)

  ghost predicate ValidFile(f: File) {
    && |f.entries| > 0
    && Sorted(f.entries)
    && f.smallest == f.entries[0].key
    && f.largest == f.entries[|f.entries| - 1].key
  }

  type Level = seq<File>

  /** Level 0 holds overlapping files; every deeper level is one sorted run. */
  type Version = v: seq<Level> | |v| == NUM_LEVELS witness [[], [], [], [], [], [], []]

  ghost predicate ValidFiles(fs: Level) {
    forall f :: f in fs ==> ValidFile(f)
  }

  ghost predicate SortedDisjoint(fs: Level) {
    forall i, j :: 0 <= i < j < |fs| ==> Precedes(fs[i].largest, fs[j].smallest)
  }

  /** The order in which a version lists a level: by smallest key, ties by file number. */
  predicate BySmallest(f: File, g: File) {
    Less(f.smallest, g.smallest) || (f.smallest == g.smallest && f.number < g.number)
  }

  ghost predicate SortedBySmallest(fs: Level) {
    forall i, j :: 0 <= i < j < |fs| ==> BySmallest(fs[i], fs[j])
  }

  ghost predicate InFiles(e: Entry, fs: Level) {
    exists f :: f in fs && e in f.entries
  }

  ghost function Contents(v: Version): iset<Entry> {
    iset l, f, e | 0 <= l < NUM_LEVELS && f in v[l] && e in f.entries :: e
  }

  /** Every entry of `shallow` is newer than every entry of `deep` for the same user key. */
  ghost predicate NewerThan(shallow: seq<Entry>, deep: seq<Entry>) {
    forall d, e :: d in shallow && e in deep && d.key.user == e.key.user ==> d.key.sequence > e.key.sequence
  }

  ghost predicate LevelZeroLayered(fs: Level) {
    && (forall f, g :: f in fs && g in fs && f.number == g.number ==> f == g)
    && (forall f, g :: f in fs && g in fs && f.number > g.number ==> NewerThan(f.entries, g.entries))
  }

  ghost predicate LevelsLayered(v: Version) {
    forall l, m, f, g :: 0 <= l < m < NUM_LEVELS && f in v[l] && g in v[m] ==> NewerThan(f.entries, g.entries)
  }

  ghost predicate ValidVersion(v: Version) {
    && (forall l :: 0 <= l < NUM_LEVELS ==> ValidFiles(v[l]))
    && (forall l :: 1 <= l < NUM_LEVELS ==> SortedDisjoint(v[l]))
    && SortedBySmallest(v[0])
    && LevelZeroLayered(v[0])
    && LevelsLayered(v)
  }

  lemma FileBounds(f: File, e: Entry)
    requires ValidFile(f) && e in f.entries
    ensures AtMost(f.smallest, e.key) && AtMost(e.key, f.largest)
    ensures f.smallest.user <= e.key.user <= f.largest.user
  {
    var i :| 0 <= i < |f.entries| && f.entries[i] == e;
    assert i > 0 ==> Precedes(f.entries[0].key, f.entries[i].key);
    assert i < |f.entries| - 1 ==> Precedes(f.entries[i].key, f.entries[|f.entries| - 1].key);
  }

}
