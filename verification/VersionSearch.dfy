/** Point lookups in a version: binary search over a sorted level, newest-first over level 0, and
    the level-by-level search that stops at the first table holding the user key. */
module VersionSearch {
  import opened InternalKeys
  import opened Files

  /** What looking for a user key reports: nothing found so far, a value, or a tombstone. */
  datatype Answer = NotFound | Found(value: Bytes) | Deleted

  /** `r` reports the entry `e`. */
  predicate Reports(r: Answer, e: Entry) {
    r == if e.key.kind.Value? then Found(e.value) else Deleted
  }

  ghost predicate Answers(s: iset<Entry>, k: UserKey, snapshot: int, r: Answer) {
    if r.NotFound? then NothingVisible(s, k, snapshot)
    else exists e :: IsNewest(s, k, snapshot, e) && Reports(r, e)
  }

  /** The answers of a search are exactly the reads of the specification. */
  lemma AnswersAreReads(s: iset<Entry>, k: UserKey, snapshot: int, r: Answer)
    requires WellKeyed(s) && Answers(s, k, snapshot, r)
    ensures ReadAt(s, k, snapshot) == if r.Found? then Some(r.value) else None
  {
    if !r.NotFound? {
      var e :| IsNewest(s, k, snapshot, e) && Reports(r, e);
      ReadAtNewest(s, k, snapshot, e);
    }
  }

  /** Entries of a sequence, as a set. */
  ghost function Of(es: seq<Entry>): iset<Entry> {
    iset e | e in es
  }

  /** Index of the first entry at or after `target`; the length when there is none. */
  function SeekIndex(es: seq<Entry>, target: InternalKey): (i: nat)
    ensures i <= |es|
    ensures forall j :: 0 <= j < i ==> Less(es[j].key, target)
    ensures i < |es| ==> AtMost(target, es[i].key)
  {
    if |es| == 0 || !Less(es[0].key, target) then 0 else 1 + SeekIndex(es[1..], target)
  }

  /** Seek to the lookup key in one sorted run and check that the entry found is for `k`. */
  function SearchRun(es: seq<Entry>, k: UserKey, snapshot: Sequence): Answer {
    var i := SeekIndex(es, LookupKey(k, snapshot));
    if i < |es| && es[i].key.user == k then
      if es[i].key.kind.Value? then Found(es[i].value) else Deleted
    else
      NotFound
  }

  lemma SearchRunAnswers(es: seq<Entry>, k: UserKey, snapshot: Sequence)
    requires Sorted(es)
    ensures Answers(Of(es), k, snapshot, SearchRun(es, k, snapshot))
  {
    var i := SeekIndex(es, LookupKey(k, snapshot));
    if i < |es| && es[i].key.user == k {
      assert IsNewest(Of(es), k, snapshot, es[i]);
    }
  }

  /** Index of the first file whose largest key is at or after `key`. */
  method FindFile(files: Level, key: InternalKey) returns (right: nat)
    requires SortedDisjoint(files) && ValidFiles(files)
    ensures right <= |files|
    ensures forall i :: 0 <= i < right ==> Less(files[i].largest, key)
    ensures forall i :: right <= i < |files| ==> AtMost(key, files[i].largest)
  {
    var left := 0;
    right := |files|;
    while left < right
      invariant left <= right <= |files|
      invariant forall i :: 0 <= i < left ==> Less(files[i].largest, key)
      invariant forall i :: right <= i < |files| ==> AtMost(key, files[i].largest)
    {
      var mid := (left + right) / 2;
      assert ValidFile(files[mid]);
      if Less(files[mid].largest, key) {
        forall i | 0 <= i < mid ensures Less(files[i].largest, key) {
          RangesOrdered(files, i, mid);
        }
        left := mid + 1;
      } else {
        forall i | mid < i < |files| ensures AtMost(key, files[i].largest) {
          RangesOrdered(files, mid, i);
        }
        right := mid;
      }
    }
  }

  lemma RangesOrdered(files: Level, i: nat, j: nat)
    requires SortedDisjoint(files) && ValidFiles(files) && i < j < |files|
    ensures AtMost(files[i].smallest, files[i].largest) && AtMost(files[j].smallest, files[j].largest)
    ensures Less(files[i].largest, files[j].largest) && Less(files[i].smallest, files[j].smallest)
    ensures forall d, e :: d in files[i].entries && e in files[j].entries ==> Precedes(d.key, e.key)
  {
    assert ValidFile(files[i]) && ValidFile(files[j]);
    FileBounds(files[i], files[i].entries[0]);
    FileBounds(files[j], files[j].entries[0]);
    forall d, e | d in files[i].entries && e in files[j].entries
      ensures Precedes(d.key, e.key)
    {
      FileBounds(files[i], d);
      FileBounds(files[j], e);
    }
  }

  // ---- One level ----

  ghost predicate NothingInFiles(fs: Level, k: UserKey, snapshot: int) {
    forall f, e :: f in fs && e in f.entries ==> !VisibleAt(e, k, snapshot)
  }

  ghost predicate NewestInFiles(fs: Level, k: UserKey, snapshot: int, e: Entry) {
    && InFiles(e, fs)
    && VisibleAt(e, k, snapshot)
    && forall g, d :: g in fs && d in g.entries && VisibleAt(d, k, snapshot) ==> d.key.sequence <= e.key.sequence
  }

  /** `r`, which reports `e`, is the right answer of a search of `k` confined to `fs`. */
  ghost predicate LevelAnswers(fs: Level, k: UserKey, snapshot: int, r: Answer, e: Entry) {
    if r.NotFound? then NothingInFiles(fs, k, snapshot)
    else NewestInFiles(fs, k, snapshot, e) && Reports(r, e)
  }

  /** Lookup in one sorted level: only the file the binary search lands on can hold the answer. */
  method SearchSortedLevel(files: Level, k: UserKey, snapshot: Sequence) returns (r: Answer, ghost e: Entry)
    requires SortedDisjoint(files) && ValidFiles(files)
    ensures LevelAnswers(files, k, snapshot, r, e)
  {
    e := Entry(LookupKey(k, snapshot), []);
    var index := FindFile(files, LookupKey(k, snapshot));
    forall i, d | 0 <= i < index && d in files[i].entries ensures !VisibleAt(d, k, snapshot) {
      FileBounds(files[i], d);
    }
    if index >= |files| {
      return NotFound, e;
    }
    var f := files[index];
    assert ValidFile(f);
    if k < f.smallest.user {
      forall i, d | index <= i < |files| && d in files[i].entries ensures !VisibleAt(d, k, snapshot) {
        FileBounds(files[i], d);
        if i > index {
          RangesOrdered(files, index, i);
        }
      }
      return NotFound, e;
    }
    r := SearchRun(f.entries, k, snapshot);
    e := FoundFileDecides(files, index, k, snapshot);
  }

  /** The binary search's file answers for its whole level. */
  lemma FoundFileDecides(files: Level, index: nat, k: UserKey, snapshot: Sequence) returns (first: Entry)
    requires SortedDisjoint(files) && ValidFiles(files) && index < |files|
    requires forall i :: 0 <= i < index ==> Less(files[i].largest, LookupKey(k, snapshot))
    requires AtMost(LookupKey(k, snapshot), files[index].largest)
    ensures LevelAnswers(files, k, snapshot, SearchRun(files[index].entries, k, snapshot), first)
  {
    var f := files[index];
    var es := f.entries;
    assert ValidFile(f);
    var at := SeekIndex(es, LookupKey(k, snapshot));
    assert at < |es|;
    first := es[at];
    forall g, e | g in files && e in g.entries && VisibleAt(e, k, snapshot)
      ensures AtMost(first.key, e.key)
    {
      var i :| 0 <= i < |files| && files[i] == g;
      VisibleAfter(files, index, k, snapshot, at, i, e);
    }
    if first.key.user == k {
      assert InFiles(first, files);
    }
  }

  lemma VisibleAfter(files: Level, index: nat, k: UserKey, snapshot: Sequence, at: nat, i: nat, e: Entry)
    requires SortedDisjoint(files) && ValidFiles(files) && index < |files| && i < |files|
    requires i < index ==> Less(files[i].largest, LookupKey(k, snapshot))
    requires at == SeekIndex(files[index].entries, LookupKey(k, snapshot)) < |files[index].entries|
    requires e in files[i].entries && VisibleAt(e, k, snapshot)
    ensures AtMost(files[index].entries[at].key, e.key)
  {
    if i < index {
      FileBounds(files[i], e);
    } else if i == index {
      assert ValidFile(files[index]);
      var j :| 0 <= j < |files[index].entries| && files[index].entries[j] == e;
    } else {
      RangesOrdered(files, index, i);
    }
  }

  /** `files` by descending number. */
  function NewestFirst(files: Level): (r: Level)
    ensures forall f :: f in r <==> f in files
    ensures forall i, j :: 0 <= i < j < |r| ==> r[i].number >= r[j].number
  {
    if files == [] then [] else InsertByNumber(files[0], NewestFirst(files[1..]))
  }

  function InsertByNumber(f: File, files: Level): (r: Level)
    requires forall i, j :: 0 <= i < j < |files| ==> files[i].number >= files[j].number
    ensures forall g :: g in r <==> g == f || g in files
    ensures forall i, j :: 0 <= i < j < |r| ==> r[i].number >= r[j].number
  {
    if files == [] || f.number >= files[0].number then [f] + files
    else
      var rest := InsertByNumber(f, files[1..]);
      assert forall i :: 0 <= i < |rest| ==> rest[i] == f || rest[i] in files[1..];
      [files[0]] + rest
  }

  /** The files whose user-key range holds `k`; the others have no entry for it. */
  method FilesCovering(files: Level, k: UserKey) returns (tmp: Level)
    requires ValidFiles(files)
    ensures forall f :: f in tmp ==> f in files
    ensures forall f, e :: f in files && f !in tmp && e in f.entries ==> e.key.user != k
  {
    tmp := [];
    for i := 0 to |files|
      invariant forall f :: f in tmp ==> f in files
      invariant forall j, e :: 0 <= j < i && files[j] !in tmp && e in files[j].entries ==> e.key.user != k
    {
      var f := files[i];
      if f.smallest.user <= k <= f.largest.user {
        tmp := tmp + [f];
      } else {
        forall e | e in f.entries ensures e.key.user != k {
          FileBounds(f, e);
        }
      }
    }
  }

  method SearchLevelZero(files: Level, k: UserKey, snapshot: Sequence) returns (r: Answer, ghost e: Entry)
    requires LevelZeroLayered(files) && ValidFiles(files)
    ensures LevelAnswers(files, k, snapshot, r, e)
  {
    hide LevelZeroLayered, NewestInFiles, SearchRun, Sorted, NewestFirst, NothingInFiles;
    e := Entry(LookupKey(k, snapshot), []);
    var covering := FilesCovering(files, k);
    var tmp := NewestFirst(covering);
    for i := 0 to |tmp|
      invariant forall j, d :: 0 <= j < i && d in tmp[j].entries ==> !VisibleAt(d, k, snapshot)
    {
      var f := tmp[i];
      assert ValidFile(f);
      r := SearchRun(f.entries, k, snapshot);
      SearchRunAnswers(f.entries, k, snapshot);
      if !r.NotFound? {
        e :| IsNewest(Of(f.entries), k, snapshot, e) && Reports(r, e);
        NewestFileDecides(files, tmp, i, k, snapshot, e);
        return;
      }
    }
    r := NotFound;
    NothingCovering(files, tmp, k, snapshot);
  }

  lemma NothingCovering(files: Level, tmp: Level, k: UserKey, snapshot: int)
    requires forall f, d :: f in files && f !in tmp && d in f.entries ==> d.key.user != k
    requires forall j, d :: 0 <= j < |tmp| && d in tmp[j].entries ==> !VisibleAt(d, k, snapshot)
    ensures NothingInFiles(files, k, snapshot)
  {
  }

  /** In level 0 the newest file with a visible entry has the newest entry. */
  lemma NewestFileDecides(files: Level, tmp: Level, i: nat, k: UserKey, snapshot: Sequence, e: Entry)
    requires LevelZeroLayered(files) && i < |tmp|
    requires forall f :: f in tmp ==> f in files
    requires forall f, d :: f in files && f !in tmp && d in f.entries ==> d.key.user != k
    requires forall a, b :: 0 <= a < b < |tmp| ==> tmp[a].number >= tmp[b].number
    requires forall j, d :: 0 <= j < i && d in tmp[j].entries ==> !VisibleAt(d, k, snapshot)
    requires IsNewest(Of(tmp[i].entries), k, snapshot, e)
    ensures NewestInFiles(files, k, snapshot, e)
  {
    var f := tmp[i];
    forall g, d | g in files && d in g.entries && VisibleAt(d, k, snapshot)
      ensures d.key.sequence <= e.key.sequence
    {
      if g != f {
        assert g in tmp;
        var j :| 0 <= j < |tmp| && tmp[j] == g;
        assert j > i && g.number < f.number;
        assert NewerThan(f.entries, g.entries);
      }
    }
  }

  // ---- The whole version ----

  /** Search of a version: levels from 0 down, stopping at the first that knows the key. */
  method Get(v: Version, k: UserKey, snapshot: Sequence) returns (r: Answer)
    requires ValidVersion(v)
    ensures Answers(Contents(v), k, snapshot, r)
    ensures ReadAt(Contents(v), k, snapshot) == if r.Found? then Some(r.value) else None
  {
    hide LevelAnswers, Answers;
    ContentsWellKeyed(v);
    for level := 0 to NUM_LEVELS
      invariant forall l :: 0 <= l < level ==> NothingInFiles(v[l], k, snapshot)
    {
      ghost var e: Entry;
      if level == 0 {
        r, e := SearchLevelZero(v[0], k, snapshot);
      } else {
        r, e := SearchSortedLevel(v[level], k, snapshot);
      }
      if !r.NotFound? {
        FoundAnswers(v, level, k, snapshot, r, e);
        AnswersAreReads(Contents(v), k, snapshot, r);
        return;
      }
      NotFoundAnswers(v[level], k, snapshot, r, e);
    }
    r := NotFound;
    NothingAnswers(v, k, snapshot);
    AnswersAreReads(Contents(v), k, snapshot, r);
  }

  lemma FoundAnswers(v: Version, level: nat, k: UserKey, snapshot: Sequence, r: Answer, e: Entry)
    requires ValidVersion(v) && level < NUM_LEVELS && !r.NotFound? && LevelAnswers(v[level], k, snapshot, r, e)
    requires forall l :: 0 <= l < level ==> NothingInFiles(v[l], k, snapshot)
    ensures Answers(Contents(v), k, snapshot, r)
  {
    ShallowestDecides(v, level, k, snapshot, e);
  }

  lemma NotFoundAnswers(fs: Level, k: UserKey, snapshot: Sequence, r: Answer, e: Entry)
    requires r.NotFound? && LevelAnswers(fs, k, snapshot, r, e)
    ensures NothingInFiles(fs, k, snapshot)
  {
  }

  lemma NothingAnswers(v: Version, k: UserKey, snapshot: Sequence)
    requires forall l :: 0 <= l < NUM_LEVELS ==> NothingInFiles(v[l], k, snapshot)
    ensures Answers(Contents(v), k, snapshot, NotFound)
  {
  }

  /** User key and sequence tell the entries of a table apart. */
  lemma SameTable(f: File, a: Entry, b: Entry)
    requires ValidFile(f) && a in f.entries && b in f.entries && a.key.user == b.key.user && a.key.sequence == b.key.sequence
    ensures a == b
  {
    var i :| 0 <= i < |f.entries| && f.entries[i] == a;
    var j :| 0 <= j < |f.entries| && f.entries[j] == b;
    SortedAt(f.entries, i, j);
    SortedAt(f.entries, j, i);
  }

  /** And those of a sorted level. */
  lemma SameLevel(fs: Level, f: File, g: File, a: Entry, b: Entry)
    requires SortedDisjoint(fs) && ValidFiles(fs) && f in fs && g in fs && a in f.entries && b in g.entries
    requires a.key.user == b.key.user && a.key.sequence == b.key.sequence
    ensures f == g
  {
    var i :| 0 <= i < |fs| && fs[i] == f;
    var j :| 0 <= j < |fs| && fs[j] == g;
    if i < j {
      RangesOrdered(fs, i, j);
    } else if j < i {
      RangesOrdered(fs, j, i);
    }
  }

  /** And those of two levels, or of two tables of level 0. */
  lemma OtherPlace(v: Version, l: nat, f: File, a: Entry, m: nat, g: File, b: Entry)
    requires LevelsLayered(v) && LevelZeroLayered(v[0]) && l < NUM_LEVELS && m < NUM_LEVELS && f in v[l] && g in v[m]
    requires a in f.entries && b in g.entries && a.key.user == b.key.user && a.key.sequence == b.key.sequence
    ensures l == m && (l == 0 ==> f == g)
  {
  }

  lemma VersionParts(v: Version, l: nat)
    requires ValidVersion(v) && l < NUM_LEVELS
    ensures LevelsLayered(v) && LevelZeroLayered(v[0]) && ValidFiles(v[l]) && (l > 0 ==> SortedDisjoint(v[l]))
  {
  }

  /** No two entries of the tables of a valid version share user key and sequence. */
  lemma ContentsWellKeyed(v: Version)
    requires ValidVersion(v)
    ensures WellKeyed(Contents(v))
  {
    hide ValidVersion, LevelsLayered, LevelZeroLayered, SortedDisjoint, ValidFile;
    forall a, b | a in Contents(v) && b in Contents(v) && a.key.user == b.key.user && a.key.sequence == b.key.sequence
      ensures a == b
    {
      var l: nat, f :| 0 <= l < NUM_LEVELS && f in v[l] && a in f.entries;
      var m: nat, g :| 0 <= m < NUM_LEVELS && g in v[m] && b in g.entries;
      VersionParts(v, l);
      OtherPlace(v, l, f, a, m, g, b);
      if l > 0 {
        SameLevel(v[l], f, g, a, b);
      }
      SameTable(f, a, b);
    }
  }

  /** Under the layering invariant, the first level with a visible entry has the newest one. */
  lemma ShallowestDecides(v: Version, level: nat, k: UserKey, snapshot: Sequence, e: Entry)
    requires LevelsLayered(v) && level < NUM_LEVELS
    requires forall l :: 0 <= l < level ==> NothingInFiles(v[l], k, snapshot)
    requires NewestInFiles(v[level], k, snapshot, e)
    ensures IsNewest(Contents(v), k, snapshot, e)
  {
    var f :| f in v[level] && e in f.entries;
    assert e in Contents(v);
    forall d | d in Contents(v) && VisibleAt(d, k, snapshot)
      ensures d.key.sequence <= e.key.sequence
    {
      var l, g :| 0 <= l < NUM_LEVELS && g in v[l] && d in g.entries;
      LevelDecides(v, level, k, snapshot, f, e, l, g, d);
    }
  }

  lemma LevelDecides(v: Version, level: nat, k: UserKey, snapshot: Sequence, f: File, e: Entry, l: nat, g: File, d: Entry)
    requires LevelsLayered(v) && level < NUM_LEVELS && l < NUM_LEVELS
    requires forall i :: 0 <= i < level ==> NothingInFiles(v[i], k, snapshot)
    requires NewestInFiles(v[level], k, snapshot, e) && f in v[level] && e in f.entries
    requires g in v[l] && d in g.entries && VisibleAt(d, k, snapshot)
    ensures d.key.sequence <= e.key.sequence
  {
    if l > level {
      assert NewerThan(f.entries, g.entries);
    }
  }
}
