/** The iterator over the whole store lists the map a reader has at its sequence. */
module StoreIterator {
  import opened InternalKeys
  import opened Files
  import opened VersionSearch
  import opened CompactionPick
  import opened Store
  import opened StoreInvariant
  import opened StoreMeaning
  import opened Merging = MergingIterator
  import opened Mem = MemTable
  import opened Wrapper = IteratorWrapper
  import opened TwoLevelIterator
  import opened Cursors
  import opened DbIterator
  import opened Database

  // ---- A sorted level ----

  /** The index over a level's files: their largest keys, naming the file. */
  function LevelIndex(files: Level, name: nat -> Bytes): (r: seq<Entry>)
    ensures |r| == |files| && forall i :: 0 <= i < |files| ==> r[i] == Entry(files[i].largest, name(files[i].number))
  {
    seq(|files|, i requires 0 <= i < |files| => Entry(files[i].largest, name(files[i].number)))
  }

  /** Opening a file of the level by name yields its entries. */
  ghost predicate Opens(block: BlockFunction, files: Level, name: nat -> Bytes) {
    forall f :: f in files ==> block(name(f.number)) == f.entries
  }

  lemma LevelIndexed(files: Level, name: nat -> Bytes, block: BlockFunction)
    requires ValidFiles(files) && SortedDisjoint(files) && Opens(block, files, name)
    ensures Indexed(LevelIndex(files, name), block)
  {
    var index := LevelIndex(files, name);
    forall i, j | 0 <= i < j < |index| ensures Precedes(index[i].key, index[j].key) {
      FileBounds(files[j], files[j].entries[0]);
    }
    forall i, e | 0 <= i < |index| && e in block(index[i].value) ensures AtMost(e.key, index[i].key) {
      assert files[i] in files;
      FileBounds(files[i], e);
    }
    forall i, j, e | 0 <= i < j < |index| && e in block(index[j].value) ensures Less(index[i].key, e.key) {
      assert files[j] in files;
      FileBounds(files[j], e);
    }
    forall i | 0 <= i < |index| ensures Sorted(block(index[i].value)) {
      assert files[i] in files;
    }
  }

  lemma {:induction false} ConcatHolds(files: Level, name: nat -> Bytes, block: BlockFunction, n: nat, e: Entry)
    requires Opens(block, files, name) && n <= |files|
    ensures e in Concat(LevelIndex(files, name), block, n) <==> InFiles(e, files[..n])
  {
    if n > 0 {
      ConcatHolds(files, name, block, n - 1, e);
      assert files[..n] == files[..n - 1] + [files[n - 1]];
      assert files[n - 1] in files;
    }
  }

  lemma {:induction false} ConcatSorted(files: Level, name: nat -> Bytes, block: BlockFunction, n: nat)
    requires ValidFiles(files) && SortedDisjoint(files) && Opens(block, files, name) && n <= |files|
    ensures Sorted(Concat(LevelIndex(files, name), block, n))
  {
    hide SortedDisjoint;
    hide Opens;
    hide LevelIndex;
    hide ValidFiles;
    if n > 0 {
      hide Concat;
      hide Sorted;
      ConcatSorted(files, name, block, n - 1);
      ConcatNext(files, name, block, n);
      var r, f := Concat(LevelIndex(files, name), block, n - 1), files[n - 1];
      FileSorted(files, n - 1);
      forall d, e | d in r && e in f.entries ensures Precedes(d.key, e.key) {
        BeforeFile(files, name, block, n, d, e);
      }
      SortedJoin(r, f.entries);
    }
  }

  lemma BeforeFile(files: Level, name: nat -> Bytes, block: BlockFunction, n: nat, d: Entry, e: Entry)
    requires ValidFiles(files) && SortedDisjoint(files) && Opens(block, files, name) && 0 < n <= |files|
    requires d in Concat(LevelIndex(files, name), block, n - 1) && e in files[n - 1].entries
    ensures Precedes(d.key, e.key)
  {
    ConcatHolds(files, name, block, n - 1, d);
    hide Concat;
    hide LevelIndex;
    hide Opens;
    hide ValidFile;
    hide Precedes;
    var g :| g in files[..n - 1] && d in g.entries;
    var i :| 0 <= i < n - 1 && files[i] == g;
    assert files[n - 1] in files && g in files;
    InOrder(g, d, files[n - 1], e);
  }

  lemma InOrder(g: File, d: Entry, f: File, e: Entry)
    requires ValidFile(g) && ValidFile(f) && d in g.entries && e in f.entries && Precedes(g.largest, f.smallest)
    ensures Precedes(d.key, e.key)
  {
    FileBounds(g, d);
    FileBounds(f, e);
  }

  lemma ConcatNext(files: Level, name: nat -> Bytes, block: BlockFunction, n: nat)
    requires Opens(block, files, name) && 0 < n <= |files|
    ensures var index := LevelIndex(files, name); Concat(index, block, n) == Concat(index, block, n - 1) + files[n - 1].entries
  {
    assert files[n - 1] in files;
  }

  lemma SortedJoin(a: seq<Entry>, b: seq<Entry>)
    requires Sorted(a) && Sorted(b) && forall d, e :: d in a && e in b ==> Precedes(d.key, e.key)
    ensures Sorted(a + b)
  {
  }

  // ---- The runs an iterator merges ----

  /** Memtable, immutable memtable, each level-0 table, each deeper level. */
  function RunAt(s: State, name: nat -> Bytes, block: BlockFunction, i: nat): seq<Entry>
    requires i < RunCount(s)
  {
    var n := |s.version[0]|;
    if i == 0 then s.mem
    else if i == 1 then ImmEntries(s)
    else if i < 2 + n then s.version[0][i - 2].entries
    else
      var files := s.version[i - 1 - n];
      Concat(LevelIndex(files, name), block, |files|)
  }

  function RunCount(s: State): nat {
    2 + |s.version[0]| + NUM_LEVELS - 1
  }

  function Runs(s: State, name: nat -> Bytes, block: BlockFunction): seq<seq<Entry>> {
    seq(RunCount(s), i requires 0 <= i < RunCount(s) => RunAt(s, name, block, i))
  }

  function LevelOf(s: State, i: nat): nat {
    if i < 2 + |s.version[0]| then 0 else i - 1 - |s.version[0]|
  }

  ghost predicate OpensAll(block: BlockFunction, v: Version, name: nat -> Bytes) {
    forall l :: 0 <= l < NUM_LEVELS ==> Opens(block, v[l], name)
  }

  /** The table an entry of a run comes from. */
  lemma RunFile(s: State, name: nat -> Bytes, block: BlockFunction, i: nat, e: Entry) returns (f: File)
    requires OpensAll(block, s.version, name) && 2 <= i < RunCount(s) && e in RunAt(s, name, block, i)
    ensures f in s.version[LevelOf(s, i)] && e in f.entries
    ensures LevelOf(s, i) == 0 ==> i - 2 < |s.version[0]| && f == s.version[0][i - 2]
  {
    var n := |s.version[0]|;
    if i < 2 + n {
      f := s.version[0][i - 2];
    } else {
      var files := s.version[i - 1 - n];
      ConcatHolds(files, name, block, |files|, e);
      assert files[..|files|] == files;
      f :| f in files && e in f.entries;
    }
  }

  lemma RunSorted(s: State, name: nat -> Bytes, block: BlockFunction, i: nat)
    requires Inv(s) && OpensAll(block, s.version, name) && i < RunCount(s)
    ensures Sorted(RunAt(s, name, block, i))
  {
    hide Inv;
    hide ValidVersion;
    hide Sorted;
    hide Concat;
    hide ValidFiles;
    hide SortedDisjoint;
    hide Opens;
    InvFacts(s);
    var n := |s.version[0]|;
    if 2 <= i < 2 + n {
      LevelFacts(s.version, 0);
      FileSorted(s.version[0], i - 2);
    } else if i >= 2 {
      var files := s.version[i - 1 - n];
      LevelFacts(s.version, i - 1 - n);
      ConcatSorted(files, name, block, |files|);
    }
  }

  lemma FileSorted(files: Level, i: nat)
    requires ValidFiles(files) && i < |files|
    ensures Sorted(files[i].entries)
  {
    assert ValidFile(files[i]);
  }

  lemma RunHolds(s: State, name: nat -> Bytes, block: BlockFunction, i: nat, e: Entry)
    requires OpensAll(block, s.version, name) && i < RunCount(s) && e in RunAt(s, name, block, i)
    ensures e in View(s)
    ensures i >= 2 ==> e in Contents(s.version)
  {
    if i >= 2 {
      var f := RunFile(s, name, block, i, e);
      assert 0 <= LevelOf(s, i) < NUM_LEVELS;
    }
  }

  /** Every entry of the store is in some run. */
  lemma HeldByRun(s: State, name: nat -> Bytes, block: BlockFunction, e: Entry) returns (i: nat)
    requires OpensAll(block, s.version, name) && e in View(s)
    ensures i < RunCount(s) && e in RunAt(s, name, block, i)
  {
    hide Concat;
    if e in s.mem {
      i := 0;
    } else if e in ImmEntries(s) {
      i := 1;
    } else {
      var l: nat, f :| l < NUM_LEVELS && f in s.version[l] && e in f.entries;
      if l == 0 {
        var j :| 0 <= j < |s.version[0]| && s.version[0][j] == f;
        i := 2 + j;
      } else {
        i := l + 1 + |s.version[0]|;
        ConcatHolds(s.version[l], name, block, |s.version[l]|, e);
        assert s.version[l][..|s.version[l]|] == s.version[l];
      }
    }
  }

  lemma RunsApart(s: State, name: nat -> Bytes, block: BlockFunction, i: nat, j: nat, e: Entry)
    requires Inv(s) && OpensAll(block, s.version, name) && i < j < RunCount(s)
    requires e in RunAt(s, name, block, i)
    ensures e !in RunAt(s, name, block, j)
  {
    hide Inv;
    hide ValidVersion;
    hide OpensAll;
    InvFacts(s);
    if e in RunAt(s, name, block, j) {
      if i >= 2 {
        var f := RunFile(s, name, block, i, e);
        var g := RunFile(s, name, block, j, e);
        LevelFacts(s.version, 0);
        if LevelOf(s, i) == LevelOf(s, j) {
          assert BySmallest(f, g);
        }
        DistinctFilesFresh(s.version, LevelOf(s, i), f, LevelOf(s, j), g);
      } else {
        if j >= 2 {
          RunHolds(s, name, block, j, e);
        }
      }
    }
  }

  /** The children of the store's internal iterator merge into any sorted listing of the store. */
  lemma RunsMerge(s: State, name: nat -> Bytes, block: BlockFunction, all: seq<Entry>)
    requires Inv(s) && OpensAll(block, s.version, name) && Sorted(all) && forall e :: e in all <==> e in View(s)
    ensures Merges(all, Runs(s, name, block))
  {
    hide Inv;
    hide View;
    hide RunAt;
    hide OpensAll;
    var runs := Runs(s, name, block);
    forall i | 0 <= i < |runs| ensures Sorted(runs[i]) {
      RunSorted(s, name, block, i);
    }
    forall i, e | 0 <= i < |runs| && e in runs[i] ensures e in all {
      RunHolds(s, name, block, i, e);
    }
    forall e | e in all ensures exists i :: 0 <= i < |runs| && e in runs[i] {
      var i := HeldByRun(s, name, block, e);
      assert e in runs[i];
    }
    forall i, j, e | 0 <= i < |runs| && 0 <= j < |runs| && e in runs[i] && e in runs[j] ensures i == j {
      if i < j {
        RunsApart(s, name, block, i, j, e);
      } else if j < i {
        RunsApart(s, name, block, j, i, e);
      }
    }
  }

  // ---- The sorted listing of a store ----

  lemma {:induction false} InsertedRun(es: seq<Entry>, fs: seq<Entry>, n: nat) returns (r: seq<Entry>)
    requires Sorted(es) && Sorted(fs) && Fresh(es, fs) && n <= |fs|
    ensures Sorted(r) && forall e :: e in r <==> e in es || e in fs[..n]
  {
    if n == 0 {
      r := es;
    } else {
      var init := InsertedRun(es, fs, n - 1);
      assert fs[..n] == fs[..n - 1] + [fs[n - 1]];
      forall d | d in init ensures d.key.user != fs[n - 1].key.user || d.key.sequence != fs[n - 1].key.sequence {
        if d in fs[..n - 1] {
          var j :| 0 <= j < n - 1 && fs[j] == d;
          assert Precedes(fs[j].key, fs[n - 1].key);
        }
      }
      InsertNewSorted(init, fs[n - 1]);
      r := InsertEntry(init, fs[n - 1]);
    }
  }

  /** Entries of the store with no entry in common have no user key and sequence in common. */
  lemma RunsFresh(s: State, es: seq<Entry>, fs: seq<Entry>)
    requires Inv(s) && (forall e :: e in es ==> e in View(s) && e !in fs) && forall e :: e in fs ==> e in View(s)
    ensures Fresh(es, fs)
  {
    ViewWellKeyed(s);
  }

  lemma {:induction false} ListedRuns(s: State, name: nat -> Bytes, block: BlockFunction, n: nat) returns (all: seq<Entry>)
    requires Inv(s) && OpensAll(block, s.version, name) && n <= RunCount(s)
    ensures Sorted(all)
    ensures forall e :: e in all <==> exists i :: 0 <= i < n && e in Runs(s, name, block)[i]
  {
    hide Inv, View, RunAt, OpensAll, Fresh;
    if n == 0 {
      all := [];
    } else {
      var init := ListedRuns(s, name, block, n - 1);
      var runs := Runs(s, name, block);
      var fs := runs[n - 1];
      RunSorted(s, name, block, n - 1);
      forall e | e in init ensures e in View(s) && e !in fs {
        var i :| 0 <= i < n - 1 && e in runs[i];
        RunHolds(s, name, block, i, e);
        RunsApart(s, name, block, i, n - 1, e);
      }
      forall e | e in fs ensures e in View(s) {
        RunHolds(s, name, block, n - 1, e);
      }
      RunsFresh(s, init, fs);
      all := InsertedRun(init, fs, |fs|);
      assert fs[..|fs|] == fs;
      forall e | e in all ensures exists i :: 0 <= i < n && e in runs[i] {
        if e !in init {
          assert e in runs[n - 1];
        }
      }
    }
  }

  /** Every store has a sorted listing, and its runs merge into it. */
  lemma ListingExists(s: State, name: nat -> Bytes, block: BlockFunction) returns (all: seq<Entry>)
    requires Inv(s) && OpensAll(block, s.version, name)
    ensures Sorted(all) && (forall e :: e in all <==> e in View(s)) && Merges(all, Runs(s, name, block))
  {
    hide Inv, View, RunAt, OpensAll, Sorted;
    all := ListedRuns(s, name, block, RunCount(s));
    forall e | e in all ensures e in View(s) {
      var i :| 0 <= i < RunCount(s) && e in Runs(s, name, block)[i];
      RunHolds(s, name, block, i, e);
    }
    forall e | e in View(s) ensures e in all {
      var i := HeldByRun(s, name, block, e);
      assert e in Runs(s, name, block)[i];
    }
    RunsMerge(s, name, block, all);
  }

  /** The key is listed with the value. */
  ghost predicate Lists(es: seq<Entry>, k: UserKey, x: Bytes) {
    exists e :: e in es && e.key.user == k && e.value == x
  }

  // ---- Making an iterator ----

  /** The memtables, as the skip lists that hold them. */
  ghost predicate HeldIn(s: State, mem: MemTable, imm: MemTable?)
    reads mem, mem.table, imm, if imm != null then {imm.table} else {}
  {
    && mem.Valid() && mem.entries == s.mem
    && (if imm == null then s.imm.None? else s.imm.Some? && imm.Valid() && imm.entries == s.imm.value)
  }

  ghost function Tables(mem: MemTable, imm: MemTable?): set<object> {
    {mem, mem.table} + if imm != null then {imm, imm.table} else {}
  }

  /** The iterator over one run: of a memtable's list, of a level-0 table, or of a deeper level through its index.
      Where there is no immutable memtable it has no entries. */
  method NewChild(s: State, mem: MemTable, imm: MemTable?, name: nat -> Bytes, block: BlockFunction, i: nat) returns (c: IteratorWrapper)
    requires Inv(s) && OpensAll(block, s.version, name) && HeldIn(s, mem, imm) && i < RunCount(s)
    ensures fresh(c.repr) && c in c.repr && c.Ok() && c.pos == None && c.entries == RunAt(s, name, block, i)
    ensures c.shared <= Tables(mem, imm)
  {
    hide Inv, OpensAll, Sorted, Concat, Indexed, Holds;
    RunSorted(s, name, block, i);
    var n := |s.version[0]|;
    if i == 0 || (i == 1 && imm != null) {
      var it := new MemTableIterator(if i == 0 then mem else imm);
      c := new IteratorWrapper.FromMemory(it);
    } else if i < 2 + n {
      var it := new EntryIterator(if i == 1 then [] else s.version[0][i - 2].entries);
      c := new IteratorWrapper.FromTable(it);
    } else {
      var files := s.version[i - 1 - n];
      LevelOpens(s, name, block, i - 1 - n);
      var index := new EntryIterator(LevelIndex(files, name));
      var it := new TwoLevelIterator(index, block);
      c := new IteratorWrapper.FromLevel(it);
    }
  }

  lemma LevelOpens(s: State, name: nat -> Bytes, block: BlockFunction, l: nat)
    requires Inv(s) && OpensAll(block, s.version, name) && 0 < l < NUM_LEVELS
    ensures Indexed(LevelIndex(s.version[l], name), block) && Sorted(LevelIndex(s.version[l], name))
  {
    InvFacts(s);
    LevelFacts(s.version, l);
    LevelIndexed(s.version[l], name, block);
  }

  method AddIterators(s: State, mem: MemTable, imm: MemTable?, name: nat -> Bytes, block: BlockFunction)
    returns (list: seq<IteratorWrapper>, ghost footprint: set<object>)
    requires Inv(s) && OpensAll(block, s.version, name) && HeldIn(s, mem, imm)
    ensures fresh(footprint) && Bounded(list, footprint, Tables(mem, imm))
    ensures |list| == RunCount(s) && forall i :: 0 <= i < |list| ==> list[i].pos == None && list[i].entries == RunAt(s, name, block, i)
    ensures forall i, j :: 0 <= i < j < |list| ==> list[i] != list[j]
  {
    hide Inv, RunAt, OpensAll, Sorted, HeldIn, Wrapper.IteratorWrapper.Ok;
    list, footprint := [], {};
    for n := 0 to RunCount(s)
      invariant fresh(footprint) && Bounded(list, footprint, Tables(mem, imm))
      invariant |list| == n && forall i :: 0 <= i < n ==> list[i].pos == None && list[i].entries == RunAt(s, name, block, i)
      invariant forall i, j :: 0 <= i < j < n ==> list[i] != list[j]
    {
      var child := NewChild(s, mem, imm, name, block, n);
      OneMoreBounded(list, footprint, Tables(mem, imm), child);
      list, footprint := list + [child], footprint + child.repr;
    }
  }

  lemma OneMoreBounded(list: seq<IteratorWrapper>, footprint: set<object>, shared: set<object>, c: IteratorWrapper)
    requires Bounded(list, footprint, shared) && c in c.repr && c.Ok() && c.repr !! footprint && c.repr !! shared && c.shared <= shared
    ensures Bounded(list + [c], footprint + c.repr, shared)
  {
    hide Wrapper.IteratorWrapper.Ok;
    var all := list + [c];
    forall i | 0 <= i < |all| ensures BoundedChild(all[i], footprint + c.repr, shared) {
      if i < |list| {
        assert BoundedChild(list[i], footprint, shared);
      }
    }
  }

  /** The database's iterator, at a snapshot or at the current sequence: over the merged children it walks the live
      keys, which are those a read of the store finds, with the values it finds. */
  method NewIterator(db: DB, snapshot: Option<Sequence>, mem: MemTable, imm: MemTable?, name: nat -> Bytes, block: BlockFunction) returns (iter: DBIter)
    requires db.Valid() && OpensAll(block, db.version, name) && HeldIn(db.St(), mem, imm)
    ensures fresh(iter) && fresh(iter.iter) && fresh(iter.iter.footprint)
    ensures iter.Ok() && !iter.IsValid() && iter.at == if snapshot.Some? then snapshot.value else db.lastSequence
    ensures Sorted(iter.iter.all) && forall e :: e in iter.iter.all <==> e in View(db.St())
    ensures forall k, x :: ReadAt(View(db.St()), k, iter.at) == Some(x) <==> Lists(iter.Entries(), k, x)
  {
    hide Inv, View, RunAt, OpensAll, Sorted, Merges, ReadAt, Bounded, HeldIn;
    var s := State(db.mem, db.imm, db.version, db.lastSequence, db.snapshots, db.nextFile);
    ghost var all := ListingExists(s, name, block);
    var list, footprint := AddIterators(s, mem, imm, name, block);
    assert seq(|list|, i requires 0 <= i < |list| => list[i].entries) == Runs(s, name, block);
    var internal := new Merging.MergingIterator(list, all, footprint, Tables(mem, imm));
    iter := new DBIter(internal, if snapshot.Some? then snapshot.value else db.lastSequence);
    ghost var at := iter.at;
    assert Of(all) == View(s);
    forall k, x ensures ReadAt(View(s), k, at) == Some(x) <==> Lists(LiveEntries(all, at), k, x) {
      LiveIsTheMap(all, at, k, x);
    }
  }

  /** Over any run, an iterator at the current sequence or at a held snapshot lists exactly the map
      built by the writes up to there. */
  lemma IteratorIsTheMap(states: seq<State>, actions: seq<Action>, all: seq<Entry>, n: Sequence, k: UserKey, x: Bytes)
    requires StoreMeaning.Run(states, actions)
    requires forall i :: 0 <= i < |actions| ==> Harmless(states[i], actions[i])
    requires var s := states[|actions|]; n == s.lastSequence || n in s.snapshots
    requires Sorted(all) && forall e :: e in all <==> e in View(states[|actions|])
    ensures n <= |AllWrites(actions)|
    ensures Lookup(Meaning(AllWrites(actions)[..n]), k) == Some(x)
       <==> Lists(LiveEntries(all, n), k, x)
  {
    hide View;
    StoreIsAMap(states, actions, k, n);
    LiveIsTheMap(all, n, k, x);
    assert Of(all) == View(states[|actions|]);
  }
}
