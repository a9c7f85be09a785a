/** The database object: every method carries out one step of the store's state machine. */
module Database {
  import opened InternalKeys
  import opened Files
  import opened VersionSearch
  import opened CompactionInputs
  import opened CompactionPick
  import opened CompactionInstall
  import opened CompactionWork
  import opened CompactionMeaning
  import opened VersionBuilder
  import opened ManifestReplay
  import opened Store
  import opened StoreInvariant
  import StoreMeaning

  // ---- Merged input ----

  lemma {:induction false} InsertNewSorted(es: seq<Entry>, e: Entry)
    requires Sorted(es) && forall d :: d in es ==> d.key.user != e.key.user || d.key.sequence != e.key.sequence
    ensures Sorted(InsertEntry(es, e))
  {
    if es != [] {
      assert es[0] in es;
      if !Less(e.key, es[0].key) {
        InsertNewSorted(es[1..], e);
        var r := InsertEntry(es[1..], e);
        assert forall i :: 0 <= i < |r| ==> r[i] == e || r[i] in es[1..];
        assert forall d :: d in es[1..] ==> Precedes(es[0].key, d.key);
      }
    }
  }

  /** No entry of `f` shares user key and sequence with an entry of `es`. */
  ghost predicate Fresh(es: seq<Entry>, fs: seq<Entry>) {
    forall d, e :: d in es && e in fs ==> d.key.user != e.key.user || d.key.sequence != e.key.sequence
  }

  method InsertAll(es: seq<Entry>, fs: seq<Entry>) returns (r: seq<Entry>)
    requires Sorted(es) && Sorted(fs) && Fresh(es, fs)
    ensures Sorted(r) && forall e :: e in r <==> e in es || e in fs
  {
    r := es;
    for i := 0 to |fs|
      invariant Sorted(r)
      invariant forall e :: e in r <==> e in es || e in fs[..i]
    {
      forall d | d in r ensures d.key.user != fs[i].key.user || d.key.sequence != fs[i].key.sequence {
        if d in fs[..i] {
          var j :| 0 <= j < i && fs[j] == d;
          assert Precedes(fs[j].key, fs[i].key);
        }
      }
      InsertNewSorted(r, fs[i]);
      r := InsertEntry(r, fs[i]);
      assert fs[..i + 1] == fs[..i] + [fs[i]];
    }
    assert fs[..|fs|] == fs;
  }

  /** Input files are pairwise free of common entries. */
  ghost predicate Apart(fs: Level) {
    forall i, j :: 0 <= i < j < |fs| ==> Fresh(fs[i].entries, fs[j].entries)
  }

  method MergeFiles(fs: Level) returns (m: seq<Entry>)
    requires ValidFiles(fs) && Apart(fs)
    ensures Sorted(m) && forall e :: e in m <==> InFiles(e, fs)
  {
    m := [];
    for i := 0 to |fs|
      invariant Sorted(m)
      invariant forall e :: e in m <==> InFiles(e, fs[..i])
    {
      assert ValidFile(fs[i]);
      assert Fresh(m, fs[i].entries) by {
        forall d | d in m ensures exists j :: 0 <= j < i && d in fs[j].entries {
          var f :| f in fs[..i] && d in f.entries;
          var j :| 0 <= j < i && fs[..i][j] == f;
          assert d in fs[j].entries;
        }
        assert forall j :: 0 <= j < i ==> Fresh(fs[j].entries, fs[i].entries);
      }
      m := InsertAll(m, fs[i].entries);
      InFilesNext(fs, i);
    }
    assert fs[..|fs|] == fs;
  }

  lemma InFilesNext(fs: Level, i: nat)
    requires i < |fs|
    ensures forall e :: InFiles(e, fs[..i + 1]) <==> InFiles(e, fs[..i]) || e in fs[i].entries
  {
    assert fs[..i + 1] == fs[..i] + [fs[i]];
    forall e ensures InFiles(e, fs[..i + 1]) <==> InFiles(e, fs[..i]) || e in fs[i].entries {
      if InFiles(e, fs[..i + 1]) {
        var f :| f in fs[..i + 1] && e in f.entries;
        assert f in fs[..i] || f == fs[i];
      }
      if InFiles(e, fs[..i]) {
        var f :| f in fs[..i] && e in f.entries;
        assert f in fs[..i + 1];
      }
      if e in fs[i].entries {
        assert fs[i] in fs[..i + 1];
      }
    }
  }

  lemma InputsApart(v: Version, c: Inputs)
    requires ValidVersion(v) && GoodInputs(v, c)
    ensures Apart(c.upper + c.lower) && ValidFiles(c.upper + c.lower)
    ensures forall e :: InFiles(e, c.upper + c.lower) <==> InInputs(c, e)
  {
    hide ValidVersion;
    hide NewerThan;
    InputsAreFiles(v, c);
    LevelFacts(v, c.level);
    LevelFacts(v, c.level + 1);
    InputsListed(v, c);
    hide GoodInputs;
    var all := c.upper + c.lower;
    forall i, j | 0 <= i < j < |all| ensures Fresh(all[i].entries, all[j].entries) {
      var l := if i < |c.upper| then c.level else c.level + 1;
      var m := if j < |c.upper| then c.level else c.level + 1;
      assert all[i] in v[l] && all[j] in v[m];
      DistinctFilesFresh(v, l, all[i], m, all[j]);
    }
    forall e ensures InFiles(e, all) <==> InInputs(c, e) {
      if InFiles(e, all) {
        var f :| f in all && e in f.entries;
        assert f in c.upper || f in c.lower;
      }
      if InFiles(e, c.upper) {
        var f :| f in c.upper && e in f.entries;
        assert f in all;
      }
      if InFiles(e, c.lower) {
        var f :| f in c.lower && e in f.entries;
        assert f in all;
      }
    }
  }

  lemma InputsListed(v: Version, c: Inputs)
    requires GoodInputs(v, c) && ValidFiles(v[c.level]) && ValidFiles(v[c.level + 1]) && SortedDisjoint(v[c.level + 1])
    ensures forall i, j :: 0 <= i < j < |c.upper| ==> c.upper[i] != c.upper[j]
    ensures forall i, j :: 0 <= i < j < |c.lower| ==> c.lower[i] != c.lower[j]
  {
    var a, b := OverlappingContiguous(v[c.level + 1], Some(c.smallest.user), Some(c.largest.user));
    RunSorted(v[c.level + 1], a, b);
    SortedDistinct(c.lower);
    if c.level > 0 {
      SortedDistinct(c.upper);
    }
  }

  lemma SortedDistinct(fs: Level)
    requires SortedDisjoint(fs) && ValidFiles(fs)
    ensures forall i, j :: 0 <= i < j < |fs| ==> fs[i] != fs[j]
  {
    forall i, j | 0 <= i < j < |fs| ensures fs[i] != fs[j] {
      FileOrdered(fs[i]);
    }
  }

  lemma DistinctFilesFresh(v: Version, l: nat, f: File, m: nat, g: File)
    requires ValidVersion(v) && l < NUM_LEVELS && m < NUM_LEVELS && f in v[l] && g in v[m] && (l != m || f != g)
    ensures Fresh(f.entries, g.entries)
  {
    forall d, e | d in f.entries && e in g.entries && d.key.user == e.key.user
      ensures d.key.sequence != e.key.sequence
    {
      if l < m {
        assert NewerThan(f.entries, g.entries);
      } else if m < l {
        assert NewerThan(g.entries, f.entries);
      } else {
        LevelFacts(v, l);
        if l == 0 {
          assert f.number != g.number;
          assert NewerThan(f.entries, g.entries) || NewerThan(g.entries, f.entries);
        } else {
          SortedPair(v[l], f, g);
          FileBounds(f, d);
          FileBounds(g, e);
        }
      }
    }
  }

  // ---- Output files ----

  /** The chunks the merge loop wrote, as numbered tables. */
  ghost predicate TablesOf(outs: seq<seq<Entry>>, files: Level, n: nat) {
    && |files| == |outs| && NumberedFrom(files, n)
    && forall i :: 0 <= i < |outs| ==> ValidFile(files[i]) && files[i].entries == outs[i]
  }

  method MakeTables(outs: seq<seq<Entry>>, n: nat) returns (files: Level)
    requires forall o :: o in outs ==> o != [] && Sorted(o)
    ensures TablesOf(outs, files, n)
  {
    files := [];
    for i := 0 to |outs|
      invariant TablesOf(outs[..i], files, n)
    {
      var o := outs[i];
      assert o in outs;
      var size: nat := *;
      files := files + [File(n + i, size, o[0].key, o[|o| - 1].key, o)];
    }
    assert outs[..|outs|] == outs;
  }

  lemma {:induction false} FlattenHas(outs: seq<seq<Entry>>, e: Entry)
    ensures e in Flatten(outs) <==> exists o :: o in outs && e in o
  {
    if outs != [] {
      FlattenHas(outs[..|outs| - 1], e);
      assert outs == outs[..|outs| - 1] + [outs[|outs| - 1]];
    }
  }

  lemma {:induction false} FlattenSorted(outs: seq<seq<Entry>>)
    requires Sorted(Flatten(outs))
    ensures forall o :: o in outs ==> Sorted(o)
    ensures forall i, j, d, e :: 0 <= i < j < |outs| && d in outs[i] && e in outs[j] ==> Precedes(d.key, e.key)
  {
    if outs != [] {
      var n := |outs| - 1;
      var init, last := outs[..n], outs[n];
      var all := Flatten(init) + last;
      assert Flatten(outs) == all;
      SortedParts(Flatten(init), last);
      FlattenSorted(init);
      assert outs == init + [last];
      forall i, j, d, e | 0 <= i < j < |outs| && d in outs[i] && e in outs[j] ensures Precedes(d.key, e.key) {
        if j == n {
          assert d in init[i] && init[i] in init;
          FlattenHas(init, d);
        } else {
          assert init[i] == outs[i] && init[j] == outs[j];
        }
      }
    }
  }

  lemma SortedParts(a: seq<Entry>, b: seq<Entry>)
    requires Sorted(a + b)
    ensures Sorted(a) && Sorted(b)
    ensures forall d, e :: d in a && e in b ==> Precedes(d.key, e.key)
  {
    var all := a + b;
    assert forall i :: 0 <= i < |a| ==> a[i] == all[i];
    assert forall i :: 0 <= i < |b| ==> b[i] == all[|a| + i];
  }

  lemma {:induction false} SurvivorsSorted(v: Version, level: nat, m: seq<Entry>, n: nat, snapshot: int)
    requires Sorted(m) && n <= |m|
    ensures Sorted(Survivors(v, level, m, n, snapshot))
    ensures forall e :: e in Survivors(v, level, m, n, snapshot) ==> e in m[..n]
  {
    hide Dropped;
    if n > 0 {
      SurvivorsSorted(v, level, m, n - 1, snapshot);
      assert m[..n] == m[..n - 1] + [m[n - 1]];
      var r := Survivors(v, level, m, n - 1, snapshot);
      assert forall i :: 0 <= i < |r| ==> r[i] in m[..n - 1];
    }
  }

  lemma TablesHold(outs: seq<seq<Entry>>, files: Level, n: nat, e: Entry)
    requires TablesOf(outs, files, n)
    ensures InFiles(e, files) <==> e in Flatten(outs)
  {
    FlattenHas(outs, e);
    if InFiles(e, files) {
      var f :| f in files && e in f.entries;
      var i :| 0 <= i < |files| && files[i] == f;
      assert outs[i] in outs;
    }
    if o :| o in outs && e in o {
      var i :| 0 <= i < |outs| && outs[i] == o;
      assert files[i] in files;
    }
  }

  lemma TablesSorted(outs: seq<seq<Entry>>, files: Level, n: nat)
    requires TablesOf(outs, files, n) && Sorted(Flatten(outs))
    ensures ValidFiles(files) && SortedDisjoint(files)
  {
    FlattenSorted(outs);
    forall i, j | 0 <= i < j < |files| ensures Precedes(files[i].largest, files[j].smallest) {
      var d, e := files[i].entries[|files[i].entries| - 1], files[j].entries[0];
      assert d in outs[i] && e in outs[j];
    }
  }

  /** Tables cut out of the survivors are good outputs holding exactly the survivors. */
  lemma TablesWritten(v: Version, c: Inputs, m: seq<Entry>, snapshot: int, outs: seq<seq<Entry>>, files: Level, n: nat)
    requires Merged(c, m) && Flatten(outs) == Survivors(v, c.level, m, |m|, snapshot) && TablesOf(outs, files, n)
    ensures Written(v, c, m, snapshot, files)
  {
    hide TablesOf;
    hide InInputs;
    hide Flatten;
    hide Survivors;
    SurvivorsSorted(v, c.level, m, |m|, snapshot);
    assert m[..|m|] == m;
    TablesSorted(outs, files, n);
    forall e ensures InFiles(e, files) <==> e in Flatten(outs) {
      TablesHold(outs, files, n, e);
    }
    forall f, e | f in files && e in f.entries ensures InInputs(c, e) {
      assert InFiles(e, files);
      assert e in m;
    }
  }

  lemma LevelZeroOrder(v: Version)
    requires ValidVersion(v)
    ensures forall l :: 0 <= l < NUM_LEVELS ==> SortedBySmallest(v[l])
  {
    forall l | 0 <= l < NUM_LEVELS ensures SortedBySmallest(v[l]) {
      LevelFacts(v, l);
      if l > 0 {
        forall i, j | 0 <= i < j < |v[l]| ensures BySmallest(v[l][i], v[l][j]) {
          FileOrdered(v[l][i]);
        }
      }
    }
  }

  // ---- The object ----

  /** A background step asked for: a range of a level, or a level picked by size or by a file read too often. */
  datatype Work = Range(level: nat, begin: Bound, end: Bound) | Automatic(level: nat, seekFile: Option<File>)

  class DB {
    const maxFileSize: nat
    var mem: seq<Entry>
    var imm: Option<seq<Entry>>
    var version: Version
    var lastSequence: Sequence
    var snapshots: seq<Sequence>
    var nextFile: nat
    var compactPointer: seq<Option<InternalKey>>

    ghost function St(): State
      reads this
    {
      State(mem, imm, version, lastSequence, snapshots, nextFile)
    }

    ghost predicate Valid()
      reads this
    {
      Inv(St()) && |compactPointer| == NUM_LEVELS
    }

    constructor (maxFileSize: nat)
      ensures Valid() && St() == Init() && this.maxFileSize == maxFileSize
    {
      this.maxFileSize := maxFileSize;
      mem, imm, version := [], None, [[], [], [], [], [], [], []];
      lastSequence, snapshots, nextFile := 0, [], 2;
      compactPointer := seq(NUM_LEVELS, _ => None);
      new;
      InvInitially();
    }

    /** A batch takes the sequences after the last one. */
    method Write(ops: seq<Op>)
      requires Valid() && lastSequence + |ops| < MAX_SEQUENCE
      modifies this
      ensures Valid() && WriteNext(old(St()), ops, St())
      ensures lastSequence == old(lastSequence) + |ops|
      ensures forall e :: e in mem <==> e in old(mem) || exists i :: 0 <= i < |ops| && e == EntryOf(ops[i], old(lastSequence) + i + 1)
    {
      hide Inv;
      ghost var s := St();
      var i := 0;
      while i < |ops|
        invariant 0 <= i <= |ops|
        invariant St() == s.(mem := InsertBatch(s.mem, ops[..i], s.lastSequence))
        invariant |compactPointer| == NUM_LEVELS
      {
        assert ops[..i + 1][..i] == ops[..i];
        mem := InsertEntry(mem, EntryOf(ops[i], lastSequence + i + 1));
        i := i + 1;
      }
      assert ops[..|ops|] == ops;
      lastSequence := lastSequence + |ops|;
      WriteKeepsInv(s, ops, St());
    }

    /** The memtable is full: it becomes immutable and a new one takes over. */
    method SwitchMemTable()
      requires Valid() && imm.None?
      modifies this
      ensures Valid() && SwitchNext(old(St()), St()) && imm == Some(old(mem)) && mem == []
    {
      hide Inv;
      ghost var s := St();
      nextFile := nextFile + 1;
      imm, mem := Some(mem), [];
      SwitchKeepsInv(s, St());
    }

    /** Memtable, then immutable memtable, then tables. */
    method Get(k: UserKey, snapshot: Option<Sequence>) returns (r: Answer)
      requires Valid()
      ensures Answers(View(St()), k, if snapshot.Some? then snapshot.value else lastSequence, r)
      ensures ReadAt(View(St()), k, if snapshot.Some? then snapshot.value else lastSequence) == if r.Found? then Some(r.value) else None
    {
      hide Inv;
      hide ValidVersion;
      hide Answers;
      hide View;
      ghost var s := St();
      InvFacts(s);
      var at := if snapshot.Some? then snapshot.value else lastSequence;
      SearchRunAnswers(s.mem, k, at);
      SearchRunAnswers(ImmEntries(s), k, at);
      r := SearchRun(mem, k, at);
      if r.NotFound? && imm.Some? {
        r := SearchRun(imm.value, k, at);
      }
      if r.NotFound? {
        r := VersionSearch.Get(version, k, at);
      }
      StagesDecide(s, k, at, SearchRun(s.mem, k, at), SearchRun(ImmEntries(s), k, at), r);
      StoreMeaning.ViewWellKeyed(s);
      AnswersAreReads(View(s), k, at, r);
    }

    /** Saves an edit into a new current version. */
    method LogAndApply(e: Edit)
      requires Valid() && ValidEdit(e)
      requires forall l, f, g :: 0 <= l < NUM_LEVELS && f in version[l] && Adds(e, l, g) ==> f.number != g.number
      modifies this`version
      ensures Applied(old(version), e, version)
    {
      hide Inv;
      InvFacts(St());
      LevelZeroOrder(version);
      hide ValidVersion;
      hide Saved;
      var builder := new Builder(version);
      builder.Apply(e);
      forall l: nat | l < NUM_LEVELS ensures Compatible(version[l], builder.deleted[l], builder.added[l]) {
        AddedByOnly(version, e, l);
      }
      version := builder.SaveTo();
    }

    /** Writes the immutable memtable out as a table. */
    method CompactMemTable() returns (ghost a: Action)
      requires Valid() && imm.Some?
      modifies this
      ensures Valid() && a.Flush? && Next(old(St()), a, St())
      ensures compactPointer == old(compactPointer) && imm.None? && mem == old(mem)
      ensures old(imm).value != [] ==> a.file.entries == old(imm).value
      ensures old(imm).value != [] ==> SinksTo(old(version), a.file.smallest.user, a.file.largest.user, maxFileSize, a.level)
    {
      hide Inv;
      hide ValidVersion;
      hide Applied;
      hide SinksTo, MayPlace, UniqueNumbers;
      ghost var s := St();
      InvFacts(s);
      var es := imm.value;
      var number := nextFile;
      nextFile := nextFile + 1;
      var level := 0;
      var file := File(number, 0, LookupKey(0, 0), LookupKey(0, 0), []);
      if es != [] {
        var size: nat := *;
        file := File(number, size, es[0].key, es[|es| - 1].key, es);
        level := PickLevelForMemTableOutput(version, file.smallest.user, file.largest.user, maxFileSize);
        SinkingMayPlace(version, file.smallest.user, file.largest.user, maxFileSize, level);
        MoreNumbers(version, s.nextFile, nextFile);
        InvFrom(St());
        var e := Edit([], [(level, file)]);
        forall l, f, g | 0 <= l < NUM_LEVELS && f in version[l] && Adds(e, l, g) ensures f.number != g.number {
          assert g == file;
        }
        LogAndApply(e);
      }
      imm := None;
      a := Flush(level, file);
      FlushKeepsInv(s, level, file, St());
    }

    /** Merges the inputs, drops what no reader needs, and installs the result. */
    method Compact(c: Inputs) returns (ghost a: Action)
      requires Valid() && GoodInputs(version, c)
      modifies this
      ensures Valid() && a.Compact? && a.c == c && Next(old(St()), a, St())
      ensures EndsAscend(c.grandparents) ==> forall f :: f in a.outs ==> Modest(c.grandparents, f.entries, maxFileSize)
      ensures compactPointer == old(compactPointer)
    {
      hide Inv;
      hide ValidVersion;
      hide GoodInputs;
      hide Applied;
      hide Written;
      hide IsBaseLevel;
      hide Survivors;
      hide Flatten;
      hide Apart;
      hide ValidFiles;
      ghost var s := St();
      InvFacts(s);
      InputsApart(version, c);
      var m := MergeFiles(c.upper + c.lower);
      assert Merged(c, m);
      var smallestSnapshot := if snapshots == [] then lastSequence else snapshots[0];
      var compaction := new Compaction(version, c, maxFileSize);
      var outs := DoCompactionWork(compaction, m, smallestSnapshot);
      SurvivorsSorted(version, c.level, m, |m|, smallestSnapshot);
      FlattenSorted(outs);
      var files := MakeTables(outs, nextFile);
      TablesWritten(version, c, m, smallestSnapshot, outs, files, nextFile);
      InstallCompactionResults(c, files);
      a := Action.Compact(c, m, files);
      CompactKeepsInv(s, c, m, files, St());
    }

    /** The edit that deletes the inputs and adds the outputs one level down. */
    method InstallCompactionResults(c: Inputs, files: Level)
      requires Valid() && GoodInputs(version, c) && NumberedFrom(files, nextFile)
      modifies this
      ensures Applied(old(version), CompactionEdit(c, files), version)
      ensures St() == old(St()).(version := version, nextFile := old(nextFile) + |files|)
      ensures compactPointer == old(compactPointer)
    {
      hide Inv;
      hide ValidVersion;
      hide Applied;
      hide UniqueNumbers;
      hide CompactionEdit;
      hide NumberedFrom;
      InvFacts(St());
      InputsAreFiles(version, c);
      hide GoodInputs;
      var e := CompactionEdit(c, files);
      CompactionEditFresh(version, c, files, nextFile);
      LogAndApply(e);
      nextFile := nextFile + |files|;
    }

    /** The inputs the compaction asked for is to have. */
    ghost predicate Takes(v: Version, work: Work, pointers: seq<Option<InternalKey>>, c: Inputs)
      reads this
      requires work.level + 1 < NUM_LEVELS && |pointers| == NUM_LEVELS
    {
      && GoodInputs(v, c) && c.level == work.level
      && if work.Range? then RangeTo(v, work.level, work.begin, work.end, maxFileSize, c)
         else PickedTo(v, work.level, work.seekFile, pointers[work.level], maxFileSize, c)
    }

    lemma TakenAscend(v: Version, work: Work, pointers: seq<Option<InternalKey>>, c: Inputs)
      requires ValidVersion(v) && work.level + 1 < NUM_LEVELS && |pointers| == NUM_LEVELS && Takes(v, work, pointers, c)
      ensures EndsAscend(c.grandparents)
    {
      hide ValidVersion, GoodInputs, CompletesTo, EndsAscend, IsPicked, OverlapResult;
      if work.Range? {
        var inputs, n :| OverlapResult(work.level, v[work.level], work.begin, work.end, inputs) && IsPrefix(inputs, n, work.level, maxFileSize)
          && CompletesTo(v, work.level, inputs[..n], maxFileSize, c);
        CompletedAscend(v, work.level, inputs[..n], maxFileSize, c);
      } else {
        var f, chosen :| IsPicked(v[work.level], work.seekFile, pointers[work.level], f) && CompletesTo(v, work.level, chosen, maxFileSize, c);
        CompletedAscend(v, work.level, chosen, maxFileSize, c);
      }
    }

    /** One background step: a pending memtable first, else the compaction asked for; a single file
        with nothing below it is only moved, unless a range was asked for. */
    method BackgroundCompaction(work: Work) returns (ghost a: Option<Action>)
      requires Valid() && work.level + 1 < NUM_LEVELS
      requires work.Automatic? ==> version[work.level] != []
      requires work.Automatic? && work.seekFile.Some? ==> work.seekFile.value in version[work.level]
      modifies this
      ensures Valid()
      ensures a.None? ==> St() == old(St())
      ensures a.Some? ==> Next(old(St()), a.value, St()) && !a.value.Write?
      ensures old(imm).Some? ==> a.Some? && a.value.Flush? && compactPointer == old(compactPointer)
      ensures old(imm).None? && a.None? ==>
                work.Range? && compactPointer == old(compactPointer) && forall f :: f in version[work.level] ==> !Overlaps(f, work.begin, work.end)
      ensures old(imm).None? && a.Some? ==> (a.value.Compact? || a.value.Move?) && Takes(old(version), work, old(compactPointer), a.value.c)
      ensures old(imm).None? && a.Some? ==> (a.value.Move? <==> work.Automatic? && Movable(a.value.c))
      ensures a.Some? && a.value.Compact? ==> forall f :: f in a.value.outs ==> Modest(a.value.c.grandparents, f.entries, maxFileSize)
      ensures old(imm).None? && a.Some? ==> compactPointer == old(compactPointer)[work.level := Some(a.value.c.largest)]
    {
      hide Inv, ValidVersion, GoodInputs, Next, PickedTo, RangeTo, TotalFileSize, Overlaps;
      a := None;
      if imm.Some? {
        ghost var f := CompactMemTable();
        a := Some(f);
        return;
      }
      InvFacts(St());
      var c;
      if work.Range? {
        var r := CompactRange(version, work.level, work.begin, work.end, maxFileSize);
        if r.None? {
          return;
        }
        c := r.value;
      } else {
        c := PickCompaction(version, work.level, work.seekFile, compactPointer[work.level], maxFileSize);
      }
      TakenAscend(version, work, compactPointer, c);
      compactPointer := compactPointer[work.level := Some(c.largest)];
      if work.Automatic? && |c.upper| == 1 && c.lower == []
         && TotalFileSize(c.grandparents) <= MaxGrandParentOverlapBytes(maxFileSize)
      {
        ghost var m := TrivialMove(c);
        a := Some(m);
      } else {
        ghost var m := Compact(c);
        a := Some(m);
      }
    }

    /** Moving costs no merge now, and no expensive one later. */
    predicate Movable(c: Inputs)
      reads this
    {
      |c.upper| == 1 && c.lower == [] && TotalFileSize(c.grandparents) <= 10 * maxFileSize
    }

    method TrivialMove(c: Inputs) returns (ghost a: Action)
      requires Valid() && GoodInputs(version, c) && |c.upper| == 1 && c.lower == []
      modifies this
      ensures Valid() && a == Move(c) && Next(old(St()), a, St())
      ensures compactPointer == old(compactPointer)
    {
      hide Inv;
      hide ValidVersion;
      hide Applied;
      ghost var s := St();
      InvFacts(s);
      InputsAreFiles(version, c);
      hide GoodInputs;
      var f := c.upper[0];
      assert f in c.upper;
      var e := Edit([(c.level, f.number)], [(c.level + 1, f)]);
      MoveEdit(c);
      forall l, g, h | 0 <= l < NUM_LEVELS && g in version[l] && Adds(e, l, h) ensures g.number != h.number {
        assert h == f && l == c.level + 1;
        NumberFacts(version, nextFile, l, g, c.level, f);
      }
      LogAndApply(e);
      a := Move(c);
      MoveKeepsInv(s, c, St());
    }

    method GetSnapshot() returns (n: Sequence)
      requires Valid()
      modifies this
      ensures Valid() && n == old(lastSequence) && SnapshotNext(old(St()), St()) && snapshots == old(snapshots) + [n]
    {
      hide Inv;
      ghost var s := St();
      n := lastSequence;
      snapshots := snapshots + [lastSequence];
      SnapshotKeepsInv(s, TakeSnapshot, St());
    }

    method ReleaseSnapshot(i: nat)
      requires Valid() && i < |snapshots|
      modifies this
      ensures Valid() && ReleaseNext(old(St()), i, St()) && snapshots == old(snapshots)[..i] + old(snapshots)[i + 1..]
    {
      hide Inv;
      ghost var s := St();
      snapshots := snapshots[..i] + snapshots[i + 1..];
      SnapshotKeepsInv(s, Release(i), St());
    }
  }

  lemma SinkingMayPlace(v: Version, lo: UserKey, hi: UserKey, maxFileSize: nat, level: nat)
    requires SinksTo(v, lo, hi, maxFileSize, level)
    ensures MayPlace(v, level, lo, hi)
  {
  }

  lemma MoveEdit(c: Inputs)
    requires |c.upper| == 1 && c.lower == []
    ensures CompactionEdit(c, c.upper) == Edit([(c.level, c.upper[0].number)], [(c.level + 1, c.upper[0])])
  {
    var f := c.upper[0];
    assert c.upper == [f];
    assert Deletions(c.level, [f]) == [(c.level, f.number)] + Deletions(c.level, []);
    assert Additions(c.level + 1, [f]) == [(c.level + 1, f)] + Additions(c.level + 1, []);
  }

  /** Output files take numbers no file of the version has. */
  lemma CompactionEditFresh(v: Version, c: Inputs, outs: Level, n: nat)
    requires UniqueNumbers(v, n) && NumberedFrom(outs, n) && c.level + 1 < NUM_LEVELS
    ensures ValidEdit(CompactionEdit(c, outs))
    ensures forall l, f, g :: 0 <= l < NUM_LEVELS && f in v[l] && Adds(CompactionEdit(c, outs), l, g) ==> f.number != g.number
  {
    var e := CompactionEdit(c, outs);
    forall l, f, g | 0 <= l < NUM_LEVELS && f in v[l] && Adds(e, l, g) ensures f.number != g.number {
      CompactionEditAdds(c, outs, l, g);
      var i :| 0 <= i < |outs| && outs[i] == g;
    }
  }

  /** A fresh builder's additions come from the edit. */
  lemma AddedByOnly(v: Version, e: Edit, l: nat)
    requires l < NUM_LEVELS
    requires forall f, g :: f in v[l] && Adds(e, l, g) ==> f.number != g.number
    ensures Compatible(v[l], DeletedBy({}, e, l), AddedBy([], e, l))
  {
    forall f, g | f in v[l] && g in AddedBy([], e, l) ensures f.number != g.number {
      AddedBelowFrom([], e, l, |e.added|, g);
    }
  }

  /** The first of memtable, immutable memtable and tables to know the key has the newest entry. */
  lemma StagesDecide(s: State, k: UserKey, at: Sequence, inMem: Answer, inImm: Answer, r: Answer)
    requires Inv(s)
    requires Answers(Of(s.mem), k, at, inMem) && Answers(Of(ImmEntries(s)), k, at, inImm)
    requires if !inMem.NotFound? then r == inMem else if !inImm.NotFound? then r == inImm
             else Answers(Contents(s.version), k, at, r)
    ensures Answers(View(s), k, at, r)
  {
    hide Inv;
    hide ValidVersion;
    hide Contents;
    InvFacts(s);
    if !inMem.NotFound? {
      var e :| IsNewest(Of(s.mem), k, at, e) && Reports(r, e);
      assert e in InMemory(s);
      assert IsNewest(View(s), k, at, e);
    } else if !inImm.NotFound? {
      var e :| IsNewest(Of(ImmEntries(s)), k, at, e) && Reports(r, e);
      assert e in InMemory(s);
      assert forall d :: d in s.mem ==> d in Of(s.mem);
      assert IsNewest(View(s), k, at, e);
    } else {
      assert forall d :: d in s.mem ==> d in Of(s.mem);
      assert forall d :: d in ImmEntries(s) ==> d in Of(ImmEntries(s));
      if !r.NotFound? {
        var e :| IsNewest(Contents(s.version), k, at, e) && Reports(r, e);
        assert IsNewest(View(s), k, at, e);
      }
    }
  }
}
