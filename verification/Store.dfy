/** The store as a state machine: writes, memtable switches, flushes, compactions and snapshots, and
    the invariant every step keeps. */
module Store {
  import opened InternalKeys
  import opened Files
  import opened CompactionInputs
  import opened CompactionPick
  import opened CompactionInstall
  import opened CompactionWork
  import opened CompactionMeaning
  import opened VersionBuilder
  import opened ManifestReplay

  datatype Op = Put(key: UserKey, value: Bytes) | Delete(key: UserKey)

  datatype State = State(mem: seq<Entry>, imm: Option<seq<Entry>>, version: Version,
                         lastSequence: Sequence, snapshots: seq<Sequence>, nextFile: nat)

  function EntryOf(op: Op, sequence: Sequence): Entry {
    match op
    case Put(k, x) => Entry(InternalKey(k, sequence, Value), x)
    case Delete(k) => Entry(InternalKey(k, sequence, Deletion), [])
  }

  /** Insertion into a memtable: the position among the sorted entries. */
  function InsertEntry(es: seq<Entry>, e: Entry): (r: seq<Entry>)
    ensures forall d :: d in r <==> d == e || d in es
  {
    if es == [] then [e]
    else if Less(e.key, es[0].key) then [e] + es
    else [es[0]] + InsertEntry(es[1..], e)
  }

  /** A batch goes into the memtable entry by entry, with consecutive sequences after `last`. */
  function InsertBatch(es: seq<Entry>, ops: seq<Op>, last: nat): (r: seq<Entry>)
    requires last + |ops| <= MAX_SEQUENCE
    ensures forall d :: d in r <==> d in es || InBatch(ops, last, d)
  {
    if ops == [] then es
    else
      var n := |ops| - 1;
      var r := InsertEntry(InsertBatch(es, ops[..n], last), EntryOf(ops[n], last + |ops|));
      assert forall d :: InBatch(ops, last, d) <==> InBatch(ops[..n], last, d) || d == EntryOf(ops[n], last + |ops|) by {
        forall d | InBatch(ops, last, d) ensures InBatch(ops[..n], last, d) || d == EntryOf(ops[n], last + |ops|) {
          var i :| 0 <= i < |ops| && d == EntryOf(ops[i], last + i + 1);
          if i < n {
            assert ops[..n][i] == ops[i];
          }
        }
        forall d | InBatch(ops[..n], last, d) ensures InBatch(ops, last, d) {
          var i :| 0 <= i < n && d == EntryOf(ops[..n][i], last + i + 1);
          assert d == EntryOf(ops[i], last + i + 1);
        }
      }
      r
  }

  predicate InBatch(ops: seq<Op>, last: nat, d: Entry)
    requires last + |ops| <= MAX_SEQUENCE
  {
    exists i :: 0 <= i < |ops| && d == EntryOf(ops[i], last + i + 1)
  }

  function ImmEntries(s: State): seq<Entry> {
    if s.imm.Some? then s.imm.value else []
  }

  /** Entries not yet in a table. */
  ghost function InMemory(s: State): iset<Entry> {
    iset e | e in s.mem || e in ImmEntries(s)
  }

  ghost function View(s: State): iset<Entry> {
    Everything(InMemory(s), s.version)
  }

  /** The sequence at or above which every live reader reads. */
  function Oldest(s: State): Sequence {
    if s.snapshots == [] then s.lastSequence else s.snapshots[0]
  }

  ghost predicate UniqueNumbers(v: Version, nextFile: nat) {
    && (forall l, f :: 0 <= l < NUM_LEVELS && f in v[l] ==> f.number < nextFile)
    && (forall l, m, f, g :: 0 <= l < NUM_LEVELS && 0 <= m < NUM_LEVELS && f in v[l] && g in v[m] && f.number == g.number
          ==> l == m && f == g)
  }

  ghost predicate SnapshotsOk(s: State) {
    && (forall i, j :: 0 <= i < j < |s.snapshots| ==> s.snapshots[i] <= s.snapshots[j])
    && (forall i :: 0 <= i < |s.snapshots| ==> s.snapshots[i] <= s.lastSequence)
    && s.lastSequence < MAX_SEQUENCE
  }

  ghost predicate Inv(s: State) {
    && Sorted(s.mem) && Sorted(ImmEntries(s))
    && NewerThan(s.mem, ImmEntries(s))
    && ValidVersion(s.version)
    && Above(InMemory(s), s.version)
    && (forall e :: e in View(s) ==> e.key.sequence <= s.lastSequence)
    && UniqueNumbers(s.version, s.nextFile)
    && SnapshotsOk(s)
  }

  function Init(): State {
    State([], None, [[], [], [], [], [], [], []], 0, [], 2)
  }

  // ---- Steps ----

  ghost predicate WriteNext(s: State, ops: seq<Op>, s': State) {
    && s.lastSequence + |ops| < MAX_SEQUENCE
    && s' == s.(mem := InsertBatch(s.mem, ops, s.lastSequence), lastSequence := s.lastSequence + |ops|)
  }

  /** The full memtable becomes the immutable one; its new log takes a file number. */
  ghost predicate SwitchNext(s: State, s': State) {
    s.imm.None? && s' == s.(imm := Some(s.mem), mem := [], nextFile := s.nextFile + 1)
  }

  /** A table over the immutable memtable may go to `level`. */
  ghost predicate MayPlace(v: Version, level: nat, lo: UserKey, hi: UserKey) {
    && level <= 2
    && (level > 0 ==> forall l, f :: 0 <= l <= level && f in v[l] ==> !Overlaps(f, Some(lo), Some(hi)))
  }

  ghost predicate FlushNext(s: State, level: nat, file: File, s': State) {
    && s.imm.Some?
    && if s.imm.value == [] then s' == s.(imm := None, nextFile := s.nextFile + 1)
       else
         && ValidFile(file) && file.entries == s.imm.value && file.number == s.nextFile
         && MayPlace(s.version, level, file.smallest.user, file.largest.user)
         && Applied(s.version, Edit([], [(level, file)]), s'.version)
         && s' == s.(imm := None, version := s'.version, nextFile := s.nextFile + 1)
  }

  function Deletions(l: nat, fs: Level): (r: seq<(nat, nat)>)
    ensures forall p :: p in r ==> p.0 == l && exists f :: f in fs && f.number == p.1
    ensures forall f :: f in fs ==> (l, f.number) in r
  {
    if fs == [] then [] else [(l, fs[0].number)] + Deletions(l, fs[1..])
  }

  function Additions(l: nat, fs: Level): (r: seq<(nat, File)>)
    ensures |r| == |fs| && forall i :: 0 <= i < |fs| ==> r[i] == (l, fs[i])
  {
    if fs == [] then [] else [(l, fs[0])] + Additions(l, fs[1..])
  }

  function CompactionEdit(c: Inputs, outs: Level): Edit {
    Edit(Deletions(c.level, c.upper) + Deletions(c.level + 1, c.lower), Additions(c.level + 1, outs))
  }

  ghost predicate NumberedFrom(outs: Level, n: nat) {
    forall i :: 0 <= i < |outs| ==> outs[i].number == n + i
  }

  ghost predicate CompactNext(s: State, c: Inputs, m: seq<Entry>, outs: Level, s': State) {
    && GoodInputs(s.version, c) && Merged(c, m)
    && Written(s.version, c, m, Oldest(s), outs) && NumberedFrom(outs, s.nextFile)
    && Applied(s.version, CompactionEdit(c, outs), s'.version)
    && s' == s.(version := s'.version, nextFile := s.nextFile + |outs|)
  }

  /** A single input file with nothing below it changes level without being rewritten. */
  ghost predicate MoveNext(s: State, c: Inputs, s': State) {
    && GoodInputs(s.version, c) && |c.upper| == 1 && c.lower == []
    && Applied(s.version, CompactionEdit(c, c.upper), s'.version)
    && s' == s.(version := s'.version)
  }

  ghost predicate SnapshotNext(s: State, s': State) {
    s' == s.(snapshots := s.snapshots + [s.lastSequence])
  }

  ghost predicate ReleaseNext(s: State, i: nat, s': State) {
    i < |s.snapshots| && s' == s.(snapshots := s.snapshots[..i] + s.snapshots[i + 1..])
  }

  datatype Action =
    | Write(ops: seq<Op>)
    | Switch
    | Flush(level: nat, file: File)
    | Compact(c: Inputs, merged: seq<Entry>, outs: Level)
    | Move(c: Inputs)
    | TakeSnapshot
    | Release(i: nat)

  ghost predicate Next(s: State, a: Action, s': State) {
    match a
    case Write(ops) => WriteNext(s, ops, s')
    case Switch => SwitchNext(s, s')
    case Flush(level, file) => FlushNext(s, level, file, s')
    case Compact(c, m, outs) => CompactNext(s, c, m, outs, s')
    case Move(c) => MoveNext(s, c, s')
    case TakeSnapshot => SnapshotNext(s, s')
    case Release(i) => ReleaseNext(s, i, s')
  }

  // ---- Edits install compactions ----

  lemma EditMembership(v: Version, e: Edit, v': Version, l: nat, f: File)
    requires Applied(v, e, v') && DistinctAdds(e) && l < NUM_LEVELS
    ensures SortedBySmallest(v'[l])
    ensures f in v'[l] <==> (f in v[l] || Adds(e, l, f)) && ((l, f.number) !in e.deleted || AddsNumber(e, l, f.number))
  {
    assert Saved(v[l], DeletedBy({}, e, l), AddedBy([], e, l), v'[l]);
    DeletedByIs({}, e, l, f.number);
    AddedByIs([], e, l, f);
  }

  lemma CompactionEditAdds(c: Inputs, outs: Level, l: nat, f: File)
    ensures Adds(CompactionEdit(c, outs), l, f) <==> l == c.level + 1 && f in outs
  {
    var e := CompactionEdit(c, outs);
    if l == c.level + 1 && f in outs {
      var i :| 0 <= i < |outs| && outs[i] == f;
      assert e.added[i] == (l, f);
    }
  }

  lemma NumberFacts(v: Version, n: nat, l: nat, f: File, m: nat, g: File)
    requires UniqueNumbers(v, n) && l < NUM_LEVELS && m < NUM_LEVELS && f in v[l] && g in v[m]
    ensures f.number < n && (f.number == g.number ==> l == m && f == g)
  {
  }

  lemma DeletionsAre(m: nat, fs: Level, l: nat, x: nat)
    ensures (l, x) in Deletions(m, fs) <==> l == m && HasNumber(fs, x)
  {
    if (l, x) in Deletions(m, fs) {
      assert (l, x).0 == m;
    }
  }

  /** An edit's deletions hit, among the files of the version, exactly the inputs. */
  lemma CompactionEditDeletes(v: Version, c: Inputs, outs: Level, n: nat, l: nat, f: File)
    requires GoodInputs(v, c) && UniqueNumbers(v, n) && l < NUM_LEVELS && f in v[l]
    ensures (l, f.number) in CompactionEdit(c, outs).deleted <==> IsInput(c, l, f)
  {
    hide UniqueNumbers, GoodInputs, Deletions, Additions, HasNumber;
    InputsAreFiles(v, c);
    DeletionsAre(c.level, c.upper, l, f.number);
    DeletionsAre(c.level + 1, c.lower, l, f.number);
    if l == c.level {
      OwnNumber(v, n, l, c.upper, f);
    }
    if l == c.level + 1 {
      OwnNumber(v, n, l, c.lower, f);
    }
  }

  /** A file's number is among those of some files of its level exactly if the file is. */
  lemma OwnNumber(v: Version, n: nat, l: nat, fs: Level, f: File)
    requires UniqueNumbers(v, n) && l < NUM_LEVELS && f in v[l] && forall g :: g in fs ==> g in v[l]
    ensures HasNumber(fs, f.number) <==> f in fs
  {
  }

  lemma InputsAreFiles(v: Version, c: Inputs)
    requires GoodInputs(v, c)
    ensures c.level + 1 < NUM_LEVELS
    ensures forall f :: f in c.upper ==> f in v[c.level]
    ensures forall f :: f in c.lower ==> f in v[c.level + 1]
  {
  }
}
