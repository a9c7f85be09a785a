/** Which files are on disk, over runs with flushes, compactions, readers, errors and crashes: no table or log
    that a reader, a task or a recovery could still need is deleted. */
module SafeDeletion {

  type Number = nat
  type Id = nat

  /** A version: its tables and how many hold it. It is on the list of versions while anyone does. */
  datatype Held = Held(tables: set<Number>, refs: nat)

  /** What the manifest tells a recovery. `flushed` is bookkeeping: the logs whose records are in the tables. */
  datatype Saved = Saved(tables: set<Number>, logNumber: Number, nextFile: Number, flushed: set<Number>)

  /** An edit on its way into the manifest. */
  datatype Edit = Edit(deleted: set<Number>, added: set<Number>, logNumber: Number, nextFile: Number, flushed: set<Number>)

  datatype Source = FromFlush | FromMerge | FromMove | FromOpen

  /** A compaction, from picking its inputs to its clean-up. */
  datatype Merge = NoMerge | Merging(input: Id, inputs: set<Number>, outputs: set<Number>, written: set<Number>)

  /** What the background thread is at: writing out the immutable memtable, perhaps in the middle of a
      compaction, or waiting for the manifest with the mutex released and the new version not yet installed. After
      a crash, the thread that opens the database writes the logs into tables first. */
  datatype Task =
    | Idle
    | Building(base: Id, number: Number, written: bool)
    | Applying(source: Source, edit: Edit, made: set<Number>)
    | Recovering(rebuilt: set<Number>)

  /** `immLog` are the logs whose records the flush, or the opening of the database, is to put into tables. */
  datatype State = State(
    tables: set<Number>,
    logs: set<Number>,
    versions: map<Id, Held>,
    current: Id,
    readers: multiset<Id>,
    pending: set<Number>,
    nextFile: Number,
    nextVersion: Id,
    logNumber: Number,
    logFile: Number,
    immLog: set<Number>,
    begun: set<Number>,
    manifests: set<Saved>,
    merge: Merge,
    task: Task,
    broken: bool)

  /** A fresh database: an empty version, its first log, and a manifest that says so. */
  function Init(): State {
    State({}, {3}, map[0 := Held({}, 1)], 0, multiset{}, {}, 4, 1, 3, 3, {}, {3}, {Saved({}, 3, 4, {})}, NoMerge, Idle, false)
  }

  function TablesOf(s: State, id: Id): set<Number> {
    if id in s.versions then s.versions[id].tables else {}
  }

  /** Some version on the list names the table. */
  predicate Named(versions: map<Id, Held>, n: Number) {
    exists id :: id in versions && n in versions[id].tables
  }

  function Referenced(versions: map<Id, Held>, id: Id): map<Id, Held> {
    if id in versions then versions[id := versions[id].(refs := versions[id].refs + 1)] else versions
  }

  /** A version nobody holds any more leaves the list. */
  function Unreferenced(versions: map<Id, Held>, id: Id): map<Id, Held> {
    if id in versions && versions[id].refs > 1 then versions[id := versions[id].(refs := versions[id].refs - 1)]
    else versions - {id}
  }

  /** Deletes every table that is neither pending nor named, and every log older than the log number; nothing
      after an error, for then the manifest may or may not hold the last edit. */
  function Cleaned(s: State): State {
    if s.broken then s
    else
      s.(tables := (set n | n in s.tables && (n in s.pending || Named(s.versions, n))),
         logs := (set l | l in s.logs && (l >= s.logNumber || l == 0)))
  }

  function Amended(m: Saved, e: Edit): Saved {
    Saved(m.tables - e.deleted + e.added, e.logNumber, e.nextFile, m.flushed + e.flushed)
  }

  function AllAmended(ms: set<Saved>, e: Edit): set<Saved> {
    set m | m in ms :: Amended(m, e)
  }

  /** What a recovery could find in the manifest now: the edit under way may be there or not. */
  function Possible(s: State): set<Saved> {
    if s.task.Applying? then s.manifests + AllAmended(s.manifests, s.task.edit) else s.manifests
  }

  // ---- Steps ----

  datatype Step =
    | Ref | Unref(id: Id)
    | Switch
    | Fail
    | Flush | WriteTable | Flushed(empty: bool, ok: bool)
    | Pick(inputs: set<Number>) | Output | WriteOutput(n: Number) | Merged(ok: bool)
    | Move(n: Number)
    | Applied(ok: bool)
    | Crash(m: Saved) | Mark(l: Number) | Rebuild | StartLog

  /** The database is open, as far as its users can tell. */
  predicate Open(s: State) {
    !s.task.Recovering? && !(s.task.Applying? && s.task.source.FromOpen?)
  }

  ghost predicate Enabled(s: State, a: Step) {
    match a
    case Ref => Open(s)
    case Unref(id) => s.readers[id] > 0
    case Switch => Open(s) && s.immLog == {} && !s.broken
    case Fail => Open(s)
    // Between keys of a compaction a flush may run even after an error.
    case Flush => s.task.Idle? && s.immLog != {} && (s.merge.NoMerge? ==> !s.broken)
    case WriteTable => s.task.Building?
    case Flushed(empty, ok) => s.task.Building? && (ok && !empty ==> s.task.written)
    case Pick(inputs) => s.immLog == {} && s.task.Idle? && s.merge.NoMerge? && !s.broken && inputs <= TablesOf(s, s.current)
    case Output => s.task.Idle? && s.merge.Merging?
    case WriteOutput(n) => s.task.Idle? && s.merge.Merging? && n in s.merge.outputs
    case Merged(ok) => s.task.Idle? && s.merge.Merging? && (ok ==> s.merge.outputs == s.merge.written)
    case Move(n) => s.immLog == {} && s.task.Idle? && s.merge.NoMerge? && !s.broken && n in TablesOf(s, s.current)
    case Applied(_) => s.task.Applying?
    // Opening checks that the tables of the manifest are there.
    case Crash(m) => m in Possible(s) && m.tables <= s.tables
    case Mark(l) => s.task.Recovering? && l in s.logs && l >= s.logNumber
    case Rebuild => s.task.Recovering?
    case StartLog => s.task.Recovering? && forall l :: l in s.immLog ==> l < s.nextFile
  }

  /** The flush is over: its table is no longer pending, and no version names it before the edit is applied. */
  function AfterFlush(s: State, empty: bool, ok: bool): State
    requires s.task.Building?
  {
    var n := s.task.number;
    var t := s.(pending := s.pending - {n}, versions := Unreferenced(s.versions, s.task.base),
                tables := if ok && !empty then s.tables else s.tables - {n});
    if !ok then t.(task := Idle, broken := true)
    else
      var added := if empty then {} else {n};
      t.(task := Applying(FromFlush, Edit({}, added, s.logFile, s.nextFile, s.immLog), TablesOf(s, s.current) + added))
  }

  /** The compaction's inputs are released and its outputs are no longer pending. */
  function Freed(s: State): State
    requires s.merge.Merging?
  {
    s.(merge := NoMerge, pending := s.pending - s.merge.outputs, versions := Unreferenced(s.versions, s.merge.input))
  }

  /** The version made from the edit becomes the current one. */
  function Installed(s: State): State
    requires s.task.Applying?
  {
    s.(versions := Unreferenced(s.versions, s.current)[s.nextVersion := Held(s.task.made, 1)], current := s.nextVersion,
       nextVersion := s.nextVersion + 1, logNumber := s.task.edit.logNumber,
       manifests := AllAmended(s.manifests, s.task.edit), task := Idle)
  }

  /** The manifest was written, or perhaps not, and the thread that asked for it lets go of its files. */
  function Settled(s: State, ok: bool): State
    requires s.task.Applying?
  {
    var t := if ok then Installed(s) else s.(manifests := Possible(s), broken := true, task := Idle);
    match s.task.source
    case FromFlush => if ok then t.(immLog := {}) else t
    case FromMerge => if t.merge.Merging? then Freed(t) else t
    case FromMove => t
    case FromOpen => if ok then t.(immLog := {}) else t
  }

  /** The database is opened again on the files a crash left. All that is known is the manifest, and the logs it
      does not cover are to be written into tables. A crash while the database is being opened is one more. */
  function Crashed(s: State, m: Saved): State {
    State(s.tables, s.logs, map[s.nextVersion := Held(m.tables, 1)], s.nextVersion, multiset{}, {}, m.nextFile,
          s.nextVersion + 1, m.logNumber, 0, s.begun - m.flushed, s.begun, {m}, NoMerge, Recovering({}), false)
  }

  /** A new log begins, and the manifest is replaced by one with the new tables. */
  function LogStarted(s: State): State
    requires s.task.Recovering?
  {
    var log := s.nextFile;
    s.(logs := s.logs + {log}, begun := s.begun + {log}, logFile := log, nextFile := log + 1,
       task := Applying(FromOpen, Edit({}, s.task.rebuilt, log, log + 1, s.immLog), TablesOf(s, s.current) + s.task.rebuilt))
  }

  function After(s: State, a: Step): State
    requires Enabled(s, a)
  {
    match a
    case Ref => s.(readers := s.readers + multiset{s.current}, versions := Referenced(s.versions, s.current))
    case Unref(id) => s.(readers := s.readers - multiset{id}, versions := Unreferenced(s.versions, id))
    case Switch =>
      s.(immLog := {s.logFile}, logFile := s.nextFile, logs := s.logs + {s.nextFile}, begun := s.begun + {s.nextFile},
         nextFile := s.nextFile + 1)
    case Fail => s.(broken := true)
    case Flush =>
      s.(task := Building(s.current, s.nextFile, false), pending := s.pending + {s.nextFile}, nextFile := s.nextFile + 1,
         versions := Referenced(s.versions, s.current))
    case WriteTable => s.(tables := s.tables + {s.task.number}, task := s.task.(written := true))
    case Flushed(empty, ok) => AfterFlush(s, empty, ok)
    case Pick(inputs) => s.(merge := Merging(s.current, inputs, {}, {}), versions := Referenced(s.versions, s.current))
    case Output =>
      s.(merge := s.merge.(outputs := s.merge.outputs + {s.nextFile}), pending := s.pending + {s.nextFile},
         nextFile := s.nextFile + 1)
    case WriteOutput(n) => s.(tables := s.tables + {n}, merge := s.merge.(written := s.merge.written + {n}))
    case Merged(ok) =>
      if ok then
        s.(task := Applying(FromMerge, Edit(s.merge.inputs, s.merge.outputs, s.logNumber, s.nextFile, {}),
                            TablesOf(s, s.current) - s.merge.inputs + s.merge.outputs))
      else Cleaned(Freed(s.(broken := true)))
    case Move(n) =>
      s.(task := Applying(FromMove, Edit({n}, {n}, s.logNumber, s.nextFile, {}), TablesOf(s, s.current) - {n} + {n}))
    case Applied(ok) => if s.task.source.FromMove? then Settled(s, ok) else Cleaned(Settled(s, ok))
    case Crash(m) => Crashed(s, m)
    case Mark(l) => if l >= s.nextFile then s.(nextFile := l + 1) else s
    case Rebuild =>
      s.(tables := s.tables + {s.nextFile}, task := Recovering(s.task.rebuilt + {s.nextFile}), nextFile := s.nextFile + 1)
    case StartLog => LogStarted(s)
  }

  // ---- What every step keeps ----

  /** How many hold a version: readers, the database for the current one, a flush and a compaction. */
  function Holders(s: State, id: Id): nat {
    s.readers[id] + (if id == s.current then 1 else 0) + (if s.task.Building? && s.task.base == id then 1 else 0)
    + (if s.merge.Merging? && s.merge.input == id then 1 else 0)
  }

  /** A version is on the list exactly while somebody holds it. */
  predicate Counted(s: State, id: Id) {
    if id in s.versions then s.versions[id].refs == Holders(s, id) > 0 && id < s.nextVersion else Holders(s, id) == 0
  }

  predicate Below(ns: set<Number>, bound: Number) {
    forall n :: n in ns ==> n < bound
  }

  /** Every table a version names is written, and is not one being written now. */
  predicate VersionOk(s: State, id: Id) {
    id in s.versions ==> s.versions[id].tables <= s.tables && s.versions[id].tables !! s.pending
                         && forall n :: n in s.versions[id].tables ==> n < s.nextFile
  }

  predicate PendingOk(s: State) {
    s.pending == (if s.merge.Merging? then s.merge.outputs else {}) + (if s.task.Building? then {s.task.number} else {})
  }

  predicate MergeOk(s: State) {
    s.merge.Merging? ==> s.merge.inputs <= TablesOf(s, s.merge.input)
                         && s.merge.written <= s.merge.outputs && s.merge.written <= s.tables
                         && (forall n :: n in s.merge.outputs ==> n < s.nextFile)
  }

  /** Nobody but the thread that opens the database is there. */
  predicate Alone(s: State) {
    s.readers == multiset{} && s.versions.Keys == {s.current} && s.pending == {} && s.merge.NoMerge? && !s.broken
  }

  predicate TaskOk(s: State) {
    match s.task
    case Idle => true
    case Building(_, n, written) =>
      n < s.nextFile && s.immLog != {} && (written ==> n in s.tables) && (s.merge.Merging? ==> n !in s.merge.outputs)
    case Applying(source, e, made) =>
      && made == TablesOf(s, s.current) - e.deleted + e.added && e.added <= s.tables
      && Below(e.added, e.nextFile) && Below(e.flushed, e.nextFile) && e.nextFile <= s.nextFile && e.logNumber < e.nextFile
      && (forall m :: m in s.manifests ==> m.nextFile <= e.nextFile)
      && (forall l :: l in s.begun ==> l < e.nextFile || l in s.logs)
      && (source.FromFlush? ==> s.immLog != {} && e.logNumber == s.logFile && e.flushed == s.immLog && e.added !! s.pending)
      && (source.FromFlush? ==> forall n :: n in e.added ==> !Named(s.versions, n))
      && (source.FromOpen? ==> Alone(s) && e.logNumber == s.logFile && e.flushed == s.immLog
                               && forall m :: m in s.manifests ==> m.nextFile <= e.logNumber)
      && (source.FromMerge? || source.FromMove? ==> e.logNumber == s.logNumber && e.flushed == {})
      && (source.FromMerge? ==> s.merge.Merging? && s.merge.outputs == e.added)
      && (source.FromMove? ==> s.merge.NoMerge?)
    case Recovering(rebuilt) =>
      && rebuilt <= s.tables && Below(rebuilt, s.nextFile) && Alone(s)
  }

  /** While logs are being recovered there is no current one, and numbers of logs not marked yet may come again. */
  predicate LogsOk(s: State) {
    && 0 < s.logNumber && (forall l :: l in s.begun ==> 0 < l)
    && (forall l :: l in s.immLog ==> l in s.begun && l in s.logs && s.logNumber <= l)
    && if s.task.Recovering? then s.logFile == 0
       else
         && s.logNumber <= s.logFile < s.nextFile && s.logFile in s.logs && s.logFile in s.begun
         && (forall l :: l in s.immLog ==> l < s.logFile) && (forall l :: l in s.begun ==> l < s.nextFile)
  }

  /** The records of the log are in the manifest's tables, or a recovery would find and replay the log. */
  predicate Covered(s: State, m: Saved, l: Number) {
    l in m.flushed || (l in s.logs && m.logNumber <= l)
  }

  /** One of the manifests a recovery could find: its tables are on disk, and so is every log it needs. */
  predicate SavedOk(s: State, m: Saved) {
    && m.tables <= s.tables && Below(m.tables, m.nextFile) && Below(m.flushed, m.nextFile) && m.tables !! s.pending
    && 0 < m.logNumber < m.nextFile <= s.nextFile
    && (forall l :: l in s.begun ==> Covered(s, m, l) && (l in m.flushed || l in s.immLog || l == s.logFile))
    && (forall l :: l in s.begun ==> l < m.nextFile || l in s.logs)
    && (!s.broken ==> m.tables == TablesOf(s, s.current) && m.logNumber == s.logNumber)
    && (!s.broken && Open(s) ==> Below(m.flushed, s.logNumber))
  }

  ghost predicate Inv(s: State) {
    && (forall id :: Counted(s, id)) && (forall id :: VersionOk(s, id)) && (forall m :: m in s.manifests ==> SavedOk(s, m))
    && s.manifests != {} && PendingOk(s) && MergeOk(s) && TaskOk(s) && LogsOk(s)
  }

  lemma InvInitially()
    ensures Inv(Init())
  {
  }

  lemma RefKeeps(s: State)
    requires Inv(s) && Enabled(s, Ref)
    ensures Inv(After(s, Ref))
  {
    var t := After(s, Ref);
    forall id ensures Counted(t, id) && VersionOk(t, id) {
      assert Counted(s, id) && VersionOk(s, id);
    }
    assert Counted(s, s.current);
    forall m | m in t.manifests ensures SavedOk(t, m) {
      assert SavedOk(s, m);
    }
  }

  lemma VersionUnrefed(s: State, id: Id, k: Id)
    requires Inv(s) && s.readers[id] > 0
    ensures Counted(After(s, Unref(id)), k) && VersionOk(After(s, Unref(id)), k)
    ensures k == s.current || (s.merge.Merging? && k == s.merge.input) ==> TablesOf(After(s, Unref(id)), k) == TablesOf(s, k)
  {
    hide SavedOk, LogsOk, TaskOk, MergeOk, PendingOk, Named, Below, Covered;
    assert Counted(s, id) && Counted(s, k) && VersionOk(s, k);
  }

  lemma UnrefKeeps(s: State, id: Id)
    requires Inv(s) && s.readers[id] > 0
    ensures Inv(After(s, Unref(id)))
  {
    hide Counted, VersionOk, TablesOf;
    var t := After(s, Unref(id));
    forall k ensures Counted(t, k) && VersionOk(t, k) {
      VersionUnrefed(s, id, k);
    }
    VersionUnrefed(s, id, s.current);
    if s.merge.Merging? {
      VersionUnrefed(s, id, s.merge.input);
    }
    forall m | m in t.manifests ensures SavedOk(t, m) {
      assert SavedOk(s, m);
    }
  }

  lemma SwitchKeeps(s: State)
    requires Inv(s) && Enabled(s, Switch)
    ensures Inv(After(s, Switch))
  {
    var t := After(s, Switch);
    forall id ensures Counted(t, id) && VersionOk(t, id) {
      assert Counted(s, id) && VersionOk(s, id);
    }
    forall m | m in t.manifests ensures SavedOk(t, m) {
      assert SavedOk(s, m);
    }
  }

  lemma FlushKeeps(s: State)
    requires Inv(s) && Enabled(s, Flush)
    ensures Inv(After(s, Flush))
  {
    var t := After(s, Flush);
    forall id ensures Counted(t, id) && VersionOk(t, id) {
      assert Counted(s, id) && VersionOk(s, id);
    }
    assert Counted(s, s.current);
    forall m | m in t.manifests ensures SavedOk(t, m) {
      assert SavedOk(s, m);
    }
  }

  lemma VersionFlushed(s: State, empty: bool, ok: bool, id: Id)
    requires Inv(s) && Enabled(s, Flushed(empty, ok))
    ensures Counted(After(s, Flushed(empty, ok)), id) && VersionOk(After(s, Flushed(empty, ok)), id)
    ensures s.task.number !in TablesOf(s, id)
    ensures id == s.current || (s.merge.Merging? && id == s.merge.input) ==> TablesOf(After(s, Flushed(empty, ok)), id) == TablesOf(s, id)
  {
    hide SavedOk, LogsOk, MergeOk;
    assert Counted(s, s.task.base) && Counted(s, id) && VersionOk(s, id);
  }

  lemma FlushedSaved(s: State, empty: bool, ok: bool, m: Saved)
    requires Inv(s) && Enabled(s, Flushed(empty, ok)) && m in s.manifests
    ensures SavedOk(After(s, Flushed(empty, ok)), m)
  {
    hide Counted, VersionOk, MergeOk;
    VersionFlushed(s, empty, ok, s.current);
    assert SavedOk(s, m);
  }

  lemma FlushedTask(s: State, empty: bool, ok: bool)
    requires Inv(s) && Enabled(s, Flushed(empty, ok))
    ensures var t := After(s, Flushed(empty, ok)); t.manifests == s.manifests && PendingOk(t) && MergeOk(t) && TaskOk(t) && LogsOk(t)
  {
    hide Counted, VersionOk;
    var t := After(s, Flushed(empty, ok));
    VersionFlushed(s, empty, ok, s.current);
    if s.merge.Merging? {
      VersionFlushed(s, empty, ok, s.merge.input);
    }
    assert forall m :: m in s.manifests ==> SavedOk(s, m);
    forall id | id in t.versions ensures s.task.number !in t.versions[id].tables {
      VersionFlushed(s, empty, ok, id);
    }
  }

  lemma FlushedKeeps(s: State, empty: bool, ok: bool)
    requires Inv(s) && Enabled(s, Flushed(empty, ok))
    ensures Inv(After(s, Flushed(empty, ok)))
  {
    hide Counted, VersionOk, SavedOk, PendingOk, MergeOk, TaskOk, LogsOk, After, Enabled;
    var t := After(s, Flushed(empty, ok));
    FlushedTask(s, empty, ok);
    forall id ensures Counted(t, id) && VersionOk(t, id) {
      VersionFlushed(s, empty, ok, id);
    }
    forall m | m in t.manifests ensures SavedOk(t, m) {
      FlushedSaved(s, empty, ok, m);
    }
  }

  lemma PickKeeps(s: State, inputs: set<Number>)
    requires Inv(s) && Enabled(s, Pick(inputs))
    ensures Inv(After(s, Pick(inputs)))
  {
    var t := After(s, Pick(inputs));
    forall id ensures Counted(t, id) && VersionOk(t, id) {
      assert Counted(s, id) && VersionOk(s, id);
    }
    assert Counted(s, s.current);
    forall m | m in t.manifests ensures SavedOk(t, m) {
      assert SavedOk(s, m);
    }
  }

  lemma VersionWritten(s: State, a: Step, id: Id)
    requires Inv(s) && Enabled(s, a)
    requires a.Fail? || a.WriteTable? || a.Output? || a.WriteOutput? || a == Merged(true) || a.Move?
    ensures Counted(After(s, a), id) && VersionOk(After(s, a), id)
  {
    hide SavedOk, LogsOk, TaskOk;
    assert Counted(s, id) && VersionOk(s, id);
  }

  lemma SavedWritten(s: State, a: Step, m: Saved)
    requires Inv(s) && Enabled(s, a) && m in s.manifests
    requires a.Fail? || a.WriteTable? || a.Output? || a.WriteOutput? || a == Merged(true) || a.Move?
    ensures SavedOk(After(s, a), m)
  {
    hide TaskOk, MergeOk, Counted, VersionOk;
    assert SavedOk(s, m);
  }

  lemma TaskWritten(s: State, a: Step)
    requires Inv(s) && Enabled(s, a)
    requires a.Fail? || a.WriteTable? || a.Output? || a.WriteOutput? || a == Merged(true) || a.Move?
    ensures var t := After(s, a); t.manifests == s.manifests && PendingOk(t) && MergeOk(t) && TaskOk(t) && LogsOk(t)
  {
    assert VersionOk(s, s.current) && Counted(s, s.current);
    assert forall m :: m in s.manifests ==> SavedOk(s, m);
  }

  /** Steps that write a table, begin an output or hand an edit over leave versions and manifests alone. */
  lemma WritingKeeps(s: State, a: Step)
    requires Inv(s) && Enabled(s, a)
    requires a.Fail? || a.WriteTable? || a.Output? || a.WriteOutput? || a == Merged(true) || a.Move?
    ensures Inv(After(s, a))
  {
    hide After, Counted, VersionOk, SavedOk, PendingOk, MergeOk, TaskOk, LogsOk, Enabled;
    TaskWritten(s, a);
    forall id ensures Counted(After(s, a), id) && VersionOk(After(s, a), id) {
      VersionWritten(s, a, id);
    }
    forall m | m in s.manifests ensures SavedOk(After(s, a), m) {
      SavedWritten(s, a, m);
    }
  }

  /** With no edit waiting for the manifest, cleaning up keeps everything. */
  lemma CleanKeeps(s: State)
    requires Inv(s) && s.task.Idle?
    ensures Inv(Cleaned(s))
  {
    var t := Cleaned(s);
    assert Counted(s, s.current);
    forall id ensures Counted(t, id) && VersionOk(t, id) {
      assert Counted(s, id) && VersionOk(s, id);
    }
    forall m | m in t.manifests ensures SavedOk(t, m) {
      assert SavedOk(s, m);
    }
  }

  lemma AmendedOk(s: State, m: Saved)
    requires Inv(s) && s.task.Applying? && m in s.manifests
    ensures SavedOk(Settled(s, true), Amended(m, s.task.edit))
  {
    hide VersionOk, MergeOk, Named;
    assert SavedOk(s, m) && Counted(s, s.current);
    if s.merge.Merging? {
      assert Counted(s, s.merge.input);
    }
  }

  lemma UnamendedOk(s: State, m: Saved)
    requires Inv(s) && s.task.Applying? && m in s.manifests
    ensures SavedOk(Settled(s, false), m)
  {
    hide Counted, VersionOk, MergeOk, Named, TaskOk, PendingOk, AllAmended;
    assert SavedOk(s, m);
  }

  lemma MaybeAmendedOk(s: State, m: Saved)
    requires Inv(s) && s.task.Applying? && m in s.manifests
    ensures SavedOk(Settled(s, false), Amended(m, s.task.edit))
  {
    hide Counted, VersionOk, MergeOk, Named, AllAmended;
    assert SavedOk(s, m);
  }

  lemma VersionUninstalled(s: State, id: Id)
    requires Inv(s) && s.task.Applying?
    ensures Counted(Settled(s, false), id) && VersionOk(Settled(s, false), id)
  {
    hide SavedOk, LogsOk, MergeOk, TaskOk, PendingOk, Named, AllAmended, Below, Covered;
    assert Counted(s, id) && VersionOk(s, id);
  }

  /** What a step may do to a version that stays as it is: count it differently, or drop it. */
  predicate SameTables(s: State, t: State, id: Id) {
    id in t.versions ==> id in s.versions && t.versions[id].tables == s.versions[id].tables
  }

  lemma InstalledVersion(s: State, id: Id)
    requires s.task.Applying? && id != s.nextVersion && Counted(s, id) && Counted(s, s.current)
    ensures Counted(Installed(s), id) && SameTables(s, Installed(s), id)
  {
    hide AllAmended;
  }

  lemma FreedVersion(s: State, id: Id)
    requires s.merge.Merging? && Counted(s, id) && !s.task.Building?
    ensures Counted(Freed(s), id) && SameTables(s, Freed(s), id)
  {
  }

  lemma SettledIs(s: State)
    requires s.task.Applying?
    ensures var t, u := Settled(s, true), if s.task.source.FromMerge? && s.merge.Merging? then Freed(Installed(s)) else Installed(s);
            t.(immLog := u.immLog) == u && t.pending <= s.pending && t.tables == s.tables && t.nextFile == s.nextFile
  {
    hide AllAmended, Unreferenced;
  }

  lemma SameCount(s: State, t: State, id: Id)
    requires t.(immLog := s.immLog) == s && Counted(s, id)
    ensures Counted(t, id) && t.versions == s.versions
  {
  }

  lemma VersionInstalled(s: State, id: Id)
    requires Inv(s) && s.task.Applying? && id != s.nextVersion
    ensures Counted(Settled(s, true), id) && VersionOk(Settled(s, true), id)
  {
    assert Counted(s, id) && VersionOk(s, id) && Counted(s, s.current);
    hide Inv, Counted, Settled, Installed, Freed;
    InstalledVersion(s, id);
    SettledIs(s);
    InstalledIdle(s);
    var u := Installed(s);
    if s.task.source.FromMerge? && s.merge.Merging? {
      FreedVersion(u, id);
      SameCount(Freed(u), Settled(s, true), id);
    } else {
      SameCount(u, Settled(s, true), id);
    }
  }

  lemma InstalledIdle(s: State)
    requires s.task.Applying?
    ensures Installed(s).merge == s.merge && Installed(s).task.Idle?
  {
  }

  lemma NewVersionOk(s: State)
    requires Inv(s) && s.task.Applying?
    ensures Counted(Settled(s, true), s.nextVersion) && VersionOk(Settled(s, true), s.nextVersion)
  {
    hide SavedOk, LogsOk, MergeOk, Named, AllAmended;
    assert Counted(s, s.nextVersion) && VersionOk(s, s.current) && Counted(s, s.current);
    if s.merge.Merging? {
      assert Counted(s, s.merge.input);
    }
  }

  lemma VersionSettles(s: State, ok: bool, id: Id)
    requires Inv(s) && s.task.Applying?
    ensures Counted(Settled(s, ok), id) && VersionOk(Settled(s, ok), id)
  {
    hide *;
    if !ok {
      VersionUninstalled(s, id);
    } else if id == s.nextVersion {
      NewVersionOk(s);
    } else {
      VersionInstalled(s, id);
    }
  }

  /** A failed flush keeps a compaction under way; the inputs it holds stay where they are. */
  lemma InputsSettle(s: State, ok: bool)
    requires Inv(s) && s.task.Applying? && s.merge.Merging?
    ensures Settled(s, ok).merge.Merging? ==> TablesOf(Settled(s, ok), s.merge.input) == TablesOf(s, s.merge.input)
  {
    hide SavedOk, LogsOk, VersionOk;
    assert Counted(s, s.merge.input) && Counted(s, s.current);
  }

  lemma SettledTask(s: State, ok: bool)
    requires Inv(s) && s.task.Applying?
    ensures var t := Settled(s, ok); t.task.Idle? && PendingOk(t) && MergeOk(t) && LogsOk(t) && t.manifests != {}
  {
    hide SavedOk, Counted, VersionOk, TablesOf;
    var first :| first in s.manifests;
    assert first in Settled(s, ok).manifests || Amended(first, s.task.edit) in Settled(s, ok).manifests;
    if s.merge.Merging? {
      InputsSettle(s, ok);
    }
  }

  lemma SettledSaved(s: State, ok: bool, m: Saved)
    requires Inv(s) && s.task.Applying? && m in Settled(s, ok).manifests
    ensures SavedOk(Settled(s, ok), m)
  {
    var m0 := SettledFrom(s, ok, m);
    hide *;
    if ok {
      AmendedOk(s, m0);
    } else {
      UnamendedOk(s, m0);
      MaybeAmendedOk(s, m0);
    }
  }

  lemma SettledFrom(s: State, ok: bool, m: Saved) returns (m0: Saved)
    requires s.task.Applying? && m in Settled(s, ok).manifests
    ensures m0 in s.manifests && ((!ok && m == m0) || m == Amended(m0, s.task.edit))
  {
    if !ok && m in s.manifests {
      m0 := m;
    } else {
      m0 :| m0 in s.manifests && m == Amended(m0, s.task.edit);
    }
  }

  lemma SettledKeeps(s: State, ok: bool)
    requires Inv(s) && s.task.Applying?
    ensures Inv(Settled(s, ok)) && Settled(s, ok).task.Idle?
  {
    hide *;
    var t := Settled(s, ok);
    SettledTask(s, ok);
    forall id ensures Counted(t, id) && VersionOk(t, id) {
      VersionSettles(s, ok, id);
    }
    forall m | m in t.manifests ensures SavedOk(t, m) {
      SettledSaved(s, ok, m);
    }
    IdleOk(t);
    InvFrom(t);
  }

  lemma IdleOk(s: State)
    requires s.task.Idle?
    ensures TaskOk(s)
  {
  }

  lemma InvFrom(s: State)
    requires (forall id :: Counted(s, id) && VersionOk(s, id)) && (forall m :: m in s.manifests ==> SavedOk(s, m))
    requires s.manifests != {} && PendingOk(s) && MergeOk(s) && TaskOk(s) && LogsOk(s)
    ensures Inv(s)
  {
    hide Counted, VersionOk, SavedOk, PendingOk, MergeOk, TaskOk, LogsOk;
  }

  lemma AppliedKeeps(s: State, ok: bool)
    requires Inv(s) && Enabled(s, Applied(ok))
    ensures Inv(After(s, Applied(ok)))
  {
    hide Inv;
    SettledKeeps(s, ok);
    if !s.task.source.FromMove? {
      CleanKeeps(Settled(s, ok));
    }
  }

  lemma FailedMergeKeeps(s: State)
    requires Inv(s) && Enabled(s, Merged(false))
    ensures Inv(After(s, Merged(false)))
  {
    var t := After(s, Merged(false));
    assert Counted(s, s.merge.input) && Counted(s, s.current);
    forall id ensures Counted(t, id) && VersionOk(t, id) {
      assert Counted(s, id) && VersionOk(s, id);
    }
    forall m | m in t.manifests ensures SavedOk(t, m) {
      assert SavedOk(s, m);
    }
  }

  lemma PossibleOk(s: State, m: Saved)
    requires Inv(s) && m in Possible(s)
    ensures m.tables <= s.tables && (forall l :: l in s.begun ==> Covered(s, m, l))
    ensures Below(m.tables, m.nextFile) && Below(m.flushed, m.nextFile) && 0 < m.logNumber < m.nextFile <= s.nextFile
    ensures forall l :: l in s.begun ==> l < m.nextFile || (l in s.logs && m.logNumber <= l)
  {
    if m in s.manifests {
      assert SavedOk(s, m);
    } else {
      var m0 :| m0 in s.manifests && m == Amended(m0, s.task.edit);
      assert SavedOk(s, m0);
    }
  }

  lemma CrashedSaved(s: State, m: Saved)
    requires Inv(s) && m in Possible(s) && m.tables <= s.tables
    ensures SavedOk(Crashed(s, m), m)
  {
    PossibleOk(s, m);
    hide Inv, Possible;
    var t := Crashed(s, m);
    forall l | l in t.begun ensures Covered(t, m, l) && (l in m.flushed || l in t.immLog) {
      assert Covered(s, m, l);
    }
    SavedThere(t, m);
  }

  lemma CrashKeeps(s: State, m: Saved)
    requires Inv(s) && Enabled(s, Crash(m))
    ensures Inv(After(s, Crash(m)))
  {
    CrashedSaved(s, m);
    PossibleOk(s, m);
    assert forall l :: l in s.begun ==> 0 < l && Covered(s, m, l);
    hide Inv, Possible, SavedOk;
    var t := Crashed(s, m);
    forall id ensures Counted(t, id) && VersionOk(t, id) {
    }
    InvFrom(t);
  }

  lemma SavedThere(t: State, m: Saved)
    requires m.tables <= t.tables && m.tables == TablesOf(t, t.current) && t.pending == {} && m.logNumber == t.logNumber
    requires Below(m.tables, m.nextFile) && Below(m.flushed, m.nextFile) && 0 < m.logNumber < m.nextFile == t.nextFile
    requires forall l :: l in t.begun ==> Covered(t, m, l) && (l in m.flushed || l in t.immLog)
    requires !Open(t)
    ensures SavedOk(t, m)
  {
  }

  /** Recovery writes only new tables, and changes no version. */
  lemma RecoveringKeeps(s: State, a: Step)
    requires Inv(s) && Enabled(s, a) && (a.Mark? || a.Rebuild?)
    ensures Inv(After(s, a))
  {
    var t := After(s, a);
    forall id ensures Counted(t, id) && VersionOk(t, id) {
      assert Counted(s, id) && VersionOk(s, id);
    }
    forall m | m in t.manifests ensures SavedOk(t, m) {
      assert SavedOk(s, m);
    }
  }

  lemma StartLogKeeps(s: State)
    requires Inv(s) && Enabled(s, StartLog)
    ensures Inv(After(s, StartLog))
  {
    var t := LogStarted(s);
    forall id ensures Counted(t, id) && VersionOk(t, id) {
      assert Counted(s, id) && VersionOk(s, id);
    }
    forall m | m in t.manifests ensures SavedOk(t, m) {
      assert SavedOk(s, m);
    }
    assert VersionOk(s, s.current);
  }

  lemma StepKeeps(s: State, a: Step)
    requires Inv(s) && Enabled(s, a)
    ensures Inv(After(s, a))
  {
    hide Inv, After;
    match a {
      case Ref => RefKeeps(s);
      case Unref(id) => UnrefKeeps(s, id);
      case Switch => SwitchKeeps(s);
      case Flush => FlushKeeps(s);
      case Flushed(empty, ok) => FlushedKeeps(s, empty, ok);
      case Pick(inputs) => PickKeeps(s, inputs);
      case Merged(false) => FailedMergeKeeps(s);
      case Applied(ok) => AppliedKeeps(s, ok);
      case Crash(m) => CrashKeeps(s, m);
      case StartLog => StartLogKeeps(s);
      case Mark(l) => RecoveringKeeps(s, a);
      case Rebuild => RecoveringKeeps(s, a);
      case _ => WritingKeeps(s, a);
    }
  }

  // ---- What follows over every run ----

  /** Nothing that could still be wanted is missing: the tables of every version somebody holds, the tables
      being written or installed, and, whatever the manifest turns out to say after a crash, its tables and
      every log with records they lack. */
  ghost predicate Safe(s: State) {
    && (forall id :: Holders(s, id) > 0 ==> id in s.versions && s.versions[id].tables <= s.tables)
    && (s.task.Building? && s.task.written ==> s.task.number in s.tables)
    && (s.task.Applying? ==> s.task.made <= s.tables)
    && (s.merge.Merging? ==> s.merge.inputs + s.merge.written <= s.tables)
    && (s.task.Recovering? ==> s.task.rebuilt <= s.tables)
    && (forall m :: m in Possible(s) ==> m.tables <= s.tables && forall l :: l in s.begun ==> Covered(s, m, l))
  }

  lemma InvIsSafe(s: State)
    requires Inv(s)
    ensures Safe(s)
  {
    forall id | Holders(s, id) > 0 ensures id in s.versions && s.versions[id].tables <= s.tables {
      assert Counted(s, id) && VersionOk(s, id);
    }
    forall m | m in Possible(s) ensures m.tables <= s.tables && forall l :: l in s.begun ==> Covered(s, m, l) {
      PossibleOk(s, m);
    }
    assert Holders(s, s.current) > 0;
    if s.merge.Merging? {
      assert Holders(s, s.merge.input) > 0;
    }
  }

  ghost predicate Run(ss: seq<State>, steps: seq<Step>) {
    && |ss| == |steps| + 1 && ss[0] == Init()
    && forall i :: 0 <= i < |steps| ==> Enabled(ss[i], steps[i]) && ss[i + 1] == After(ss[i], steps[i])
  }

  lemma {:induction false} RunKeeps(ss: seq<State>, steps: seq<Step>, n: nat)
    requires Run(ss, steps) && n < |ss|
    ensures Inv(ss[n])
  {
    hide Inv, After, Enabled;
    if n == 0 {
      InvInitially();
    } else {
      RunKeeps(ss, steps, n - 1);
      StepKeeps(ss[n - 1], steps[n - 1]);
    }
  }

  /** In every state of every run nothing that is still needed has been deleted. */
  lemma {:induction false} NothingNeededIsDeleted(ss: seq<State>, steps: seq<Step>, n: nat)
    requires Run(ss, steps) && n < |ss|
    ensures Safe(ss[n])
  {
    hide *;
    RunKeeps(ss, steps, n);
    InvIsSafe(ss[n]);
  }

  /** A number at or above every member. */
  lemma Bounded(logs: set<Number>) returns (n: Number)
    ensures forall l :: l in logs ==> l <= n
  {
    if logs == {} {
      n := 0;
    } else {
      var l :| l in logs;
      var k := Bounded(logs - {l});
      assert forall j :: j in logs ==> j == l || j in logs - {l};
      n := if l > k then l else k;
    }
  }

  /** When a database is open again, the records of every log begun before are in its tables, and these are the
      only tables on disk. */
  lemma OpenedHoldsAll(s: State)
    requires Inv(s) && s.task.Applying? && s.task.source.FromOpen?
    ensures var t := After(s, Applied(true));
            && t.tables == s.task.made && TablesOf(t, t.current) == s.task.made
            && forall m :: m in t.manifests ==> m.tables == s.task.made && m.logNumber == s.logFile && s.begun - {s.logFile} <= m.flushed
  {
    SettledKeeps(s, true);
    CleanKeeps(Settled(s, true));
    var t := After(s, Applied(true));
    assert Counted(s, s.current) && Counted(s, s.nextVersion);
    assert t.versions.Keys == {t.current};
    forall m | m in t.manifests
      ensures m.tables == s.task.made && m.logNumber == s.logFile && s.begun - {s.logFile} <= m.flushed
    {
      assert SavedOk(t, m);
    }
  }

  /** A crash in any state of a run, one in which the database is just being opened included, can be recovered
      from, whichever manifest it left: no table is missing, and the logs the manifest does not cover are there. */
  lemma {:induction false} CrashLosesNothing(ss: seq<State>, steps: seq<Step>, n: nat, m: Saved)
    requires Run(ss, steps) && n < |ss| && m in Possible(ss[n])
    ensures Enabled(ss[n], Crash(m))
    ensures forall l :: l in ss[n].begun ==> l in m.flushed || (l in ss[n].logs && l >= m.logNumber && l in After(ss[n], Crash(m)).immLog)
  {
    hide Run, Inv, Possible;
    RunKeeps(ss, steps, n);
    PossibleOk(ss[n], m);
    assert forall l :: l in ss[n].begun ==> Covered(ss[n], m, l);
  }

  /** Once the thread is idle and no reader is left, a clean-up leaves the current version's tables and the
      logs still in use, and no others. */
  lemma CleanLeavesNoGarbage(s: State)
    requires Inv(s) && s.task.Idle? && s.merge.NoMerge? && !s.broken && s.readers == multiset{}
    ensures Cleaned(s).tables == TablesOf(s, s.current)
    ensures forall l :: l in s.begun ==> (l in Cleaned(s).logs <==> l in s.immLog + {s.logFile})
  {
    assert Counted(s, s.current) && VersionOk(s, s.current);
    var m :| m in s.manifests;
    assert SavedOk(s, m);
    forall l | l in s.begun ensures l in Cleaned(s).logs <==> l in s.immLog + {s.logFile} {
      assert Covered(s, m, l);
    }
    forall n | n in Cleaned(s).tables ensures n in TablesOf(s, s.current) {
      var id :| id in s.versions && n in s.versions[id].tables;
      assert Counted(s, id);
    }
  }

  /** Why one background task at a time: while a flush's edit is on its way to the manifest its table is neither
      pending nor in a version, and a clean-up by anyone else would delete it. */
  lemma CleaningInTheWindowLosesTheFlush(s: State, n: Number)
    requires Inv(s) && s.task.Applying? && s.task.source.FromFlush? && n in s.task.edit.added
    ensures n in Cleaned(s).tables <==> s.broken
  {
  }
}
