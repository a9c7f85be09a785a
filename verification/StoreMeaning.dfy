/** The store refines one map with snapshots: over every run, a read at a live snapshot gives what
    replaying the writes up to that snapshot into a map gives. */
module StoreMeaning {
  import opened InternalKeys
  import opened Files
  import opened VersionSearch
  import opened CompactionPick
  import opened CompactionWork
  import opened CompactionInstall
  import opened CompactionMeaning
  import opened ManifestReplay
  import opened Store
  import opened StoreInvariant

  // ---- The specification: a map, and the log of all writes ----

  /** The map a sequence of operations builds. */
  function Meaning(ops: seq<Op>): map<UserKey, Bytes> {
    if ops == [] then map[]
    else
      var m := Meaning(ops[..|ops| - 1]);
      match ops[|ops| - 1]
      case Put(k, x) => m[k := x]
      case Delete(k) => m - {k}
  }

  function Lookup(m: map<UserKey, Bytes>, k: UserKey): Option<Bytes> {
    if k in m then Some(m[k]) else None
  }

  /** Every operation as an entry; the i-th write has sequence i. */
  ghost function History(ops: seq<Op>): iset<Entry>
    requires |ops| <= MAX_SEQUENCE
  {
    iset i | 0 <= i < |ops| :: EntryOf(ops[i], i + 1)
  }

  lemma {:induction false} HistoryMeaning(ops: seq<Op>, n: nat, k: UserKey)
    requires n <= |ops| <= MAX_SEQUENCE
    ensures ReadAt(History(ops), k, n) == Lookup(Meaning(ops[..n]), k)
  {
    if n == 0 {
      ReadAtNothing(History(ops), k, 0);
    } else {
      hide History, ReadAt;
      HistoryMeaning(ops, n - 1, k);
      HistoryNext(ops, n, k);
      MeaningNext(ops, n, k);
    }
  }

  /** Reading at the `n`th write: what it wrote, or what was there before. */
  lemma HistoryNext(ops: seq<Op>, n: nat, k: UserKey)
    requires 0 < n <= |ops| <= MAX_SEQUENCE
    ensures ReadAt(History(ops), k, n) ==
            if ops[n - 1].key != k then ReadAt(History(ops), k, n - 1)
            else if ops[n - 1].Put? then Some(ops[n - 1].value) else None
  {
    hide ReadAt;
    var h, e := History(ops), EntryOf(ops[n - 1], n);
    assert e in h;
    HistoryWellKeyed(ops);
    if e.key.user == k {
      ReadAtNewest(h, k, n, e);
    } else {
      forall d | d in h && VisibleAt(d, k, n) ensures VisibleAt(d, k, n - 1) {
      }
      SameVisible(h, k, n, n - 1);
    }
  }

  lemma MeaningNext(ops: seq<Op>, n: nat, k: UserKey)
    requires 0 < n <= |ops|
    ensures Lookup(Meaning(ops[..n]), k) ==
            if ops[n - 1].key != k then Lookup(Meaning(ops[..n - 1]), k)
            else if ops[n - 1].Put? then Some(ops[n - 1].value) else None
  {
    assert ops[..n][..n - 1] == ops[..n - 1];
  }

  lemma HistoryWellKeyed(ops: seq<Op>)
    requires |ops| <= MAX_SEQUENCE
    ensures WellKeyed(History(ops))
    ensures forall d :: d in History(ops) ==> 1 <= d.key.sequence <= |ops|
  {
  }

  lemma SameVisible(s: iset<Entry>, k: UserKey, n: int, m: int)
    requires WellKeyed(s) && forall d :: d in s ==> (VisibleAt(d, k, n) <==> VisibleAt(d, k, m))
    ensures ReadAt(s, k, n) == ReadAt(s, k, m)
  {
    if NothingVisible(s, k, n) {
      ReadAtNothing(s, k, n);
      ReadAtNothing(s, k, m);
    } else {
      var d :| d in s && VisibleAt(d, k, n);
      var e := NewestExists(s, k, n, d);
      assert IsNewest(s, k, m, e);
      ReadAtNewest(s, k, n, e);
      ReadAtNewest(s, k, m, e);
    }
  }

  // ---- Refinement ----

  ghost predicate Refines(s: State, ops: seq<Op>) {
    && |ops| == s.lastSequence
    && forall k, n :: n >= Oldest(s) ==> ReadAt(View(s), k, n) == ReadAt(History(ops), k, n)
  }

  lemma ViewWellKeyed(s: State)
    requires Inv(s)
    ensures WellKeyed(View(s))
  {
    hide Inv;
    hide ValidVersion;
    hide UniqueNumbers;
    InvFacts(s);
    forall a, b | a in View(s) && b in View(s) && a.key.user == b.key.user && a.key.sequence == b.key.sequence
      ensures a == b
    {
      if a in Contents(s.version) && b in Contents(s.version) {
        ContentsWellKeyed(s.version);
      } else if a in InMemory(s) && b in InMemory(s) {
        MemoryEntriesDiffer(s, a, b);
      }
    }
  }

  lemma MemoryEntriesDiffer(s: State, a: Entry, b: Entry)
    requires Sorted(s.mem) && Sorted(ImmEntries(s)) && NewerThan(s.mem, ImmEntries(s))
    requires a in InMemory(s) && b in InMemory(s) && a.key.user == b.key.user && a.key.sequence == b.key.sequence
    ensures a == b
  {
    var es := if a in s.mem then s.mem else ImmEntries(s);
    assert a in es && b in es;
  }

  /** Adding the same newer entries on both sides keeps reads equal. */
  lemma ExtendBoth(s: iset<Entry>, h: iset<Entry>, b: iset<Entry>, k: UserKey, n: int)
    requires WellKeyed(s + b) && WellKeyed(h + b)
    requires forall d, e :: d in b && (e in s || e in h) ==> d.key.sequence > e.key.sequence
    requires ReadAt(s, k, n) == ReadAt(h, k, n)
    ensures ReadAt(s + b, k, n) == ReadAt(h + b, k, n)
  {
    if NothingVisible(b, k, n) {
      OnlyOld(s, b, k, n);
      OnlyOld(h, b, k, n);
    } else {
      var d :| d in b && VisibleAt(d, k, n);
      var e := NewestExists(b, k, n, d);
      assert IsNewest(s + b, k, n, e) && IsNewest(h + b, k, n, e);
      ReadAtNewest(s + b, k, n, e);
      ReadAtNewest(h + b, k, n, e);
    }
  }

  lemma OnlyOld(s: iset<Entry>, b: iset<Entry>, k: UserKey, n: int)
    requires WellKeyed(s + b) && NothingVisible(b, k, n)
    ensures ReadAt(s + b, k, n) == ReadAt(s, k, n)
  {
    if NothingVisible(s, k, n) {
      ReadAtNothing(s, k, n);
      ReadAtNothing(s + b, k, n);
    } else {
      var d :| d in s && VisibleAt(d, k, n);
      var e := NewestExists(s, k, n, d);
      assert WellKeyed(s);
      assert IsNewest(s + b, k, n, e);
      ReadAtNewest(s, k, n, e);
      ReadAtNewest(s + b, k, n, e);
    }
  }

  ghost function BatchEntries(ops: seq<Op>, last: nat): iset<Entry>
    requires last + |ops| <= MAX_SEQUENCE
  {
    iset e | InBatch(ops, last, e)
  }

  lemma HistoryGrows(old': seq<Op>, ops: seq<Op>)
    requires |old'| + |ops| <= MAX_SEQUENCE
    ensures History(old' + ops) == History(old') + BatchEntries(ops, |old'|)
  {
    var all := old' + ops;
    forall e | e in History(all) ensures e in History(old') + BatchEntries(ops, |old'|) {
      var i :| 0 <= i < |all| && e == EntryOf(all[i], i + 1);
      if i >= |old'| {
        assert e == EntryOf(ops[i - |old'|], |old'| + (i - |old'|) + 1);
      } else {
        assert all[i] == old'[i];
      }
    }
    forall e | e in BatchEntries(ops, |old'|) ensures e in History(all) {
      var i :| 0 <= i < |ops| && e == EntryOf(ops[i], |old'| + i + 1);
      assert all[|old'| + i] == ops[i];
    }
    forall e | e in History(old') ensures e in History(all) {
      var i :| 0 <= i < |old'| && e == EntryOf(old'[i], i + 1);
      assert all[i] == old'[i];
    }
  }

  lemma WriteRefines(s: State, ops: seq<Op>, s': State, past: seq<Op>)
    requires Inv(s) && Refines(s, past) && WriteNext(s, ops, s')
    ensures Refines(s', past + ops)
  {
    hide Inv;
    hide ValidVersion;
    hide Contents;
    InvFacts(s);
    WriteKeepsInv(s, ops, s');
    ViewWellKeyed(s');
    HistoryWellKeyed(past + ops);
    HistoryWellKeyed(past);
    HistoryGrows(past, ops);
    var b := BatchEntries(ops, s.lastSequence);
    assert View(s') == View(s) + b by {
      forall d ensures d in View(s') <==> d in View(s) + b {
      }
    }
    forall k, n | n >= Oldest(s') ensures ReadAt(View(s'), k, n) == ReadAt(History(past + ops), k, n) {
      assert forall d :: d in b ==> d.key.sequence > s.lastSequence;
      ExtendBoth(View(s), History(past), b, k, n);
    }
  }

  lemma CompactIsCompaction(s: State, c: Inputs, m: seq<Entry>, outs: Level, s': State)
    requires Inv(s) && CompactNext(s, c, m, outs, s')
    ensures Compacts(InMemory(s), s.version, c, m, Oldest(s), outs, s'.version)
    ensures View(s') == Everything(InMemory(s), s'.version) && Oldest(s') == Oldest(s)
  {
    hide Inv;
    hide GoodInputs;
    hide Merged;
    hide Written;
    hide Applied;
    InvFacts(s);
    hide ValidVersion;
    CompactInstalls(s, c, m, outs, s');
    ViewWellKeyed(s);
    assert InMemory(s') == InMemory(s);
  }

  /** A compaction keeps the refinement exactly when it does not uncover older data at the edge of its
      lower inputs. */
  lemma CompactRefinesIff(s: State, c: Inputs, m: seq<Entry>, outs: Level, s': State, past: seq<Op>)
    requires Inv(s) && Refines(s, past) && CompactNext(s, c, m, outs, s')
    ensures Refines(s', past) <==> !Resurrects(InMemory(s), s.version, c, Oldest(s))
  {
    hide Inv;
    hide CompactNext;
    hide Resurrects;
    hide Compacts;
    hide Everything;
    hide ReadAt;
    CompactIsCompaction(s, c, m, outs, s');
    CompactionPreservesReads(InMemory(s), s.version, c, m, Oldest(s), outs, s'.version);
    assert View(s) == Everything(InMemory(s), s.version);
    assert s'.lastSequence == s.lastSequence by {
      CompactSequence(s, c, m, outs, s');
    }
    if Refines(s', past) {
      forall k, n | n >= Oldest(s) ensures SameRead(InMemory(s), s.version, s'.version, k, n) {
      }
    }
    if !Resurrects(InMemory(s), s.version, c, Oldest(s)) {
      forall k, n | n >= Oldest(s') ensures ReadAt(View(s'), k, n) == ReadAt(History(past), k, n) {
        assert SameRead(InMemory(s), s.version, s'.version, k, n);
      }
    }
  }

  lemma CompactSequence(s: State, c: Inputs, m: seq<Entry>, outs: Level, s': State)
    requires CompactNext(s, c, m, outs, s')
    ensures s'.lastSequence == s.lastSequence
  {
  }

  lemma MoveView(s: State, c: Inputs, s': State)
    requires Inv(s) && MoveNext(s, c, s')
    ensures View(s') == View(s)
  {
    hide Inv;
    hide GoodInputs;
    hide GoodOutputs;
    hide Applied;
    MoveInstalls(s, c, s');
    InputLevels(s.version, c);
    assert InMemory(s') == InMemory(s);
    forall d ensures d in Contents(s'.version) <==> d in Contents(s.version) {
      MovedContents(s.version, c, s'.version, d);
    }
  }

  lemma MovedContents(v: Version, c: Inputs, v': Version, d: Entry)
    requires GoodInputs(v, c) && c.lower == [] && GoodOutputs(c, c.upper) && Installed(v, c, c.upper, v')
    ensures d in Contents(v') <==> d in Contents(v)
  {
    if d in Contents(v') {
      InstalledContents(v, c, c.upper, v', d);
    }
    if d in Contents(v) {
      AfterContents(v, c, c.upper, v', d);
      var l: nat, f :| 0 <= l < NUM_LEVELS && f in v[l] && d in f.entries;
      if IsInput(c, l, f) {
        assert InFiles(d, c.upper);
      } else {
        assert Stays(v, c, l, f);
      }
    }
  }

  /** A step that does not change what is visible, and does not move the oldest reader back. */
  lemma SameViewRefines(s: State, s': State, past: seq<Op>)
    requires Refines(s, past) && View(s') == View(s) && Oldest(s') >= Oldest(s) && s'.lastSequence == s.lastSequence
    ensures Refines(s', past)
  {
  }

  /** The writes of an action. */
  function Writes(a: Action): seq<Op> {
    if a.Write? then a.ops else []
  }

  /** The one step that may lose data visible to a reader: see `Resurrects`. */
  ghost predicate Harmless(s: State, a: Action) {
    a.Compact? ==> !Resurrects(InMemory(s), s.version, a.c, Oldest(s))
  }

  lemma NextRefines(s: State, a: Action, s': State, past: seq<Op>)
    requires Inv(s) && Refines(s, past) && Next(s, a, s') && Harmless(s, a)
    ensures Refines(s', past + Writes(a))
  {
    hide Inv;
    hide Refines;
    hide View;
    hide Resurrects;
    assert !a.Write? ==> past + Writes(a) == past;
    match a
    case Write(ops) => WriteRefines(s, ops, s', past);
    case Switch =>
      SwitchKeepsInv(s, s');
      SameViewRefines(s, s', past);
    case Flush(level, file) =>
      FlushView(s, level, file, s');
      SameViewRefines(s, s', past);
    case Compact(c, m, outs) => CompactRefinesIff(s, c, m, outs, s', past);
    case Move(c) =>
      MoveView(s, c, s');
      SameViewRefines(s, s', past);
    case TakeSnapshot =>
      SnapshotKeepsInv(s, a, s');
      SameViewRefines(s, s', past);
    case Release(i) =>
      SnapshotKeepsInv(s, a, s');
      SameViewRefines(s, s', past);
  }

  // ---- Runs ----

  /** `states[0]` is the empty store and each action leads from one state to the next. */
  ghost predicate Run(states: seq<State>, actions: seq<Action>) {
    && |states| == |actions| + 1
    && states[0] == Init()
    && forall i :: 0 <= i < |actions| ==> Next(states[i], actions[i], states[i + 1])
  }

  function AllWrites(actions: seq<Action>): seq<Op> {
    if actions == [] then [] else AllWrites(actions[..|actions| - 1]) + Writes(actions[|actions| - 1])
  }

  lemma {:induction false} RunKeeps(states: seq<State>, actions: seq<Action>, n: nat)
    requires Run(states, actions) && n < |states|
    requires forall i :: 0 <= i < |actions| ==> Harmless(states[i], actions[i])
    ensures Inv(states[n]) && Refines(states[n], AllWrites(actions[..n]))
  {
    hide Inv;
    if n == 0 {
      InvInitially();
      InitRefines();
      assert actions[..0] == [];
    } else {
      hide Refines;
      RunKeeps(states, actions, n - 1);
      assert Next(states[n - 1], actions[n - 1], states[n]);
      NextKeepsInv(states[n - 1], actions[n - 1], states[n]);
      NextRefines(states[n - 1], actions[n - 1], states[n], AllWrites(actions[..n - 1]));
      assert actions[..n][..n - 1] == actions[..n - 1];
    }
  }

  lemma InitRefines()
    ensures Refines(Init(), [])
  {
    var s := Init();
    EmptyVersionOk(s.version, s.nextFile);
    forall k, n: int ensures ReadAt(View(s), k, n) == ReadAt(History([]), k, n) {
      ReadAtNothing(View(s), k, n);
      ReadAtNothing(History([]), k, n);
    }
  }

  lemma {:induction false} RunKeepsInv(states: seq<State>, actions: seq<Action>, n: nat)
    requires Run(states, actions) && n < |states|
    ensures Inv(states[n])
  {
    hide Inv;
    if n == 0 {
      InvInitially();
    } else {
      RunKeepsInv(states, actions, n - 1);
      NextKeepsInv(states[n - 1], actions[n - 1], states[n]);
    }
  }

  /** Over any run, reading a key at the current sequence or at a held snapshot finds in the map built
      by the writes up to there. */
  lemma StoreIsAMap(states: seq<State>, actions: seq<Action>, k: UserKey, n: nat)
    requires Run(states, actions)
    requires forall i :: 0 <= i < |actions| ==> Harmless(states[i], actions[i])
    requires var s := states[|actions|]; n == s.lastSequence || n in s.snapshots
    ensures n <= |AllWrites(actions)|
    ensures ReadAt(View(states[|actions|]), k, n) == Lookup(Meaning(AllWrites(actions)[..n]), k)
  {
    var s := states[|actions|];
    RunKeeps(states, actions, |actions|);
    assert actions[..|actions|] == actions;
    hide Inv;
    InvFacts(s);
    if n in s.snapshots {
      var i :| 0 <= i < |s.snapshots| && s.snapshots[i] == n;
      assert i > 0 ==> s.snapshots[0] <= s.snapshots[i];
    }
    HistoryMeaning(AllWrites(actions), n, k);
  }

  // ---- What a compaction drops ----

  /** An entry of the inputs is written again unless the oldest reader already sees a newer one of its key, or it is a
      tombstone no reader needs and no deeper table covers its key. */
  lemma CompactionKeeps(s: State, c: Inputs, m: seq<Entry>, outs: Level, s': State, i: nat)
    requires CompactNext(s, c, m, outs, s') && i < |m|
    ensures var oldest, k := if s.snapshots == [] then s.lastSequence else s.snapshots[0], m[i].key;
            (exists f :: f in outs && m[i] in f.entries) <==>
              !(|| (i > 0 && m[i - 1].key.user == k.user && m[i - 1].key.sequence <= oldest)
                || (k.kind.Deletion? && k.sequence <= oldest
                    && forall l, f :: c.level + 2 <= l < NUM_LEVELS && f in s.version[l] ==> !(f.smallest.user <= k.user <= f.largest.user)))
  {
    hide GoodInputs, Applied, Survivors, GoodOutputs;
    SurvivorsAre(s.version, c.level, m, |m|, Oldest(s), m[i]);
    assert InFiles(m[i], outs) <==> exists j :: 0 <= j < |m| && m[j] == m[i] && !Dropped(s.version, c.level, m, j, Oldest(s));
    forall j | 0 <= j < |m| && m[j] == m[i] ensures j == i {
      SortedAt(m, i, j);
      SortedAt(m, j, i);
    }
  }
}
