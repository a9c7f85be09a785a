/** The merge loop of a compaction: which entries it drops, and the base-level test with pointers
    that only move forward. */
module CompactionWork {
  import opened InternalKeys
  import opened Files
  import opened VersionSearch
  import opened CompactionInputs
  import opened CompactionPick

  /** No table more than one level below the inputs has `k` in its range. */
  ghost predicate IsBaseLevel(v: Version, level: nat, k: UserKey) {
    forall l, f :: level + 2 <= l < NUM_LEVELS && f in v[l] ==> !(f.smallest.user <= k <= f.largest.user)
  }

  /** The entry right before `i` is for the same user key and already answers every read at or
      above `snapshot`. */
  predicate Hidden(m: seq<Entry>, i: nat, snapshot: int)
    requires i < |m|
  {
    i > 0 && m[i - 1].key.user == m[i].key.user && m[i - 1].key.sequence <= snapshot
  }

  ghost predicate Dropped(v: Version, level: nat, m: seq<Entry>, i: nat, snapshot: int)
    requires i < |m|
  {
    || Hidden(m, i, snapshot)
    || (m[i].key.kind.Deletion? && m[i].key.sequence <= snapshot && IsBaseLevel(v, level, m[i].key.user))
  }

  /** What is written of the first `n` merged entries. */
  ghost function Survivors(v: Version, level: nat, m: seq<Entry>, n: nat, snapshot: int): seq<Entry>
    requires n <= |m|
  {
    if n == 0 then []
    else Survivors(v, level, m, n - 1, snapshot) + (if Dropped(v, level, m, n - 1, snapshot) then [] else [m[n - 1]])
  }

  function Flatten(outs: seq<seq<Entry>>): seq<Entry> {
    if outs == [] then [] else Flatten(outs[..|outs| - 1]) + outs[|outs| - 1]
  }

  class Compaction {
    const version: Version
    const inputs: Inputs
    const maxFileSize: nat
    var levelPtrs: seq<nat>
    var grandparentIndex: nat
    var seenKey: bool
    var overlappedBytes: nat

    /** Every table passed by a level's pointer ends before `k`. */
    ghost predicate PointersBefore(k: UserKey)
      reads this`levelPtrs
    {
      && |levelPtrs| == NUM_LEVELS
      && (forall l :: 0 <= l < NUM_LEVELS ==> levelPtrs[l] <= |version[l]|)
      && forall l, i :: 0 <= l < NUM_LEVELS && 0 <= i < levelPtrs[l] ==> version[l][i].largest.user < k
    }

    lemma PointersStayBefore(k: UserKey, k': UserKey)
      requires PointersBefore(k) && k <= k'
      ensures PointersBefore(k')
    {
    }

    constructor (version: Version, inputs: Inputs, maxFileSize: nat)
      ensures this.version == version && this.inputs == inputs && this.maxFileSize == maxFileSize
      ensures forall k :: PointersBefore(k)
      ensures grandparentIndex == 0 && overlappedBytes == 0
    {
      this.version, this.inputs, this.maxFileSize := version, inputs, maxFileSize;
      levelPtrs := [0, 0, 0, 0, 0, 0, 0];
      grandparentIndex, seenKey, overlappedBytes := 0, false, 0;
    }

    /** Whether a dropped tombstone of `k` can hide nothing deeper. The pointers never move back,
        so keys have to be asked in nondecreasing order. */
    method IsBaseLevelForKey(k: UserKey) returns (base: bool)
      requires ValidVersion(version) && PointersBefore(k)
      modifies this`levelPtrs
      ensures PointersBefore(k)
      ensures base <==> IsBaseLevel(version, inputs.level, k)
    {
      hide ValidVersion;
      var lvl := inputs.level + 2;
      while lvl < NUM_LEVELS
        invariant lvl >= inputs.level + 2 && PointersBefore(k)
        invariant forall l, f :: inputs.level + 2 <= l < lvl && l < NUM_LEVELS && f in version[l] ==>
                    !(f.smallest.user <= k <= f.largest.user)
      {
        var files := version[lvl];
        while levelPtrs[lvl] < |files|
          invariant PointersBefore(k)
          invariant levelPtrs[lvl] <= |files|
          decreases |files| - levelPtrs[lvl]
        {
          var f := files[levelPtrs[lvl]];
          if k <= f.largest.user {
            if k >= f.smallest.user {
              return false;
            }
            break;
          }
          levelPtrs := levelPtrs[lvl := levelPtrs[lvl] + 1];
        }
        PointerDecides(version, lvl, levelPtrs[lvl], k);
        lvl := lvl + 1;
      }
      base := true;
    }

    /** Whether the output should be cut before `key`: the files of the level after the next one that
        end between the keys asked about since the last cut hold more than ten file sizes. */
    method ShouldStopBefore(key: InternalKey) returns (stop: bool)
      requires grandparentIndex <= |inputs.grandparents|
      modifies this`grandparentIndex, this`seenKey, this`overlappedBytes
      ensures seenKey && old(grandparentIndex) <= grandparentIndex <= |inputs.grandparents|
      ensures forall i :: old(grandparentIndex) <= i < grandparentIndex ==> Less(inputs.grandparents[i].largest, key)
      ensures grandparentIndex < |inputs.grandparents| ==> AtMost(key, inputs.grandparents[grandparentIndex].largest)
      ensures var counted := old(overlappedBytes)
                + (if old(seenKey) then TotalFileSize(inputs.grandparents[old(grandparentIndex)..grandparentIndex]) else 0);
              (stop <==> counted > 10 * maxFileSize) && overlappedBytes == (if stop then 0 else counted)
    {
      ghost var gs, from := inputs.grandparents, grandparentIndex;
      while grandparentIndex < |inputs.grandparents| && Less(inputs.grandparents[grandparentIndex].largest, key)
        invariant from <= grandparentIndex <= |gs| && seenKey == old(seenKey)
        invariant forall i :: from <= i < grandparentIndex ==> Less(gs[i].largest, key)
        invariant overlappedBytes == old(overlappedBytes) + (if seenKey then TotalFileSize(gs[from..grandparentIndex]) else 0)
        decreases |inputs.grandparents| - grandparentIndex
      {
        SliceGrows(gs, from, grandparentIndex);
        if seenKey {
          overlappedBytes := overlappedBytes + inputs.grandparents[grandparentIndex].size;
        }
        grandparentIndex := grandparentIndex + 1;
      }
      seenKey := true;
      if overlappedBytes > MaxGrandParentOverlapBytes(maxFileSize) {
        overlappedBytes := 0;
        return true;
      }
      return false;
    }
  }

  lemma SliceGrows(gs: Level, i: nat, j: nat)
    requires i <= j < |gs|
    ensures TotalFileSize(gs[i..j + 1]) == TotalFileSize(gs[i..j]) + gs[j].size
  {
    assert gs[i..j + 1] == gs[i..j] + [gs[j]];
    TotalAdds(gs[i..j], [gs[j]]);
  }

  // ---- How much one table overlaps ----

  ghost predicate EndsAscend(gs: Level) {
    forall i, j :: 0 <= i < j < |gs| ==> Less(gs[i].largest, gs[j].largest)
  }

  /** The grandparents of a completed choice are files of a sorted level. */
  lemma CompletedAscend(v: Version, level: nat, chosen: Level, maxFileSize: nat, c: Inputs)
    requires ValidVersion(v) && level + 1 < NUM_LEVELS && CompletesTo(v, level, chosen, maxFileSize, c)
    ensures EndsAscend(c.grandparents)
  {
    hide ValidVersion, ValidFiles, SortedDisjoint, Boundaried, Reaches, Meets, EndsAscend, Grows;
    var g :| Completed(v, level, chosen, maxFileSize, c, g);
    if level + 2 < NUM_LEVELS {
      LevelFacts(v, level + 2);
      MeetingAscend(v[level + 2], c.upper + c.lower, c.grandparents);
    } else {
      NoneAscend();
    }
  }

  lemma NoneAscend()
    ensures EndsAscend([])
  {
  }

  lemma MeetingAscend(files: Level, inputs: Level, r: Level)
    requires ValidFiles(files) && SortedDisjoint(files) && Meets(files, inputs, r)
    ensures EndsAscend(r)
  {
    hide ValidFiles, SortedDisjoint, IsRange, Overlapping, Less;
    var s, t :| IsRange(inputs, s, t) && r == Overlapping(files, Some(s.user), Some(t.user));
    var i, j := OverlappingContiguous(files, Some(s.user), Some(t.user));
    forall n, k | i <= n < k < j ensures Less(files[n].largest, files[k].largest) {
      RangesOrdered(files, n, k);
    }
  }

  /** Bytes of the files that end from `lo` on and before `hi`. */
  ghost function EndingWithin(gs: Level, lo: InternalKey, hi: InternalKey): nat {
    if gs == [] then 0
    else (if AtMost(lo, gs[0].largest) && Less(gs[0].largest, hi) then gs[0].size else 0) + EndingWithin(gs[1..], lo, hi)
  }

  /** The first file ending from `k` on is that at `i`. */
  ghost predicate Splits(gs: Level, i: nat, k: InternalKey) {
    && i <= |gs|
    && (forall n :: 0 <= n < i ==> Less(gs[n].largest, k))
    && forall n :: i <= n < |gs| ==> AtMost(k, gs[n].largest)
  }

  lemma FirstOff(gs: Level, j: nat)
    requires 0 < j <= |gs|
    ensures TotalFileSize(gs[0..j]) == gs[0].size + TotalFileSize(gs[1..][0..j - 1])
  {
    var rest := gs[1..][0..j - 1];
    forall k | 0 <= k < j ensures gs[0..j][k] == ([gs[0]] + rest)[k] {
      if k > 0 {
        assert rest[k - 1] == gs[1..][k - 1];
      }
    }
    assert gs[0..j] == [gs[0]] + rest;
    TotalAdds([gs[0]], rest);
  }

  lemma SplitsRest(gs: Level, i: nat, k: InternalKey)
    requires gs != [] && Splits(gs, i, k)
    ensures Splits(gs[1..], if i > 0 then i - 1 else 0, k) && (i > 0 <==> Less(gs[0].largest, k)) && i <= |gs|
  {
    hide Less;
  }

  lemma LaterSlice(gs: Level, i: nat, j: nat)
    requires 0 < i <= j <= |gs|
    ensures gs[i..j] == gs[1..][i - 1..j - 1]
  {
    forall k | 0 <= k < j - i ensures gs[i..j][k] == gs[1..][i - 1..j - 1][k] {
    }
  }

  lemma {:induction false} EndingWithinIs(gs: Level, lo: InternalKey, hi: InternalKey, i: nat, j: nat)
    requires Splits(gs, i, lo) && Splits(gs, j, hi) && i <= j
    ensures EndingWithin(gs, lo, hi) == TotalFileSize(gs[i..j])
  {
    if gs != [] {
      SplitsRest(gs, i, lo);
      SplitsRest(gs, j, hi);
      hide Splits, Less, TotalFileSize;
      EndingWithinIs(gs[1..], lo, hi, if i > 0 then i - 1 else 0, if j > 0 then j - 1 else 0);
      if i > 0 {
        LaterSlice(gs, i, j);
      } else if j > 0 {
        FirstOff(gs, j);
      }
    }
  }

  /** No file of level + 2 that ends within the table counts beyond ten file sizes. */
  ghost predicate Modest(gs: Level, o: seq<Entry>, maxFileSize: nat) {
    o != [] ==> EndingWithin(gs, o[0].key, o[|o| - 1].key) <= 10 * maxFileSize
  }

  /** The table under way began where the pointer was at `from`, and what was passed since is counted. */
  ghost predicate Counts(gs: Level, o: seq<Entry>, from: nat, index: nat, bytes: nat, maxFileSize: nat) {
    o != [] ==>
      && Splits(gs, from, o[0].key) && from <= index <= |gs|
      && TotalFileSize(gs[from..index]) <= bytes && Modest(gs, o, maxFileSize)
  }

  lemma CountsOn(gs: Level, o: seq<Entry>, from: nat, index: nat, bytes: nat, index': nat, maxFileSize: nat)
    requires Counts(gs, o, from, index, bytes, maxFileSize) && index <= index' <= |gs|
    ensures Counts(gs, o, from, index', bytes + TotalFileSize(gs[index..index']), maxFileSize)
  {
    if o != [] {
      TotalAdds(gs[from..index], gs[index..index']);
      assert gs[from..index'] == gs[from..index] + gs[index..index'];
    }
  }

  /** What holds when the loop comes to entry `i`: each table so far is modest, and the one under way is counted. */
  ghost predicate CutsWell(gs: Level, m: seq<Entry>, i: nat, outs: seq<seq<Entry>>, o: seq<Entry>, index: nat, bytes: nat, maxFileSize: nat)
    requires i <= |m|
  {
    && index <= |gs| && (i == 0 ==> index == 0)
    && (i > 0 ==> Splits(gs, index, m[i - 1].key))
    && (exists from :: Counts(gs, o, from, index, bytes, maxFileSize))
    && forall p :: p in outs ==> Modest(gs, p, maxFileSize)
  }

  lemma CutsStart(gs: Level, m: seq<Entry>, bytes: nat, maxFileSize: nat)
    ensures CutsWell(gs, m, 0, [], [], 0, bytes, maxFileSize)
  {
    assert Counts(gs, [], 0, 0, bytes, maxFileSize);
  }

  /** The pointer moves up to the key of entry `i`, and the table under way is cut if that counts too much. */
  lemma CutsMove(gs: Level, m: seq<Entry>, i: nat, outs: seq<seq<Entry>>, o: seq<Entry>, index: nat, bytes: nat, maxFileSize: nat, index': nat)
    requires EndsAscend(gs) && Sorted(m) && i < |m| && CutsWell(gs, m, i, outs, o, index, bytes, maxFileSize) && index <= index' <= |gs|
    requires forall n :: index <= n < index' ==> Less(gs[n].largest, m[i].key)
    requires index' < |gs| ==> AtMost(m[i].key, gs[index'].largest)
    ensures CutsWell(gs, m, i + 1, outs, o, index', bytes + TotalFileSize(gs[index..index']), maxFileSize)
  {
    hide TotalFileSize, EndsAscend, Splits, Modest, Counts;
    if i > 0 {
      SortedAt(m, i - 1, i);
    }
    PointerSplits(gs, m, i, index, index');
    var from :| Counts(gs, o, from, index, bytes, maxFileSize);
    CountsOn(gs, o, from, index, bytes, index', maxFileSize);
  }

  lemma PointerSplits(gs: Level, m: seq<Entry>, i: nat, index: nat, index': nat)
    requires EndsAscend(gs) && i < |m| && index <= index' <= |gs|
    requires (i == 0 ==> index == 0) && (i > 0 ==> Splits(gs, index, m[i - 1].key) && Less(m[i - 1].key, m[i].key))
    requires forall n :: index <= n < index' ==> Less(gs[n].largest, m[i].key)
    requires index' < |gs| ==> AtMost(m[i].key, gs[index'].largest)
    ensures Splits(gs, index', m[i].key)
  {
  }

  lemma CutsCut(gs: Level, m: seq<Entry>, i: nat, outs: seq<seq<Entry>>, o: seq<Entry>, index: nat, bytes: nat, maxFileSize: nat, bytes': nat)
    requires i <= |m| && CutsWell(gs, m, i, outs, o, index, bytes, maxFileSize)
    ensures CutsWell(gs, m, i, outs + [o], [], index, bytes', maxFileSize)
    ensures o == [] ==> CutsWell(gs, m, i, outs, [], index, bytes', maxFileSize)
    ensures Modest(gs, o, maxFileSize)
  {
    assert Counts(gs, [], 0, index, bytes', maxFileSize);
  }

  lemma CutsTake(gs: Level, m: seq<Entry>, i: nat, outs: seq<seq<Entry>>, o: seq<Entry>, index: nat, bytes: nat, maxFileSize: nat)
    requires i < |m| && CutsWell(gs, m, i + 1, outs, o, index, bytes, maxFileSize) && bytes <= 10 * maxFileSize
    ensures CutsWell(gs, m, i + 1, outs, o + [m[i]], index, bytes, maxFileSize)
  {
    hide TotalFileSize, Splits, Modest, Counts;
    var from :| Counts(gs, o, from, index, bytes, maxFileSize);
    from := CountsMore(gs, o, from, index, bytes, maxFileSize, m[i]);
  }

  lemma CountsMore(gs: Level, o: seq<Entry>, from: nat, index: nat, bytes: nat, maxFileSize: nat, e: Entry) returns (from': nat)
    requires Counts(gs, o, from, index, bytes, maxFileSize) && Splits(gs, index, e.key) && bytes <= 10 * maxFileSize
    ensures Counts(gs, o + [e], from', index, bytes, maxFileSize)
  {
    from' := if o == [] then index else from;
    var first := (o + [e])[0].key;
    EndingWithinIs(gs, first, e.key, from', index);
    assert gs[index..index] == [];
  }

  /** The merge loop. `m` is the merged input; the loop splits what it keeps into tables, cutting
      at grandparent overlap and whenever the table being written is reported full. The largest
      sequence stands for "no entry of this key yet", so it cannot be the snapshot itself. */
  method DoCompactionWork(c: Compaction, m: seq<Entry>, smallestSnapshot: Sequence) returns (outs: seq<seq<Entry>>)
    requires ValidVersion(c.version) && Sorted(m) && smallestSnapshot < MAX_SEQUENCE
    requires (forall k :: c.PointersBefore(k)) && c.grandparentIndex == 0 && c.overlappedBytes == 0
    modifies c
    ensures Flatten(outs) == Survivors(c.version, c.inputs.level, m, |m|, smallestSnapshot)
    ensures forall o :: o in outs ==> o != []
    ensures EndsAscend(c.inputs.grandparents) ==> forall o :: o in outs ==> Modest(c.inputs.grandparents, o, c.maxFileSize)
  {
    hide ValidVersion, IsBaseLevel, Flatten, Survivors, Compaction.PointersBefore;
    hide EndsAscend, CutsWell, Modest, TotalFileSize, Sorted, Less, Kept;
    outs := [];
    var builder: seq<Entry> := [];
    var currentUserKey: Option<UserKey> := None;
    var lastSequenceForKey: Sequence := MAX_SEQUENCE;
    ghost var gs, limit, v, level := c.inputs.grandparents, c.maxFileSize, c.version, c.inputs.level;
    KeptFirst(v, level, m, smallestSnapshot);
    CutsStart(gs, m, 0, limit);
    for i := 0 to |m|
      invariant i < |m| ==> c.PointersBefore(m[i].key.user)
      invariant i == 0 ==> currentUserKey == None
      invariant i > 0 ==> currentUserKey == Some(m[i - 1].key.user) && lastSequenceForKey == m[i - 1].key.sequence
      invariant Kept(v, level, m, i, smallestSnapshot, outs, builder)
      invariant c.grandparentIndex <= |gs| && (builder != [] ==> c.seenKey)
      invariant EndsAscend(gs) ==> CutsWell(gs, m, i, outs, builder, c.grandparentIndex, c.overlappedBytes, limit)
    {
      var e := m[i];
      ghost var index, bytes := c.grandparentIndex, c.overlappedBytes;
      var stop := c.ShouldStopBefore(e.key);
      if EndsAscend(gs) {
        CutsMove(gs, m, i, outs, builder, index, bytes, limit, c.grandparentIndex);
        CutsCut(gs, m, i + 1, outs, builder, c.grandparentIndex, bytes + TotalFileSize(gs[index..c.grandparentIndex]), limit, c.overlappedBytes);
      }
      if stop && builder != [] {
        KeptCut(v, level, m, i, smallestSnapshot, outs, builder);
        outs, builder := outs + [builder], [];
      }
      var drop := false;
      if currentUserKey != Some(e.key.user) {
        currentUserKey := Some(e.key.user);
        lastSequenceForKey := MAX_SEQUENCE;
      }
      if lastSequenceForKey <= smallestSnapshot {
        drop := true;
      } else if e.key.kind.Deletion? && e.key.sequence <= smallestSnapshot {
        drop := c.IsBaseLevelForKey(e.key.user);
      }
      lastSequenceForKey := e.key.sequence;
      KeptNext(v, level, m, i, smallestSnapshot, outs, builder, drop);
      if i + 1 < |m| {
        SortedAt(m, i, i + 1);
        c.PointersStayBefore(e.key.user, m[i + 1].key.user);
      }
      if !drop {
        if EndsAscend(gs) {
          CutsTake(gs, m, i, outs, builder, c.grandparentIndex, c.overlappedBytes, limit);
        }
        builder := builder + [e];
        var full := *;
        if full {
          if EndsAscend(gs) {
            CutsCut(gs, m, i + 1, outs, builder, c.grandparentIndex, c.overlappedBytes, limit, c.overlappedBytes);
          }
          KeptCut(v, level, m, i + 1, smallestSnapshot, outs, builder);
          outs, builder := outs + [builder], [];
        }
      }
    }
    if EndsAscend(gs) {
      AllModest(gs, m, outs, builder, c.grandparentIndex, c.overlappedBytes, limit);
    }
    KeptAll(v, level, m, smallestSnapshot, outs, builder);
    if builder != [] {
      outs := outs + [builder];
    }
  }

  /** The tables so far and the one under way hold what is kept of the first `i` entries. */
  ghost predicate Kept(v: Version, level: nat, m: seq<Entry>, i: nat, snapshot: int, outs: seq<seq<Entry>>, o: seq<Entry>)
    requires i <= |m|
  {
    Flatten(outs) + o == Survivors(v, level, m, i, snapshot) && forall p :: p in outs ==> p != []
  }

  lemma KeptFirst(v: Version, level: nat, m: seq<Entry>, snapshot: int)
    ensures Kept(v, level, m, 0, snapshot, [], [])
  {
  }

  lemma KeptCut(v: Version, level: nat, m: seq<Entry>, i: nat, snapshot: int, outs: seq<seq<Entry>>, o: seq<Entry>)
    requires i <= |m| && o != [] && Kept(v, level, m, i, snapshot, outs, o)
    ensures Kept(v, level, m, i, snapshot, outs + [o], [])
  {
    FlattenAppend(outs, o);
    hide Flatten, Survivors;
    assert Flatten(outs + [o]) + [] == Flatten(outs) + o;
  }

  lemma KeptNext(v: Version, level: nat, m: seq<Entry>, i: nat, snapshot: int, outs: seq<seq<Entry>>, o: seq<Entry>, drop: bool)
    requires i < |m| && Kept(v, level, m, i, snapshot, outs, o) && (drop <==> Dropped(v, level, m, i, snapshot))
    ensures Kept(v, level, m, i + 1, snapshot, outs, if drop then o else o + [m[i]])
  {
    hide Flatten, Dropped;
    assert Flatten(outs) + (o + [m[i]]) == Flatten(outs) + o + [m[i]];
  }

  lemma KeptAll(v: Version, level: nat, m: seq<Entry>, snapshot: int, outs: seq<seq<Entry>>, o: seq<Entry>)
    requires Kept(v, level, m, |m|, snapshot, outs, o)
    ensures Flatten(if o == [] then outs else outs + [o]) == Survivors(v, level, m, |m|, snapshot)
    ensures forall p :: p in outs ==> p != []
  {
    if o != [] {
      FlattenAppend(outs, o);
    } else {
      assert Flatten(outs) + [] == Flatten(outs);
    }
  }

  lemma AllModest(gs: Level, m: seq<Entry>, outs: seq<seq<Entry>>, o: seq<Entry>, index: nat, bytes: nat, maxFileSize: nat)
    requires CutsWell(gs, m, |m|, outs, o, index, bytes, maxFileSize)
    ensures forall p :: p in outs + [o] ==> Modest(gs, p, maxFileSize)
  {
    CutsCut(gs, m, |m|, outs, o, index, bytes, maxFileSize, bytes);
  }

  lemma FlattenAppend(outs: seq<seq<Entry>>, b: seq<Entry>)
    ensures Flatten(outs + [b]) == Flatten(outs) + b
  {
    assert (outs + [b])[..|outs|] == outs;
  }

  /** In a sorted level, a file starting after `k` ends the search. */
  lemma PointerDecides(v: Version, l: nat, ptr: nat, k: UserKey)
    requires ValidVersion(v) && 0 < l < NUM_LEVELS && ptr <= |v[l]|
    requires forall i :: 0 <= i < ptr ==> v[l][i].largest.user < k
    requires ptr < |v[l]| ==> k < v[l][ptr].smallest.user
    ensures forall f :: f in v[l] ==> !(f.smallest.user <= k <= f.largest.user)
  {
    LevelFacts(v, l);
    forall f | f in v[l] ensures !(f.smallest.user <= k <= f.largest.user) {
      var i :| 0 <= i < |v[l]| && v[l][i] == f;
      if i > ptr {
        assert ValidFile(v[l][ptr]);
        FileBounds(v[l][ptr], v[l][ptr].entries[0]);
      }
    }
  }
}
