/** Recovery of a log: replaying a cut log restores exactly a prefix of the committed batches. */
module Recovery {
  import opened InternalKeys
  import opened LogFormat
  import opened LogReader
  import opened LogRecovery
  import WriteBatch

  type Op = WriteBatch.Op
  type Batch = WriteBatch.Batch

  /** An insertion into the memtable. */
  datatype Add = Add(sequence: nat, op: Op)

  /** Memtable insertions so far, the largest sequence seen, corruptions reported, and whether to go on. */
  datatype Recovered = Recovered(adds: seq<Add>, maxSequence: nat, reports: nat, ok: bool)

  /** The operations of a batch with consecutive sequences. */
  function AddsOf(sequence: nat, ops: seq<Op>): (r: seq<Add>)
    ensures |r| == |ops| && forall i :: 0 <= i < |ops| ==> r[i] == Add(sequence + i, ops[i])
  {
    seq(|ops|, i requires 0 <= i < |ops| => Add(sequence + i, ops[i]))
  }

  function Max(a: nat, b: nat): nat {
    if a < b then b else a
  }

  /** 64-bit arithmetic of the header fields. */
  function LastSequence(record: Bytes): nat
    requires |record| >= WriteBatch.HEADER_SIZE
  {
    (WriteBatch.SequenceOf(record) + WriteBatch.Count(record) - 1) % 0x1_0000_0000_0000_0000
  }

  /** One record replayed, corruption in it being fatal only when `paranoid`. */
  function Absorbed(s: Recovered, record: Bytes, paranoid: bool): Recovered {
    if |record| < WriteBatch.HEADER_SIZE then s.(reports := s.reports + 1, ok := !paranoid)
    else
      var w := WriteBatch.Iterated(record);
      var adds := s.adds + AddsOf(WriteBatch.SequenceOf(record), w.ops);
      if !w.ok && paranoid then s.(adds := adds, ok := false)
      else s.(adds := adds, maxSequence := Max(s.maxSequence, LastSequence(record)))
  }

  function Noted(s: Recovered, reports: nat, paranoid: bool): Recovered {
    s.(reports := s.reports + reports, ok := s.ok && !(paranoid && reports > 0))
  }

  /** Replays the log from `q` on. */
  function Recover(file: Bytes, q: nat, s: Recovered, paranoid: bool): Recovered
    requires q <= |file|
    decreases |file| - q
  {
    var r := ReadFrom(file, q, None);
    var s' := Noted(s, r.reports, paranoid);
    if r.record.None? || !s'.ok then s'
    else
      var t := Absorbed(s', r.record.value, paranoid);
      if !t.ok && |r.record.value| >= WriteBatch.HEADER_SIZE then t else Recover(file, r.next, t, paranoid)
  }

  lemma RecoverIs(file: Bytes, q: nat, s: Recovered, paranoid: bool)
    requires q <= |file|
    ensures var r := ReadFrom(file, q, None);
            var s' := Noted(s, r.reports, paranoid);
            Recover(file, q, s, paranoid) ==
              if r.record.None? || !s'.ok then s'
              else
                var t := Absorbed(s', r.record.value, paranoid);
                if !t.ok && |r.record.value| >= WriteBatch.HEADER_SIZE then t else Recover(file, r.next, t, paranoid)
  {
  }

  method RecoverLogFile(file: Bytes, maxSequence: nat, paranoid: bool) returns (s: Recovered)
    ensures s == Recover(file, 0, Recovered([], maxSequence, 0, true), paranoid)
  {
    hide Recover;
    hide WriteBatch.Iterated;
    hide LastSequence;
    hide AddsOf;
    hide ReadFrom;
    hide Reader.Valid;
    var reader := new Reader(file);
    s := Recovered([], maxSequence, 0, true);
    while true
      invariant fresh(reader) && reader.Valid() && reader.file == file
      invariant |reader.buffer| <= reader.endOfBufferOffset <= |file|
      invariant Recover(file, 0, Recovered([], maxSequence, 0, true), paranoid) == Recover(file, reader.Position(), s, paranoid)
      decreases |file| - reader.Position()
    {
      var before := reader.reports;
      RecoverIs(file, reader.Position(), s, paranoid);
      var record := reader.ReadRecord();
      s := s.(reports := s.reports + (reader.reports - before), ok := s.ok && !(paranoid && reader.reports > before));
      if record.None? || !s.ok {
        return;
      }
      var bytes := record.value;
      if |bytes| < WriteBatch.HEADER_SIZE {
        s := s.(reports := s.reports + 1, ok := !paranoid);
        continue;
      }
      var w := WriteBatch.Iterate(bytes);
      s := s.(adds := s.adds + AddsOf(WriteBatch.SequenceOf(bytes), w.ops));
      if !w.ok && paranoid {
        s := s.(ok := false);
        return;
      }
      var last := LastSequence(bytes);
      if last > s.maxSequence {
        s := s.(maxSequence := last);
      }
    }
  }

  // ---- Any log ----

  /** The operations of the records long enough for a header, each as far as it is well formed. */
  function AddsIn(records: seq<Bytes>): seq<Add> {
    if records == [] then []
    else
      (if |records[0]| < 12 then [] else AddsOf(WriteBatch.SequenceOf(records[0]), WriteBatch.Iterated(records[0]).ops)) + AddsIn(records[1..])
  }

  function ShortOnes(records: seq<Bytes>): nat {
    if records == [] then 0 else (if |records[0]| < 12 then 1 else 0) + ShortOnes(records[1..])
  }

  function Largest(records: seq<Bytes>, max: nat): nat {
    if records == [] then max
    else Largest(records[1..], if |records[0]| < 12 then max else Max(max, LastSequence(records[0])))
  }

  predicate WellFormed(record: Bytes) {
    |record| >= 12 && WriteBatch.Iterated(record).ok
  }

  lemma ReadAllIs(file: Bytes, q: nat)
    requires q <= |file|
    ensures var r := ReadFrom(file, q, None);
            ReadAll(file, q) ==
              if r.record.None? then Replay([], r.reports)
              else
                var rest := ReadAll(file, r.next);
                Replay([r.record.value] + rest.records, r.reports + rest.reports)
  {
  }

  /** Unless checks are paranoid, whatever is in the file, recovery goes on to its end and inserts what there is. */
  lemma {:induction false} LenientReplays(file: Bytes, q: nat, s: Recovered)
    requires q <= |file| && s.ok
    ensures var all := ReadAll(file, q);
            Recover(file, q, s, false) ==
              Recovered(s.adds + AddsIn(all.records), Largest(all.records, s.maxSequence), s.reports + all.reports + ShortOnes(all.records), true)
    decreases |file| - q
  {
    hide Recover, ReadAll, ReadFrom, WriteBatch.Iterated, AddsOf, LastSequence;
    RecoverIs(file, q, s, false);
    ReadAllIs(file, q);
    var r := ReadFrom(file, q, None);
    if r.record.Some? {
      var t := Absorbed(Noted(s, r.reports, false), r.record.value, false);
      LenientReplays(file, r.next, t);
      var rest := ReadAll(file, r.next).records;
      assert ([r.record.value] + rest)[1..] == rest;
    } else {
      assert s.adds + [] == s.adds;
    }
  }

  /** With paranoid checks it succeeds if and only if nothing is reported and every record is a batch; then it does the
      same, and otherwise it has inserted no more. */
  lemma {:induction false} ParanoidReplays(file: Bytes, q: nat, s: Recovered)
    requires q <= |file| && s.ok
    ensures var all, t := ReadAll(file, q), Recover(file, q, s, true);
            && (t.ok <==> all.reports == 0 && forall record :: record in all.records ==> WellFormed(record))
            && (t.ok ==> t == Recover(file, q, s, false))
            && t.adds <= s.adds + AddsIn(all.records)
    decreases |file| - q
  {
    hide Recover, ReadAll, ReadFrom, WriteBatch.Iterated, AddsOf, LastSequence;
    RecoverIs(file, q, s, true);
    RecoverIs(file, q, s, false);
    ReadAllIs(file, q);
    var r := ReadFrom(file, q, None);
    if r.record.Some? {
      var rest := ReadAll(file, r.next);
      var all := [r.record.value] + rest.records;
      assert all[1..] == rest.records && all[0] == r.record.value;
      assert forall record :: record in all <==> record == all[0] || record in rest.records;
      if r.reports == 0 {
        var t := Absorbed(s, r.record.value, true);
        assert ReadAll(file, q).records == all && all[0] in all && (t.ok <==> WellFormed(all[0]));
        if t.ok {
          ParanoidReplays(file, r.next, t);
        } else if |r.record.value| < WriteBatch.HEADER_SIZE {
          FailedEnds(file, r.next, t);
        }
      }
    } else {
      assert s.adds + [] == s.adds;
    }
  }

  /** A failure ends recovery with the next read. */
  lemma FailedEnds(file: Bytes, q: nat, s: Recovered)
    requires q <= |file| && !s.ok
    ensures var t := Recover(file, q, s, true); !t.ok && t.adds == s.adds
  {
    hide ReadFrom, WriteBatch.Iterated;
  }

  // ---- Logs of batches ----

  function Encoded(bs: seq<Batch>): (r: seq<Bytes>)
    ensures |r| == |bs| && forall i :: 0 <= i < |bs| ==> r[i] == WriteBatch.Encode(bs[i])
  {
    seq(|bs|, i requires 0 <= i < |bs| => WriteBatch.Encode(bs[i]))
  }

  /** Batches that fit, each taking the sequences right after the one before; `last` precedes them. */
  ghost predicate Committed(bs: seq<Batch>, last: nat) {
    forall i :: 0 <= i < |bs| ==> WriteBatch.FitsBatch(bs[i]) && bs[i].sequence == last + |OpsOf(bs[..i])| + 1
  }

  /** All operations in order. */
  function OpsOf(bs: seq<Batch>): seq<Op> {
    if bs == [] then [] else OpsOf(bs[..|bs| - 1]) + bs[|bs| - 1].ops
  }

  lemma AddsConcat(sequence: nat, a: seq<Op>, b: seq<Op>)
    ensures AddsOf(sequence, a + b) == AddsOf(sequence, a) + AddsOf(sequence + |a|, b)
  {
  }

  lemma AbsorbsBatch(b: Batch, s: Recovered, paranoid: bool)
    requires WriteBatch.FitsBatch(b) && b.sequence > 0 && s.ok
    ensures Absorbed(s, WriteBatch.Encode(b), paranoid) ==
            s.(adds := s.adds + AddsOf(b.sequence, b.ops), maxSequence := Max(s.maxSequence, b.sequence + |b.ops| - 1))
  {
    hide WriteBatch.Encode;
    hide WriteBatch.Iterated;
    WriteBatch.BatchBack(b);
  }

  /** State after the first `i` batches, `max` being the largest sequence seen before. */
  function After(bs: seq<Batch>, i: nat, last: nat, max: nat): Recovered
    requires i <= |bs|
  {
    var ops := OpsOf(bs[..i]);
    Recovered(AddsOf(last + 1, ops), if i == 0 then max else Max(max, last + |ops|), 0, true)
  }

  lemma {:induction false} RecoverFrom(bs: seq<Batch>, n: nat, i: nat, last: nat, max: nat, paranoid: bool)
    requires Committed(bs, last) && n <= |LogFile(Encoded(bs))| && i <= Whole(Encoded(bs), n)
    requires |LogFile(Encoded(bs)[..i])| <= n
    ensures Recover(LogFile(Encoded(bs))[..n], |LogFile(Encoded(bs)[..i])|, After(bs, i, last, max), paranoid)
         == After(bs, Whole(Encoded(bs), n), last, max)
    decreases |bs| - i
  {
    hide LogFile;
    hide ReadFrom;
    hide Whole;
    hide Absorbed;
    hide Encoded;
    hide After;
    hide Committed;
    hide OpsOf;
    hide WriteBatch.Encode;
    var rs := Encoded(bs);
    RecordOrEnd(rs, n, i);
    AfterOk(bs, i, last, max);
    if i < |rs| {
      WholeIs(rs, n, i + 1);
      AfterNext(bs, i, last, max, paranoid);
      AfterOk(bs, i + 1, last, max);
    }
    if i < Whole(rs, n) {
      RecoverFrom(bs, n, i + 1, last, max, paranoid);
    }
  }

  lemma AfterOk(bs: seq<Batch>, i: nat, last: nat, max: nat)
    requires i <= |bs|
    ensures var s := After(bs, i, last, max); s.ok && Noted(s, 0, true) == s == Noted(s, 0, false)
  {
  }

  lemma AfterNext(bs: seq<Batch>, i: nat, last: nat, max: nat, paranoid: bool)
    requires Committed(bs, last) && i < |bs|
    ensures Absorbed(After(bs, i, last, max), WriteBatch.Encode(bs[i]), paranoid) == After(bs, i + 1, last, max)
  {
    hide Absorbed;
    hide WriteBatch.FitsBatch;
    hide WriteBatch.Encode;
    var s := After(bs, i, last, max);
    var ops := OpsOf(bs[..i]);
    AbsorbsBatch(bs[i], s, paranoid);
    assert bs[..i + 1][..i] == bs[..i];
    AddsConcat(last + 1, ops, bs[i].ops);
  }

  /** A log of committed batches, cut at any byte, recovers the operations of exactly the batches wholly
      before the cut, under the sequences they were committed with; the largest sequence seen grows with them. */
  lemma CutLogRecovered(bs: seq<Batch>, n: nat, last: nat, max: nat, paranoid: bool)
    requires Committed(bs, last) && n <= |LogFile(Encoded(bs))|
    ensures Recover(LogFile(Encoded(bs))[..n], 0, Recovered([], max, 0, true), paranoid) == After(bs, Whole(Encoded(bs), n), last, max)
  {
    hide LogOf;
    hide Recover;
    hide Whole;
    hide Committed;
    assert Encoded(bs)[..0] == [];
    LogFileEmpty();
    assert bs[..0] == [];
    assert AddsOf(last + 1, []) == [];
    RecoverFrom(bs, n, 0, last, max, paranoid);
  }

  /** In particular from the last sequence before them. */
  lemma CommittedPrefixRecovered(bs: seq<Batch>, n: nat, last: nat, paranoid: bool)
    requires Committed(bs, last) && n <= |LogFile(Encoded(bs))|
    ensures var ops := OpsOf(bs[..Whole(Encoded(bs), n)]);
            Recover(LogFile(Encoded(bs))[..n], 0, Recovered([], last, 0, true), paranoid)
              == Recovered(AddsOf(last + 1, ops), last + |ops|, 0, true)
  {
    hide LogFile, Recover, Whole, Committed, Encoded, AddsOf;
    CutLogRecovered(bs, n, last, last, paranoid);
  }

  // ---- All logs ----

  /** Logs replayed one after another, each into a memtable of its own; the first failure ends it. */
  function RecoverAll(files: seq<Bytes>, max: nat, paranoid: bool): Recovered {
    if files == [] then Recovered([], max, 0, true)
    else
      var s := RecoverAll(files[..|files| - 1], max, paranoid);
      if !s.ok then s else Joined(s, Recover(files[|files| - 1], 0, Recovered([], s.maxSequence, 0, true), paranoid))
  }

  function Joined(s: Recovered, t: Recovered): Recovered {
    Recovered(s.adds + t.adds, t.maxSequence, s.reports + t.reports, t.ok)
  }

  lemma {:induction false} FailedStays(files: seq<Bytes>, i: nat, max: nat, paranoid: bool)
    requires i <= |files| && !RecoverAll(files[..i], max, paranoid).ok
    ensures RecoverAll(files, max, paranoid) == RecoverAll(files[..i], max, paranoid)
    decreases |files|
  {
    hide Recover;
    if i == |files| {
      assert files[..i] == files;
    } else {
      var init := files[..|files| - 1];
      assert init[..i] == files[..i];
      FailedStays(init, i, max, paranoid);
    }
  }

  method RecoverLogs(files: seq<Bytes>, max: nat, paranoid: bool) returns (s: Recovered)
    ensures s == RecoverAll(files, max, paranoid)
  {
    hide Recover;
    s := Recovered([], max, 0, true);
    for i := 0 to |files|
      invariant s.ok && s == RecoverAll(files[..i], max, paranoid)
    {
      assert files[..i + 1][..i] == files[..i];
      var t := RecoverLogFile(files[i], s.maxSequence, paranoid);
      s := Joined(s, t);
      if !s.ok {
        FailedStays(files, i + 1, max, paranoid);
        return;
      }
    }
    assert files[..|files|] == files;
  }
}
