/** What the writers' groups leave in the logs recovers, after a crash at any byte, to whole groups. */
module CommittedLog {
  import opened Sequences
  import WriteBatch
  import opened GroupCommit
  import Recovery
  import LogFormat
  import LogRecovery

  /** No record failed to be appended. */
  ghost predicate AllLogged(gs: seq<Group>) {
    forall i :: 0 <= i < |gs| ==> gs[i].logged || gs[i].ops == []
  }

  ghost predicate AllFit(bs: seq<Batch>) {
    forall i :: 0 <= i < |bs| ==> WriteBatch.FitsBatch(bs[i])
  }

  /** One more record in its turn. */
  lemma CommittedNext(bs: seq<Batch>, b: Batch, last: nat)
    requires Recovery.Committed(bs, last) && WriteBatch.FitsBatch(b) && b.sequence == last + |Recovery.OpsOf(bs)| + 1
    ensures Recovery.Committed(bs + [b], last) && Recovery.OpsOf(bs + [b]) == Recovery.OpsOf(bs) + b.ops
  {
    hide WriteBatch.FitsBatch;
    var all := bs + [b];
    assert all[..|bs|] == bs;
    forall i | 0 <= i < |all| ensures WriteBatch.FitsBatch(all[i]) && all[i].sequence == last + |Recovery.OpsOf(all[..i])| + 1 {
      assert i < |bs| ==> all[..i] == bs[..i];
    }
  }

  lemma AllFitPrefix(bs: seq<Batch>, more: seq<Batch>)
    requires AllFit(bs + more)
    ensures AllFit(bs) && forall b :: b in more ==> WriteBatch.FitsBatch(b)
  {
    hide WriteBatch.FitsBatch;
    assert forall i :: 0 <= i < |bs| ==> (bs + more)[i] == bs[i];
    assert forall i :: 0 <= i < |more| ==> (bs + more)[|bs| + i] == more[i];
  }

  lemma {:induction false} LoggedCommitted(gs: seq<Group>)
    requires GoodBases(gs) && AllLogged(gs) && AllFit(ServedLog(gs))
    ensures Recovery.Committed(ServedLog(gs), 0) && |Recovery.OpsOf(ServedLog(gs))| == Assigned(gs)
  {
    if gs != [] {
      hide WriteBatch.FitsBatch, Recovery.Committed, Recovery.OpsOf, AllFit;
      var init, g := gs[..|gs| - 1], gs[|gs| - 1];
      BasesPrefix(gs);
      var b := WriteBatch.Batch(g.base + 1, g.ops);
      AllFitPrefix(ServedLog(init), if g.logged then [b] else []);
      LoggedCommitted(init);
      if g.logged {
        CommittedNext(ServedLog(init), b, 0);
      } else {
        assert ServedLog(gs) == ServedLog(init);
      }
    }
  }

  /** All records, that of a group under way included, follow one another. */
  lemma RecordsCommitted(s: State)
    requires QueueKnown(s) && LeaderOk(s) && GoodGroups(s) && MemoryOk(s) && LogOk(s)
    requires AllLogged(s.served) && AllFit(AllRecords(s.closed) + s.log)
    ensures Recovery.Committed(AllRecords(s.closed) + s.log, 0)
  {
    BasesGood(s);
    hide WriteBatch.FitsBatch, Recovery.Committed, Recovery.OpsOf, AllFit, AllRecords, ServedLog, Assigned, ServedAdds, GoodGroups, GroupOps;
    AllFitPrefix(ServedLog(s.served), PendingLog(s));
    LoggedCommitted(s.served);
    if PendingLog(s) != [] {
      assert PendingLog(s) == [RecordOf(s.leader)];
      CommittedNext(ServedLog(s.served), RecordOf(s.leader), 0);
    } else {
      assert ServedLog(s.served) + PendingLog(s) == ServedLog(s.served);
    }
  }

  lemma {:induction false} OpsConcat(a: seq<Batch>, b: seq<Batch>)
    ensures Recovery.OpsOf(a + b) == Recovery.OpsOf(a) + Recovery.OpsOf(b)
  {
    if b == [] {
      assert a + b == a;
    } else {
      var n := |b| - 1;
      assert (a + b)[..|a + b| - 1] == a + b[..n];
      OpsConcat(a, b[..n]);
      Associate(Recovery.OpsOf(a), Recovery.OpsOf(b[..n]), b[n].ops);
    }
  }

  /** A part of records that follow one another. */
  lemma CommittedPart(a: seq<Batch>, b: seq<Batch>, c: seq<Batch>)
    requires Recovery.Committed(a + (b + c), 0)
    ensures Recovery.Committed(b, |Recovery.OpsOf(a)|)
  {
    hide WriteBatch.FitsBatch, Recovery.OpsOf;
    var all := a + (b + c);
    forall i | 0 <= i < |b| ensures WriteBatch.FitsBatch(b[i]) && b[i].sequence == |Recovery.OpsOf(a)| + |Recovery.OpsOf(b[..i])| + 1 {
      assert all[|a| + i] == b[i];
      assert all[..|a| + i] == a + b[..i];
      OpsConcat(a, b[..i]);
    }
  }

  lemma {:induction false} RecordsBefore(fs: seq<LogFile>, f: nat) returns (after: seq<Batch>)
    requires f < |fs|
    ensures AllRecords(fs) == AllRecords(fs[..f]) + (fs[f].records + after)
  {
    var n := |fs| - 1;
    if f < n {
      var more := RecordsBefore(fs[..n], f);
      assert fs[..n][..f] == fs[..f];
      after := more + fs[n].records;
      Associate(AllRecords(fs[..f]), fs[f].records + more, fs[n].records);
      Associate(fs[f].records, more, fs[n].records);
    } else {
      after := [];
      assert fs[f].records + after == fs[f].records;
    }
  }

  lemma FilesHoldAll(s: State)
    ensures AllRecords(Files(s)) == AllRecords(s.closed) + s.log
  {
    assert Files(s)[..|s.closed|] == s.closed;
  }

  /** How many sequences were used before a log began. */
  function Before(fs: seq<LogFile>, f: nat): nat
    requires f <= |fs|
  {
    |Recovery.OpsOf(AllRecords(fs[..f]))|
  }

  /** The logs of a state in which no record failed to be appended, each in its turn. */
  lemma FileCommitted(s: State, f: nat)
    requires Inv(s) && AllLogged(s.served) && AllFit(AllRecords(Files(s))) && f < |Files(s)|
    ensures Recovery.Committed(Files(s)[f].records, Before(Files(s), f))
  {
    hide *;
    InvParts(s);
    FilesHoldAll(s);
    RecordsCommitted(s);
    var after := RecordsBefore(Files(s), f);
    CommittedPart(AllRecords(Files(s)[..f]), Files(s)[f].records, after);
    BeforeIs(Files(s), f);
  }

  lemma BeforeIs(fs: seq<LogFile>, f: nat)
    requires f <= |fs|
    ensures Before(fs, f) == |Recovery.OpsOf(AllRecords(fs[..f]))|
  {
  }

  /** What recovery makes of the log `f` cut at byte `n`. */
  function Replayed(fs: seq<LogFile>, f: nat, n: nat, paranoid: bool): Recovery.Recovered
    requires f < |fs| && n <= |LogFormat.LogFile(Recovery.Encoded(fs[f].records))|
  {
    Recovery.Recover(LogFormat.LogFile(Recovery.Encoded(fs[f].records))[..n], 0, Recovery.Recovered([], Before(fs, f), 0, true), paranoid)
  }

  /** Log `f`, cut at byte `n`, recovers exactly the operations of its groups wholly before the cut, under their
      sequences. */
  ghost predicate RecoversGroups(fs: seq<LogFile>, f: nat, n: nat, paranoid: bool)
    requires f < |fs| && n <= |LogFormat.LogFile(Recovery.Encoded(fs[f].records))|
  {
    var rs, last := fs[f].records, Before(fs, f);
    var ops := Recovery.OpsOf(rs[..LogRecovery.Whole(Recovery.Encoded(rs), n)]);
    Replayed(fs, f, n, paranoid) == Recovery.Recovered(Recovery.AddsOf(last + 1, ops), last + |ops|, 0, true)
  }

  lemma InvRecovers(s: State, f: nat, n: nat, paranoid: bool)
    requires Inv(s) && AllLogged(s.served) && AllFit(AllRecords(Files(s))) && f < |Files(s)|
    requires n <= |LogFormat.LogFile(Recovery.Encoded(Files(s)[f].records))|
    ensures RecoversGroups(Files(s), f, n, paranoid)
  {
    hide Inv, Files, AllRecords, AllFit, AllLogged, Recovery.OpsOf, Recovery.Recover, Recovery.Encoded, Recovery.Committed;
    hide Recovery.AddsOf, LogFormat.LogFile, LogRecovery.Whole, Before;
    FileCommitted(s, f);
    Recovery.CommittedPrefixRecovered(Files(s)[f].records, n, Before(Files(s), f), paranoid);
  }

  /** In every state of every run in which every record was appended, a group being logged, synced or inserted
      included, every log cut at any byte recovers exactly the operations of its groups wholly before the cut. */
  lemma {:induction false} CrashRecoversGroups(ss: seq<State>, steps: seq<Step>, f: nat, n: nat, paranoid: bool)
    requires Run(ss, steps)
    requires var s := ss[|steps|]; AllLogged(s.served) && AllFit(AllRecords(Files(s))) && f < |Files(s)|
    requires n <= |LogFormat.LogFile(Recovery.Encoded(Files(ss[|steps|])[f].records))|
    ensures RecoversGroups(Files(ss[|steps|]), f, n, paranoid)
  {
    RunLength(ss, steps);
    hide *;
    RunKeeps(ss, steps, |steps|);
    InvRecovers(ss[|steps|], f, n, paranoid);
  }

  lemma FollowsOn(rs: seq<Batch>, p: nat, last: nat)
    requires Recovery.Committed(rs, last) && p < |rs|
    ensures rs[p].sequence == last + |Recovery.OpsOf(rs[..p])| + 1
  {
    hide WriteBatch.FitsBatch;
  }

  /** The operations of the record at `p` among those recovered. */
  lemma RecordRecovered(rs: seq<Batch>, p: nat, c: nat, last: nat)
    requires Recovery.Committed(rs, last) && p < c <= |rs|
    ensures var ops := Recovery.OpsOf(rs[..c]);
            && rs[p].sequence >= last + 1 && rs[p].sequence - 1 - last + |rs[p].ops| <= |ops|
            && ops[rs[p].sequence - 1 - last..rs[p].sequence - 1 - last + |rs[p].ops|] == rs[p].ops
  {
    hide WriteBatch.FitsBatch;
    hide Recovery.Committed;
    FollowsOn(rs, p, last);
    assert rs[..c] == rs[..p] + ([rs[p]] + rs[p + 1..c]);
    OpsConcat(rs[..p], [rs[p]] + rs[p + 1..c]);
    OpsConcat([rs[p]], rs[p + 1..c]);
    assert [rs[p]][..0] == [];
    assert Recovery.OpsOf([rs[p]]) == Recovery.OpsOf([]) + rs[p].ops;
    hide Recovery.OpsOf;
    var before, more := Recovery.OpsOf(rs[..p]), Recovery.OpsOf(rs[p + 1..c]);
    assert Recovery.OpsOf(rs[..c]) == before + (rs[p].ops + more);
  }

  /** The operations are among the insertions, under the sequences after `base`. */
  ghost predicate Recovers(adds: seq<Recovery.Add>, last: nat, base: nat, ops: seq<Op>) {
    last <= base && base - last + |ops| <= |adds|
    && forall k :: 0 <= k < |ops| ==> adds[base - last + k] == Recovery.Add(base + 1 + k, ops[k])
  }

  /** Cutting the log of the group, but not into what the last sync covered, recovers the writer's operations. */
  ghost predicate Survives(s: State, i: nat, j: nat, n: nat, paranoid: bool) {
    && Member(s, i, j) && s.served[i].file < |Files(s)|
    && var fs, f := Files(s), s.served[i].file;
       n <= |LogFormat.LogFile(Recovery.Encoded(fs[f].records))| && LogRecovery.Whole(Recovery.Encoded(fs[f].records), n) >= fs[f].durable ==>
         Recovers(Replayed(fs, f, n, paranoid).adds, Before(fs, f), BaseOf(s, i, j), OpsAt(s, i, j))
  }

  lemma ServedFile(s: State, i: nat, j: nat)
    requires CommittedAt(s, i, j) && RecordedAt(s, i, j)
    ensures Member(s, i, j) && i < |s.served| && s.served[i].file < |Files(s)| && s.served[i].place < |Files(s)[s.served[i].file].records|
    ensures Files(s)[s.served[i].file].records[s.served[i].place] == WriteBatch.Batch(s.served[i].base + 1, s.served[i].ops)
  {
  }

  lemma ShareRecovered(s: State, i: nat, j: nat, ops: seq<Op>, last: nat)
    requires Member(s, i, j) && RecordedAt(s, i, j)
    requires var g := s.served[i];
             && last <= g.base && g.base - last + |g.ops| <= |ops| && ops[g.base - last..g.base - last + |g.ops|] == g.ops
    ensures Recovers(Recovery.AddsOf(last + 1, ops), last, BaseOf(s, i, j), OpsAt(s, i, j))
  {
    hide OffsetIn, OpsAt;
    var g, off, mine := s.served[i], OffsetIn(s, i, j), OpsAt(s, i, j);
    SubSlice(ops, g.base - last, |g.ops|, off, |mine|);
    var at := g.base - last + off;
    assert ops[at..at + |mine|] == mine;
    forall k | 0 <= k < |mine| ensures ops[at + k] == mine[k] {
      assert ops[at..at + |mine|][k] == ops[at + k];
    }
  }

  lemma CutSurvives(s: State, i: nat, j: nat, n: nat, c: nat)
    requires Inv(s) && AllLogged(s.served) && AllFit(AllRecords(Files(s))) && CommittedAt(s, i, j) && RecordedAt(s, i, j)
    requires i < |s.served| && s.served[i].file < |Files(s)|
    requires s.served[i].place < Files(s)[s.served[i].file].durable <= c <= |Files(s)[s.served[i].file].records|
    ensures var last := Before(Files(s), s.served[i].file);
            Recovers(Recovery.AddsOf(last + 1, Recovery.OpsOf(Files(s)[s.served[i].file].records[..c])), last, BaseOf(s, i, j), OpsAt(s, i, j))
  {
    hide *;
    ServedFile(s, i, j);
    var f := s.served[i].file;
    FileCommitted(s, f);
    RecordRecovered(Files(s)[f].records, s.served[i].place, c, Before(Files(s), f));
    ShareRecovered(s, i, j, Recovery.OpsOf(Files(s)[f].records[..c]), Before(Files(s), f));
  }

  lemma MemberSurvives(ss: seq<State>, steps: seq<Step>, s: State, i: nat, j: nat, n: nat, paranoid: bool)
    requires Run(ss, steps) && |ss| == |steps| + 1 && s == ss[|steps|] && Inv(s)
    requires AllLogged(s.served) && AllFit(AllRecords(Files(s))) && CommittedAt(s, i, j) && RecordedAt(s, i, j)
    requires i < |s.served| && s.served[i].file < |Files(s)| && s.served[i].place < Files(s)[s.served[i].file].durable
    ensures Survives(s, i, j, n, paranoid)
  {
    hide Run, Inv, Files, AllRecords, AllFit, AllLogged, CommittedAt, RecordedAt, Recovery.OpsOf, Recovery.Recover, Recovery.Encoded;
    hide Recovery.AddsOf, LogFormat.LogFile, LogRecovery.Whole, Before, Replayed, Recovers, Member, BaseOf, OpsAt;
    ServedFile(s, i, j);
    var fs, f := Files(s), s.served[i].file;
    var rs := fs[f].records;
    if n <= |LogFormat.LogFile(Recovery.Encoded(rs))| && LogRecovery.Whole(Recovery.Encoded(rs), n) >= fs[f].durable {
      CrashRecoversGroups(ss, steps, f, n, paranoid);
      CutSurvives(s, i, j, n, LogRecovery.Whole(Recovery.Encoded(rs), n));
    }
  }

  /** A write that asked for a sync and succeeded survives every crash that keeps what the sync covered: its
      operations are recovered under the sequences they were committed with. */
  lemma {:induction false} SyncedWriteSurvives(ss: seq<State>, steps: seq<Step>, id: Id, n: nat, paranoid: bool) returns (i: nat, j: nat)
    requires Run(ss, steps)
    requires var s := ss[|steps|];
             && AllLogged(s.served) && AllFit(AllRecords(Files(s)))
             && id in s.results && s.results[id] && id in s.requests && s.requests[id].batch.Some? && s.requests[id].sync
    ensures var s := ss[|steps|]; CommittedAt(s, i, j) && i < |s.served| && j < |s.served[i].ids| && s.served[i].ids[j] == id
    ensures Survives(ss[|steps|], i, j, n, paranoid)
  {
    RunLength(ss, steps);
    hide *;
    RunKeeps(ss, steps, |steps|);
    i, j := SuccessMeansCommitted(ss, steps, id);
    ServedFile(ss[|steps|], i, j);
    MemberSurvives(ss, steps, ss[|steps|], i, j, n, paranoid);
  }
}
