/** Opening after a crash replays all logs the manifest does not cover, one after another: what comes back of the
    history of writes, and when it has no hole. */
module LogReplay {
  import InternalKeys
  import opened GroupCommit
  import opened CommittedLog
  import Recovery
  import LogFormat
  import LogRecovery

  type Bytes = InternalKeys.Bytes

  function FileBytes(l: LogFile): Bytes {
    LogFormat.LogFile(Recovery.Encoded(l.records))
  }

  /** What a crash left of each log. */
  ghost predicate Cuts(fs: seq<LogFile>, cuts: seq<nat>) {
    |cuts| == |fs| && forall f :: 0 <= f < |fs| ==> cuts[f] <= |FileBytes(fs[f])|
  }

  /** The logs from `g` to before `n`, cut. */
  function Left(fs: seq<LogFile>, cuts: seq<nat>, g: nat, n: nat): (r: seq<Bytes>)
    requires Cuts(fs, cuts) && g <= n <= |fs|
  {
    if n == g then [] else Left(fs, cuts, g, n - 1) + [FileBytes(fs[n - 1])[..cuts[n - 1]]]
  }

  /** How many records of log `f` are whole. */
  function Whole(fs: seq<LogFile>, cuts: seq<nat>, f: nat): (c: nat)
    requires Cuts(fs, cuts) && f < |fs|
    ensures c <= |fs[f].records|
  {
    LogRecovery.Whole(Recovery.Encoded(fs[f].records), cuts[f])
  }

  /** Their operations. */
  function KeptOps(fs: seq<LogFile>, cuts: seq<nat>, f: nat): seq<Op>
    requires Cuts(fs, cuts) && f < |fs|
  {
    Recovery.OpsOf(fs[f].records[..Whole(fs, cuts, f)])
  }

  /** The insertions of the whole records of the logs from `g` to before `n`. */
  function Kept(fs: seq<LogFile>, cuts: seq<nat>, g: nat, n: nat): seq<Recovery.Add>
    requires Cuts(fs, cuts) && g <= n <= |fs|
  {
    if n == g then [] else Kept(fs, cuts, g, n - 1) + Recovery.AddsOf(Before(fs, n - 1) + 1, KeptOps(fs, cuts, n - 1))
  }

  /** The largest sequence among them, as replay keeps track of it. */
  function Highest(fs: seq<LogFile>, cuts: seq<nat>, g: nat, n: nat): nat
    requires Cuts(fs, cuts) && g <= n <= |fs|
  {
    if n == g then 0
    else if Whole(fs, cuts, n - 1) == 0 then Highest(fs, cuts, g, n - 1)
    else Recovery.Max(Highest(fs, cuts, g, n - 1), Before(fs, n - 1) + |KeptOps(fs, cuts, n - 1)|)
  }

  lemma NextLeft(fs: seq<LogFile>, cuts: seq<nat>, g: nat, n: nat)
    requires Cuts(fs, cuts) && g < n <= |fs|
    ensures var r := Left(fs, cuts, g, n); r[..|r| - 1] == Left(fs, cuts, g, n - 1) && r[|r| - 1] == FileBytes(fs[n - 1])[..cuts[n - 1]]
  {
    hide FileBytes, Cuts;
  }

  /** One more log. */
  lemma NextRecovered(fs: seq<LogFile>, cuts: seq<nat>, f: nat, max: nat, paranoid: bool)
    requires Cuts(fs, cuts) && f < |fs| && Recovery.Committed(fs[f].records, Before(fs, f))
    ensures Recovery.Recover(FileBytes(fs[f])[..cuts[f]], 0, Recovery.Recovered([], max, 0, true), paranoid) ==
            Recovery.Recovered(Recovery.AddsOf(Before(fs, f) + 1, KeptOps(fs, cuts, f)),
                               if Whole(fs, cuts, f) == 0 then max else Recovery.Max(max, Before(fs, f) + |KeptOps(fs, cuts, f)|), 0, true)
  {
    hide Recovery.Recover, Recovery.Committed, Before, LogFormat.LogFile, LogRecovery.Whole, Recovery.Encoded, Recovery.OpsOf;
    assert cuts[f] <= |FileBytes(fs[f])|;
    Recovery.CutLogRecovered(fs[f].records, cuts[f], Before(fs, f), max, paranoid);
  }

  lemma {:induction false} AllRecovered(s: State, cuts: seq<nat>, g: nat, n: nat, paranoid: bool)
    requires Inv(s) && AllLogged(s.served) && AllFit(AllRecords(Files(s)))
    requires Cuts(Files(s), cuts) && g <= n <= |Files(s)|
    ensures Recovery.RecoverAll(Left(Files(s), cuts, g, n), 0, paranoid)
         == Recovery.Recovered(Kept(Files(s), cuts, g, n), Highest(Files(s), cuts, g, n), 0, true)
  {
    hide Inv, AllLogged, AllFit, AllRecords, Files, Recovery.Recover, Recovery.Committed, Before, FileBytes, Whole, KeptOps, Cuts, Recovery.Max;
    if n > g {
      var fs := Files(s);
      AllRecovered(s, cuts, g, n - 1, paranoid);
      NextLeft(fs, cuts, g, n);
      FileCommitted(s, n - 1);
      NextRecovered(fs, cuts, n - 1, Highest(fs, cuts, g, n - 1), paranoid);
    }
  }

  /** In every state of every run in which every record was appended, whatever a crash leaves of the logs, replaying
      those from `g` on inserts exactly the operations of the records that are whole, each under its sequence. */
  lemma {:induction false} CrashRecoversLogs(ss: seq<State>, steps: seq<Step>, cuts: seq<nat>, g: nat, paranoid: bool)
    requires Run(ss, steps)
    requires var s := ss[|steps|]; AllLogged(s.served) && AllFit(AllRecords(Files(s))) && Cuts(Files(s), cuts) && g <= |Files(s)|
    ensures var fs := Files(ss[|steps|]);
            Recovery.RecoverAll(Left(fs, cuts, g, |fs|), 0, paranoid)
              == Recovery.Recovered(Kept(fs, cuts, g, |fs|), Highest(fs, cuts, g, |fs|), 0, true)
  {
    RunLength(ss, steps);
    hide *;
    RunKeeps(ss, steps, |steps|);
    AllRecovered(ss[|steps|], cuts, g, |Files(ss[|steps|])|, paranoid);
  }

  // ---- Holes ----

  /** The insertions follow `first` without a gap. */
  ghost predicate Gapless(adds: seq<Recovery.Add>, first: nat) {
    forall k :: 0 <= k < |adds| ==> adds[k].sequence == first + 1 + k
  }

  /** No operation of log `f` is lost. */
  ghost predicate Lossless(fs: seq<LogFile>, cuts: seq<nat>, f: nat)
    requires Cuts(fs, cuts) && f < |fs|
  {
    |KeptOps(fs, cuts, f)| == |Recovery.OpsOf(fs[f].records)|
  }

  /** Behind a log that lost operations nothing is kept. */
  ghost predicate LossesLast(fs: seq<LogFile>, cuts: seq<nat>, g: nat, n: nat)
    requires Cuts(fs, cuts) && g <= n <= |fs|
  {
    forall f, h :: g <= f < h < n && !Lossless(fs, cuts, f) ==> KeptOps(fs, cuts, h) == []
  }

  lemma BeforeNext(fs: seq<LogFile>, f: nat)
    requires f < |fs|
    ensures Before(fs, f + 1) == Before(fs, f) + |Recovery.OpsOf(fs[f].records)|
  {
    assert fs[..f + 1][..f] == fs[..f];
    OpsConcat(AllRecords(fs[..f]), fs[f].records);
  }

  lemma KeptFew(fs: seq<LogFile>, cuts: seq<nat>, f: nat)
    requires Cuts(fs, cuts) && f < |fs|
    ensures |KeptOps(fs, cuts, f)| <= |Recovery.OpsOf(fs[f].records)|
  {
    hide Cuts, LogRecovery.Whole;
    var rs, c := fs[f].records, Whole(fs, cuts, f);
    assert rs == rs[..c] + rs[c..];
    OpsConcat(rs[..c], rs[c..]);
  }

  /** How much is kept. */
  lemma {:induction false} KeptCount(fs: seq<LogFile>, cuts: seq<nat>, g: nat, n: nat)
    requires Cuts(fs, cuts) && g <= n <= |fs|
    ensures |Kept(fs, cuts, g, n)| <= Before(fs, n) - Before(fs, g)
    ensures |Kept(fs, cuts, g, n)| == Before(fs, n) - Before(fs, g) <==> forall f :: g <= f < n ==> Lossless(fs, cuts, f)
  {
    hide Cuts, KeptOps, Before;
    if n > g {
      KeptCount(fs, cuts, g, n - 1);
      BeforeNext(fs, n - 1);
      KeptFew(fs, cuts, n - 1);
      assert |Kept(fs, cuts, g, n)| == |Kept(fs, cuts, g, n - 1)| + |KeptOps(fs, cuts, n - 1)|;
      assert Lossless(fs, cuts, n - 1) <==> |KeptOps(fs, cuts, n - 1)| == |Recovery.OpsOf(fs[n - 1].records)|;
      hide Lossless, Kept;
    }
  }

  lemma {:induction false} LastAdded(fs: seq<LogFile>, cuts: seq<nat>, g: nat, n: nat)
    requires Cuts(fs, cuts) && g < n <= |fs|
    ensures Gapless(Kept(fs, cuts, g, n), Before(fs, g)) <==>
            Gapless(Kept(fs, cuts, g, n - 1), Before(fs, g))
            && (KeptOps(fs, cuts, n - 1) == [] || |Kept(fs, cuts, g, n - 1)| == Before(fs, n - 1) - Before(fs, g))
  {
    hide Cuts, KeptOps, Before;
    var a, b := Kept(fs, cuts, g, n - 1), Recovery.AddsOf(Before(fs, n - 1) + 1, KeptOps(fs, cuts, n - 1));
    var all := Kept(fs, cuts, g, n);
    assert all == a + b;
    assert forall k :: 0 <= k < |a| ==> all[k] == a[k];
    assert forall k :: 0 <= k < |b| ==> all[|a| + k] == b[k];
    if Gapless(all, Before(fs, g)) && b != [] {
      assert all[|a|].sequence == Before(fs, n - 1) + 1;
    }
  }

  /** What the logs from `g` on give back is the history from there up to some point, without a hole, exactly if
      nothing is kept of the logs behind one that lost operations. */
  lemma {:induction false} NoHoleIff(fs: seq<LogFile>, cuts: seq<nat>, g: nat, n: nat)
    requires Cuts(fs, cuts) && g <= n <= |fs|
    ensures Gapless(Kept(fs, cuts, g, n), Before(fs, g)) <==> LossesLast(fs, cuts, g, n)
  {
    hide Cuts, KeptOps, Before, Lossless, Gapless, Kept;
    if n > g {
      NoHoleIff(fs, cuts, g, n - 1);
      LastAdded(fs, cuts, g, n);
      KeptCount(fs, cuts, g, n - 1);
    } else {
      NothingKept(fs, cuts, g);
    }
  }

  lemma NothingKept(fs: seq<LogFile>, cuts: seq<nat>, g: nat)
    requires Cuts(fs, cuts) && g <= |fs|
    ensures Gapless(Kept(fs, cuts, g, g), Before(fs, g))
  {
  }

  /** A crash that leaves all logs whole but the last gives back a prefix of the history. */
  lemma OnlyLastCut(fs: seq<LogFile>, cuts: seq<nat>, g: nat)
    requires Cuts(fs, cuts) && g <= |fs| && forall f :: g <= f < |fs| - 1 ==> Whole(fs, cuts, f) == |fs[f].records|
    ensures Gapless(Kept(fs, cuts, g, |fs|), Before(fs, g))
  {
    hide Cuts, Before, Gapless, Kept, Whole;
    NoHoleIff(fs, cuts, g, |fs|);
    forall f | g <= f < |fs| - 1 ensures Lossless(fs, cuts, f) {
      assert fs[f].records[..|fs[f].records|] == fs[f].records;
    }
  }
}
