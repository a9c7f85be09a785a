/** After a crash, at whatever moment, the database can be opened again. */
module Reopening {
  import opened SafeDeletion

  ghost predicate Reaches(s: State, n: nat, s': State)
    decreases n
  {
    if n == 0 then s == s' else exists a :: Enabled(s, a) && Reaches(After(s, a), n - 1, s')
  }

  /** The logs to be recovered whose numbers are not marked yet. */
  function Unmarked(s: State): set<Number> {
    set l | l in s.immLog && l >= s.nextFile
  }

  lemma RecoveringFacts(s: State)
    requires Inv(s) && s.task.Recovering?
    ensures forall l :: l in s.immLog ==> l in s.logs && l >= s.logNumber
  {
  }

  lemma Marks(s: State, l: Number)
    requires s.task.Recovering? && l in s.logs && l >= s.logNumber && l in s.immLog && l >= s.nextFile
    ensures Enabled(s, Mark(l))
    ensures var t := After(s, Mark(l)); t == s.(nextFile := l + 1) && Unmarked(t) < Unmarked(s)
  {
    assert l in Unmarked(s) && l !in Unmarked(After(s, Mark(l)));
  }

  /** What the recovery of the logs ends with: a new log and an edit on its way. */
  lemma {:induction false} LogStarts(s: State) returns (n: nat, t: State)
    requires Inv(s) && s.task.Recovering?
    ensures Reaches(s, n, t) && Inv(t) && t.task.Applying? && t.task.source.FromOpen?
    decreases |Unmarked(s)|
  {
    hide Inv, Enabled, After;
    RecoveringFacts(s);
    if Unmarked(s) == {} {
      Starts(s);
      StepKeeps(s, StartLog);
      t, n := After(s, StartLog), 1;
      assert Reaches(t, 0, t);
    } else {
      var l :| l in Unmarked(s);
      Marks(s, l);
      StepKeeps(s, Mark(l));
      var m := After(s, Mark(l));
      Fewer(Unmarked(m), Unmarked(s));
      n, t := LogStarts(m);
      n := n + 1;
      assert Enabled(s, Mark(l)) && Reaches(After(s, Mark(l)), n - 1, t);
    }
  }

  lemma Fewer(a: set<Number>, b: set<Number>)
    requires a < b
    ensures |a| < |b|
  {
    if a != {} {
      var x :| x in a;
      Fewer(a - {x}, b - {x});
    } else {
      var x :| x in b;
      assert |b| == |b - {x}| + 1;
    }
  }

  lemma Starts(s: State)
    requires s.task.Recovering? && Unmarked(s) == {}
    ensures Enabled(s, StartLog)
    ensures var t := After(s, StartLog); t.task.Applying? && t.task.source.FromOpen?
  {
    forall l | l in s.immLog ensures l < s.nextFile {
      assert l !in Unmarked(s);
    }
  }

  lemma Opens(s: State)
    requires s.task.Applying? && s.task.source.FromOpen?
    ensures Enabled(s, Applied(true))
    ensures var t := After(s, Applied(true)); Open(t) && t.immLog == {} && (!s.broken ==> !t.broken)
  {
  }

  lemma CrashPossible(s: State, m: Saved)
    requires Inv(s) && m in Possible(s)
    ensures Enabled(s, Crash(m)) && After(s, Crash(m)).task.Recovering?
  {
    hide Covered;
    if m in s.manifests {
      assert SavedOk(s, m);
    } else {
      var k :| k in s.manifests && m == Amended(k, s.task.edit);
      assert SavedOk(s, k);
    }
  }

  /** Whatever the state a crash comes in, and whichever manifest it leaves, the database can be opened again, with
      nothing left to be flushed and no error. */
  lemma AlwaysReopens(s: State, m: Saved) returns (n: nat, t: State)
    requires Inv(s) && m in Possible(s)
    ensures Enabled(s, Crash(m)) && Reaches(After(s, Crash(m)), n, t) && Inv(t) && Open(t) && t.immLog == {} && !t.broken
  {
    hide *;
    CrashPossible(s, m);
    StepKeeps(s, Crash(m));
    var r := After(s, Crash(m));
    var k, u := LogStarts(r);
    Opens(u);
    AloneSound(u);
    StepKeeps(u, Applied(true));
    t := After(u, Applied(true));
    n := k + 1;
    OneMore(r, k, u, Applied(true));
  }

  lemma AloneSound(s: State)
    requires Inv(s) && s.task.Applying? && s.task.source.FromOpen?
    ensures !s.broken
  {
  }

  lemma {:induction false} OneMore(s: State, n: nat, u: State, a: Step)
    requires Reaches(s, n, u) && Enabled(u, a)
    ensures Reaches(s, n + 1, After(u, a))
    decreases n
  {
    hide Enabled, After;
    if n == 0 {
      assert Reaches(After(u, a), 0, After(u, a));
    } else {
      var b :| Enabled(s, b) && Reaches(After(s, b), n - 1, u);
      OneMore(After(s, b), n - 1, u, a);
    }
  }
}
