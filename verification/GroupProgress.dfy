/** Every writer is answered: from any state the machine can go on until nobody waits, and if nothing fails all succeed. */
module GroupProgress {
  import opened InternalKeys
  import opened GroupCommit

  /** Reached in `n` steps of the writers already there. */
  ghost predicate Reaches(s: State, n: nat, s': State)
    decreases n
  {
    if n == 0 then s == s' else exists a, m :: Goes(s, a, m) && Reaches(m, n - 1, s')
  }

  ghost predicate Goes(s: State, a: Step, m: State) {
    Next(s, a, m) && !a.Enter? && !a.Return?
  }

  /** No sync has failed, and the group being served has not. */
  predicate Sound(s: State) {
    !s.broken && !s.leader.Failing?
  }

  function Stage(s: State): nat {
    match s.leader
    case Nobody => 5
    case MakingRoom(force) => if force then 4 else 3
    case Serving(_, _, _, logged, synced, _) => if !logged then 2 else if !synced then 1 else 0
    case Failing(_, _, _, _) => 0
  }

  function Left(s: State): nat {
    if s.leader.Serving? && s.leader.inserted <= |s.leader.ops| then |s.leader.ops| - s.leader.inserted else 0
  }

  ghost predicate Closer(s: State, m: State) {
    m.queue == s.queue && (Stage(m) < Stage(s) || (Stage(m) == Stage(s) && Left(m) < Left(s)))
  }

  /** The first `k` of the queue are answered, successfully if the state was sound. */
  ghost predicate Answers(s: State, k: nat, m: State) {
    && (forall id :: id in s.results ==> id in m.results)
    && k <= |s.queue| && (forall i :: 0 <= i < k ==> s.queue[i] in m.results)
    && (Sound(s) ==>
          && (forall id :: id in s.results && s.results[id] ==> m.results[id])
          && forall i :: 0 <= i < k ==> m.results[s.queue[i]])
  }

  lemma LeaderFacts(s: State)
    requires Inv(s)
    ensures QueueKnown(s) && LeaderOk(s) && (s.queue == [] ==> s.leader.Nobody?)
  {
  }

  /** While somebody waits, something can be done next that brings the queue nearer to its end. */
  lemma OneStep(s: State) returns (a: Step, m: State)
    requires Inv(s) && s.queue != []
    ensures Goes(s, a, m) && (Sound(s) ==> Sound(m))
    ensures (Closer(s, m) && Answers(s, 0, m))
         || exists k :: 0 < k <= |s.queue| && m.queue == s.queue[k..] && Answers(s, k, m)
  {
    LeaderFacts(s);
    hide Inv, LeaderOk, GroupOps, Goes;
    if s.leader.Nobody? {
      a, m := Lead, s.(leader := MakingRoom(s.requests[s.queue[0]].batch.None?), switched := false);
      assert Goes(s, a, m) by {
        Begins(s, m);
      }
    } else if s.leader.MakingRoom? {
      a, m := RoomStep(s);
    } else if s.leader.Failing? || (s.leader.logged && s.leader.synced && s.leader.inserted >= |s.leader.ops|) {
      LeaderCounts(s);
      a, m := Ends(s);
    } else {
      a, m := ServeStep(s);
    }
  }

  lemma LeaderCounts(s: State)
    requires QueueKnown(s) && LeaderOk(s)
    ensures s.leader.Serving? ==> s.leader.inserted <= |s.leader.ops|
  {
  }

  lemma Begins(s: State, m: State)
    requires s.queue != [] && s.leader.Nobody? && s.queue[0] in s.requests
    requires m == s.(leader := MakingRoom(s.requests[s.queue[0]].batch.None?), switched := false)
    ensures Goes(s, Lead, m)
  {
  }

  lemma RoomStep(s: State) returns (a: Step, m: State)
    requires QueueKnown(s) && s.queue != [] && s.leader.MakingRoom?
    ensures Goes(s, a, m) && (Sound(s) ==> Sound(m)) && Closer(s, m) && Answers(s, 0, m)
  {
    hide GroupOps;
    if s.broken {
      a, m := Room(false), s.(leader := Failing(1, [], s.lastSequence, false));
    } else if s.leader.force {
      a := Switch;
      m := s.(leader := MakingRoom(false), switched := true, closed := s.closed + [LogFile(s.log, s.durable)], log := [], durable := 0);
    } else if s.requests[s.queue[0]].batch.None? {
      a, m := Room(true), s.(leader := Serving(1, [], s.lastSequence, true, true, 0));
    } else {
      var n := GroupLength(Queued(s));
      a := Room(true);
      m := s.(leader := Serving(n, GroupOps(Queued(s), n), s.lastSequence, false, !s.requests[s.queue[0]].sync, 0));
    }
  }

  lemma ServeStep(s: State) returns (a: Step, m: State)
    requires s.leader.Serving? && !(s.leader.logged && s.leader.synced && s.leader.inserted >= |s.leader.ops|)
    ensures Goes(s, a, m) && (Sound(s) ==> Sound(m)) && Closer(s, m) && Answers(s, 0, m)
  {
    var l := s.leader;
    if !l.logged {
      a, m := Log(true), s.(leader := l.(logged := true), log := s.log + [RecordOf(l)]);
    } else if !l.synced {
      a, m := Sync(true), s.(leader := l.(synced := true), durable := |s.log|);
    } else {
      a := Insert;
      m := s.(leader := l.(inserted := l.inserted + 1), mem := s.mem + [Add(l.base + 1 + l.inserted, l.ops[l.inserted])]);
    }
  }

  lemma Ends(s: State) returns (a: Step, m: State)
    requires QueueKnown(s) && LeaderOk(s) && s.queue != []
    requires s.leader.Failing? || (s.leader.Serving? && s.leader.logged && s.leader.synced && s.leader.inserted == |s.leader.ops|)
    ensures Goes(s, a, m) && (Sound(s) ==> Sound(m))
    ensures exists k :: 0 < k <= |s.queue| && m.queue == s.queue[k..] && Answers(s, k, m)
  {
    hide GroupOps;
    var k := s.leader.count;
    var ids := s.queue[..k];
    a := Publish;
    m := s.(queue := s.queue[k..], leader := Nobody, lastSequence := s.leader.base + |s.leader.ops|,
            results := Noted(s.results, ids, s.leader.Serving?), served := s.served + [GroupOf(s)]);
    forall i | 0 <= i < k ensures s.queue[i] in m.results && m.results[s.queue[i]] == s.leader.Serving? {
      assert ids[i] == s.queue[i];
    }
    assert Answers(s, k, m);
  }

  /** From every state reached, whoever waits can be answered, and is told success unless a sync has failed or the group
      being served has. */
  lemma {:induction false} EveryoneAnswered(s: State) returns (n: nat, s': State)
    requires Inv(s)
    ensures Reaches(s, n, s') && s'.queue == [] && Answers(s, |s.queue|, s')
    decreases |s.queue|, Stage(s), Left(s)
  {
    hide Inv, Next, Goes;
    if s.queue == [] {
      n, s' := 0, s;
    } else {
      var a, m := OneStep(s);
      GoesKeepsInv(s, a, m);
      if Closer(s, m) && Answers(s, 0, m) {
        n, s' := EveryoneAnswered(m);
      } else {
        var k :| 0 < k <= |s.queue| && m.queue == s.queue[k..] && Answers(s, k, m);
        n, s' := EveryoneAnswered(m);
        forall i | 0 <= i < |s.queue| ensures s.queue[i] in s'.results && (Sound(s) ==> s'.results[s.queue[i]]) {
          if i >= k {
            assert m.queue[i - k] == s.queue[i];
          }
        }
      }
      assert Reaches(s, n + 1, s');
      n := n + 1;
    }
  }

  lemma GoesKeepsInv(s: State, a: Step, m: State)
    requires Inv(s) && Goes(s, a, m)
    ensures Inv(m)
  {
    NextKeepsInv(s, a, m);
  }
}
