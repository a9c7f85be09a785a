/** The queue of writers: the writer at its head commits a group of batches for all of them while others
    keep arriving, with the mutex released during logging and insertion. */
module GroupCommit {
  import opened InternalKeys
  import opened Sequences
  import WriteBatch

  type Op = WriteBatch.Op
  type Batch = WriteBatch.Batch
  type Id = nat

  /** What a writer asks for; no batch means that it only wants the memtable switched. */
  datatype Request = Request(batch: Option<seq<Op>>, sync: bool)

  // ---- Building a group ----

  function ByteSize(ops: seq<Op>): nat {
    WriteBatch.HEADER_SIZE + |WriteBatch.EncodeOps(ops)|
  }

  function MaxGroupSize(first: nat): nat {
    if first <= 0x2_0000 then first + 0x2_0000 else 0x10_0000
  }

  function OpsOf(r: Request): seq<Op> {
    if r.batch.Some? then r.batch.value else []
  }

  /** The operations of the first `n` requests. */
  function GroupOps(rs: seq<Request>, n: nat): seq<Op>
    requires n <= |rs|
  {
    if n == 0 then [] else GroupOps(rs, n - 1) + OpsOf(rs[n - 1])
  }

  /** Where a group that has reached `i` requests and `size` bytes stops. */
  function GroupEnd(rs: seq<Request>, i: nat, size: nat, max: nat): (n: nat)
    requires 0 < i <= |rs|
    ensures i <= n <= |rs|
    ensures forall j :: i <= j < n ==> rs[j].sync ==> rs[0].sync
    decreases |rs| - i
  {
    if i == |rs| || (rs[i].sync && !rs[0].sync) then i
    else if rs[i].batch.Some? then
      var size' := size + ByteSize(rs[i].batch.value);
      if size' > max then i else GroupEnd(rs, i + 1, size', max)
    else GroupEnd(rs, i + 1, size, max)
  }

  /** How many requests from the head of the queue are served together. */
  function GroupLength(rs: seq<Request>): (n: nat)
    requires rs != [] && rs[0].batch.Some?
    ensures 1 <= n <= |rs|
    ensures forall j :: 0 <= j < n && rs[j].sync ==> rs[0].sync
  {
    var size := ByteSize(rs[0].batch.value);
    GroupEnd(rs, 1, size, MaxGroupSize(size))
  }

  /** The bytes of the batches of the first `n` requests. */
  function BatchBytes(rs: seq<Request>, n: nat): nat
    requires n <= |rs|
  {
    if n == 0 then 0 else BatchBytes(rs, n - 1) + if rs[n - 1].batch.Some? then ByteSize(rs[n - 1].batch.value) else 0
  }

  /** Request `i` cannot be served with those before it: it asks for a sync and the leader does not, or its batch
      makes the group too big. */
  predicate Stops(rs: seq<Request>, i: nat, cap: nat)
    requires 0 < i < |rs|
  {
    (rs[i].sync && !rs[0].sync) || (rs[i].batch.Some? && BatchBytes(rs, i + 1) > cap)
  }

  lemma {:induction false} EndIsFirstStop(rs: seq<Request>, i: nat, cap: nat)
    requires 0 < i <= |rs|
    ensures var n := GroupEnd(rs, i, BatchBytes(rs, i), cap);
            && i <= n <= |rs| && (n < |rs| ==> Stops(rs, n, cap)) && forall j :: i <= j < n ==> !Stops(rs, j, cap)
    decreases |rs| - i
  {
    hide ByteSize;
    if i < |rs| && !Stops(rs, i, cap) {
      EndIsFirstStop(rs, i + 1, cap);
    }
  }

  /** A group is as long as it may be: it takes requests up to the first that stops it, where a group that starts
      with at most 128 KB may grow by 128 KB more, and any other up to 1 MB. */
  lemma GroupIsMaximal(rs: seq<Request>)
    requires rs != [] && rs[0].batch.Some?
    ensures var n, first := GroupLength(rs), 12 + |WriteBatch.EncodeOps(rs[0].batch.value)|;
            var cap := if first <= 128 * 1024 then first + 128 * 1024 else 1024 * 1024;
            && 1 <= n <= |rs| && (n < |rs| ==> Stops(rs, n, cap)) && forall j :: 1 <= j < n ==> !Stops(rs, j, cap)
  {
    FirstSize(rs);
    hide GroupEnd, Stops, BatchBytes, ByteSize, WriteBatch.EncodeOps;
    EndIsFirstStop(rs, 1, MaxGroupSize(ByteSize(rs[0].batch.value)));
  }

  lemma FirstSize(rs: seq<Request>)
    requires rs != [] && rs[0].batch.Some?
    ensures BatchBytes(rs, 1) == ByteSize(rs[0].batch.value) == 12 + |WriteBatch.EncodeOps(rs[0].batch.value)|
  {
    hide WriteBatch.EncodeOps;
    assert BatchBytes(rs, 0) == 0;
  }

  /** The batches of a group of more than one stay within the cap. */
  lemma {:induction false} GroupWithinCap(rs: seq<Request>, n: nat, cap: nat)
    requires 1 <= n <= |rs| && (forall j :: 1 <= j < n ==> !Stops(rs, j, cap)) && exists j :: 1 <= j < n && rs[j].batch.Some?
    ensures BatchBytes(rs, n) <= cap
  {
    hide ByteSize;
    if rs[n - 1].batch.None? {
      GroupWithinCap(rs, n - 1, cap);
    } else {
      assert !Stops(rs, n - 1, cap);
    }
  }

  method BuildBatchGroup(rs: seq<Request>) returns (last: nat, ops: seq<Op>)
    requires rs != [] && rs[0].batch.Some?
    ensures last + 1 == GroupLength(rs) && ops == GroupOps(rs, last + 1)
  {
    hide ByteSize;
    var size := ByteSize(rs[0].batch.value);
    var maxSize := 0x10_0000;
    if size <= 0x2_0000 {
      maxSize := size + 0x2_0000;
    }
    last := 0;
    ops := rs[0].batch.value;
    assert GroupOps(rs, 1) == GroupOps(rs, 0) + ops;
    var i := 1;
    while i < |rs|
      invariant 1 <= i <= |rs| && last == i - 1 && 0 <= size
      invariant ops == GroupOps(rs, i) && GroupEnd(rs, i, size, maxSize) == GroupLength(rs)
    {
      var w := rs[i];
      if w.sync && !rs[0].sync {
        break;
      }
      if w.batch.Some? {
        size := size + ByteSize(w.batch.value);
        if size > maxSize {
          break;
        }
        ops := ops + w.batch.value;
      }
      last := i;
      i := i + 1;
    }
  }

  // ---- The machine ----

  /** What the writer at the head of the queue is doing for the first `count` requests: it makes room, having
      still to switch the memtable under `force`, or has the group's operations and sequence base, and has
      logged, synced and inserted so much of it. */
  datatype Leader =
    | Nobody
    | MakingRoom(force: bool)
    | Serving(count: nat, ops: seq<Op>, base: nat, logged: bool, synced: bool, inserted: nat)
    | Failing(count: nat, ops: seq<Op>, base: nat, recorded: bool)

  /** A group that was served: whether its record is in a log, and at which place of which; whether the leader
      asked for a sync and got it, and whether it switched the memtable. */
  datatype Group = Group(ids: seq<Id>, ops: seq<Op>, base: nat, ok: bool, logged: bool, file: nat, place: nat, synced: bool, switched: bool)

  datatype Add = Add(sequence: nat, op: Op)

  /** A log file and how many of its records the last sync covered. */
  datatype LogFile = LogFile(records: seq<Batch>, durable: nat)

  /** `closed` are the logs before the current one; `switched` says that the leader switched the memtable.
      `mem` lists the insertions into all memtables. */
  datatype State = State(
    requests: map<Id, Request>,
    queue: seq<Id>,
    leader: Leader,
    switched: bool,
    closed: seq<LogFile>,
    log: seq<Batch>,
    durable: nat,
    mem: seq<Add>,
    lastSequence: nat,
    broken: bool,
    results: map<Id, bool>,
    returned: set<Id>,
    entered: seq<Id>,
    served: seq<Group>)

  function Init(): State {
    State(map[], [], Nobody, false, [], [], 0, [], 0, false, map[], {}, [], [])
  }

  function Queued(s: State): seq<Request>
    requires forall i :: 0 <= i < |s.queue| ==> s.queue[i] in s.requests
  {
    seq(|s.queue|, i requires 0 <= i < |s.queue| => s.requests[s.queue[i]])
  }

  function AddsOf(base: nat, ops: seq<Op>): (r: seq<Add>)
    ensures |r| == |ops| && forall i :: 0 <= i < |r| ==> r[i] == Add(base + 1 + i, ops[i])
  {
    seq(|ops|, i requires 0 <= i < |ops| => Add(base + 1 + i, ops[i]))
  }

  /** The next writer joins the queue. */
  ghost predicate EnterNext(s: State, id: Id, r: Request, s': State) {
    && id !in s.requests
    && s' == s.(requests := s.requests[id := r], queue := s.queue + [id], entered := s.entered + [id])
  }

  /** The writer at the head of the queue starts to make room; without a batch it asks for a new memtable. */
  ghost predicate LeadNext(s: State, s': State) {
    && s.queue != [] && s.leader.Nobody? && s.queue[0] in s.requests
    && s' == s.(leader := MakingRoom(s.requests[s.queue[0]].batch.None?), switched := false)
  }

  /** A new memtable with a new log takes over. */
  ghost predicate SwitchNext(s: State, s': State) {
    && s.leader.MakingRoom? && !s.broken
    && s' == s.(leader := MakingRoom(false), switched := true, closed := s.closed + [LogFile(s.log, s.durable)], log := [], durable := 0)
  }

  ghost predicate QueueKnown(s: State) {
    forall i :: 0 <= i < |s.queue| ==> s.queue[i] in s.requests
  }

  /** Room is made or not: not after an error, and not before a switch that was asked for. The group is gathered from whoever waits by then. */
  ghost predicate RoomNext(s: State, ok: bool, s': State) {
    && s.leader.MakingRoom? && s.queue != [] && QueueKnown(s) && (s.broken || s.leader.force ==> !ok)
    && if !ok then s' == s.(leader := Failing(1, [], s.lastSequence, false))
       else if s.requests[s.queue[0]].batch.None? then s' == s.(leader := Serving(1, [], s.lastSequence, true, true, 0))
       else
         var n := GroupLength(Queued(s));
         s' == s.(leader := Serving(n, GroupOps(Queued(s), n), s.lastSequence, false, !s.requests[s.queue[0]].sync, 0))
  }

  function RecordOf(l: Leader): Batch
    requires l.Serving? || l.Failing?
  {
    WriteBatch.Batch(l.base + 1, l.ops)
  }

  /** With the mutex released: the group's record is appended to the log, or not. */
  ghost predicate LogNext(s: State, ok: bool, s': State) {
    && s.leader.Serving? && !s.leader.logged
    && s' == if ok then s.(leader := s.leader.(logged := true), log := s.log + [RecordOf(s.leader)])
             else s.(leader := Failing(s.leader.count, s.leader.ops, s.leader.base, false))
  }

  /** The log is synced for a leader that asked for it; failing that, no later write may succeed. */
  ghost predicate SyncNext(s: State, ok: bool, s': State) {
    && s.leader.Serving? && s.leader.logged && !s.leader.synced
    && s' == if ok then s.(leader := s.leader.(synced := true), durable := |s.log|)
             else s.(leader := Failing(s.leader.count, s.leader.ops, s.leader.base, true), broken := true)
  }

  /** One operation goes into the memtable. */
  ghost predicate InsertNext(s: State, s': State) {
    && s.leader.Serving? && s.leader.logged && s.leader.synced && s.leader.inserted < |s.leader.ops|
    && s' == s.(leader := s.leader.(inserted := s.leader.inserted + 1),
                mem := s.mem + [Add(s.leader.base + 1 + s.leader.inserted, s.leader.ops[s.leader.inserted])])
  }

  function Noted(results: map<Id, bool>, ids: seq<Id>, ok: bool): map<Id, bool> {
    map id | id in results.Keys + set i | 0 <= i < |ids| :: ids[i] :: if id in ids then ok else results[id]
  }

  /** The record of the group being served is in the log. */
  predicate Recorded(s: State)
    requires s.queue != [] && s.queue[0] in s.requests
  {
    (s.leader.Serving? && s.leader.logged && s.requests[s.queue[0]].batch.Some?) || (s.leader.Failing? && s.leader.recorded)
  }

  /** With the mutex again: the sequence is published and the group leaves the queue. */
  ghost predicate PublishNext(s: State, s': State) {
    && (s.leader.Failing? || (s.leader.Serving? && s.leader.logged && s.leader.synced && s.leader.inserted == |s.leader.ops|))
    && s.leader.count <= |s.queue| && QueueKnown(s) && s.queue != []
    && var ids := s.queue[..s.leader.count];
       var ok := s.leader.Serving?;
       s' == s.(queue := s.queue[s.leader.count..], leader := Nobody, lastSequence := s.leader.base + |s.leader.ops|,
                results := Noted(s.results, ids, ok),
                served := s.served + [GroupOf(s)])
  }

  /** The group that is served. */
  function GroupOf(s: State): Group
    requires (s.leader.Serving? || s.leader.Failing?) && s.leader.count <= |s.queue| && s.queue != [] && s.queue[0] in s.requests
  {
    var ok := s.leader.Serving?;
    Group(s.queue[..s.leader.count], s.leader.ops, s.leader.base, ok, Recorded(s), |s.closed|, if s.log == [] then 0 else |s.log| - 1,
          ok && s.requests[s.queue[0]].sync, s.switched)
  }

  /** A served writer returns. */
  ghost predicate ReturnNext(s: State, id: Id, s': State) {
    id in s.results && id !in s.returned && s' == s.(returned := s.returned + {id})
  }

  datatype Step = Enter(id: Id, r: Request) | Lead | Switch | Room(ok: bool) | Log(ok: bool) | Sync(ok: bool) | Insert | Publish | Return(id: Id)

  ghost predicate Next(s: State, a: Step, s': State) {
    match a
    case Enter(id, r) => EnterNext(s, id, r, s')
    case Lead => LeadNext(s, s')
    case Switch => SwitchNext(s, s')
    case Room(ok) => RoomNext(s, ok, s')
    case Log(ok) => LogNext(s, ok, s')
    case Sync(ok) => SyncNext(s, ok, s')
    case Insert => InsertNext(s, s')
    case Publish => PublishNext(s, s')
    case Return(id) => ReturnNext(s, id, s')
  }

  // ---- What every step keeps ----

  /** The writers of the served groups, in the order in which they left the queue. */
  function ServedIds(gs: seq<Group>): seq<Id> {
    if gs == [] then [] else ServedIds(gs[..|gs| - 1]) + gs[|gs| - 1].ids
  }

  /** The insertions of the successful groups. */
  function ServedAdds(gs: seq<Group>): seq<Add> {
    if gs == [] then []
    else ServedAdds(gs[..|gs| - 1]) + (if gs[|gs| - 1].ok then AddsOf(gs[|gs| - 1].base, gs[|gs| - 1].ops) else [])
  }

  /** Sequences handed out to the groups, successful or not. */
  function Assigned(gs: seq<Group>): nat {
    if gs == [] then 0 else Assigned(gs[..|gs| - 1]) + |gs[|gs| - 1].ops|
  }

  function RequestsOf(s: State, ids: seq<Id>): seq<Request>
    requires forall i :: 0 <= i < |ids| ==> ids[i] in s.requests
  {
    seq(|ids|, i requires 0 <= i < |ids| => s.requests[ids[i]])
  }

  ghost predicate Known(s: State, ids: seq<Id>) {
    forall i :: 0 <= i < |ids| ==> ids[i] in s.requests
  }

  /** A group is a leader with followers whose wish to sync it covers; what it committed is their batches in order. */
  ghost predicate GoodGroup(s: State, g: Group, prior: nat) {
    && g.ids != [] && Known(s, g.ids) && g.base == prior
    && (forall i :: 0 <= i < |g.ids| && s.requests[g.ids[i]].sync ==> s.requests[g.ids[0]].sync)
    && (g.ok ==> g.synced == s.requests[g.ids[0]].sync)
    && (g.ok && s.requests[g.ids[0]].batch.Some? ==> g.ops == GroupOps(RequestsOf(s, g.ids), |g.ids|))
    && (g.ok && s.requests[g.ids[0]].batch.None? ==> |g.ids| == 1 && g.ops == [] && g.switched)
    && (g.ok && s.requests[g.ids[0]].batch.Some? ==> g.logged)
  }

  ghost predicate GoodGroups(s: State) {
    forall i :: 0 <= i < |s.served| ==> GoodGroup(s, s.served[i], Assigned(s.served[..i]))
  }

  ghost predicate LeaderOk(s: State)
    requires QueueKnown(s)
  {
    match s.leader
    case Nobody => true
    case MakingRoom(force) => s.queue != [] && (s.requests[s.queue[0]].batch.None? ==> force || s.switched)
    case Serving(count, ops, base, logged, synced, inserted) =>
      && 1 <= count <= |s.queue| && base == s.lastSequence && inserted <= |ops|
      && (inserted > 0 ==> logged && synced) && (!logged ==> synced == !s.requests[s.queue[0]].sync)
      && (s.requests[s.queue[0]].batch.Some? ==> ops == GroupOps(RequestsOf(s, s.queue[..count]), count))
      && (s.requests[s.queue[0]].batch.None? ==> count == 1 && ops == [] && logged && synced && s.switched)
      && forall i :: 0 <= i < count && s.requests[s.queue[i]].sync ==> s.requests[s.queue[0]].sync
    case Failing(count, ops, base, recorded) =>
      && 1 <= count <= |s.queue| && base == s.lastSequence
      && forall i :: 0 <= i < count && s.requests[s.queue[i]].sync ==> s.requests[s.queue[0]].sync
  }

  /** What the group being served has inserted so far. */
  function Pending(s: State): seq<Add> {
    if s.leader.Serving? && s.leader.inserted <= |s.leader.ops| then AddsOf(s.leader.base, s.leader.ops[..s.leader.inserted]) else []
  }

  /** The records of the groups that were logged. */
  function ServedLog(gs: seq<Group>): seq<Batch> {
    if gs == [] then []
    else
      var g := gs[|gs| - 1];
      ServedLog(gs[..|gs| - 1]) + (if g.logged then [WriteBatch.Batch(g.base + 1, g.ops)] else [])
  }

  function PendingLog(s: State): seq<Batch>
    requires s.queue != [] ==> s.queue[0] in s.requests
  {
    if s.queue != [] && Recorded(s) then [RecordOf(s.leader)] else []
  }

  /** The records of a list of logs. */
  function AllRecords(fs: seq<LogFile>): seq<Batch> {
    if fs == [] then [] else AllRecords(fs[..|fs| - 1]) + fs[|fs| - 1].records
  }

  ghost predicate LogOk(s: State) {
    QueueKnown(s) && AllRecords(s.closed) + s.log == ServedLog(s.served) + PendingLog(s)
  }

  /** The logs, the current one last. */
  function Files(s: State): seq<LogFile> {
    s.closed + [LogFile(s.log, s.durable)]
  }

  /** The record of a logged group is where it was written, and a sync covered it if the group had one. */
  ghost predicate Stored(s: State, g: Group) {
    g.logged ==>
      && g.file < |Files(s)| && g.place < |Files(s)[g.file].records|
      && Files(s)[g.file].records[g.place] == WriteBatch.Batch(g.base + 1, g.ops)
      && (g.synced ==> g.place < Files(s)[g.file].durable)
  }

  ghost predicate FilesOk(s: State) {
    && QueueKnown(s) && s.durable <= |s.log| && (forall i :: 0 <= i < |s.served| ==> Stored(s, s.served[i]))
    && (s.queue != [] && Recorded(s) ==>
          && s.log != [] && s.log[|s.log| - 1] == RecordOf(s.leader)
          && (s.leader.Serving? && s.leader.synced && s.requests[s.queue[0]].sync ==> s.durable == |s.log|))
  }

  /** Who left the queue, followed by who is in it, is who entered, each writer once. */
  ghost predicate QueueOk(s: State) {
    && s.entered == ServedIds(s.served) + s.queue
    && (forall i, j :: 0 <= i < j < |s.entered| ==> s.entered[i] != s.entered[j])
    && (forall id :: id in s.requests <==> id in s.entered)
    && (forall id :: id in s.results <==> id in ServedIds(s.served))
    && (forall id :: id in s.returned ==> id in s.results)
  }

  /** Each served writer got the outcome of its group. */
  ghost predicate ResultsOk(s: State) {
    forall i, j :: 0 <= i < |s.served| && 0 <= j < |s.served[i].ids| ==>
      s.served[i].ids[j] in s.results && s.results[s.served[i].ids[j]] == s.served[i].ok
  }

  ghost predicate MemoryOk(s: State) {
    s.lastSequence == Assigned(s.served) && s.mem == ServedAdds(s.served) + Pending(s) && (s.broken ==> !s.leader.Serving?)
  }

  ghost predicate Inv(s: State) {
    QueueOk(s) && QueueKnown(s) && LeaderOk(s) && GoodGroups(s) && ResultsOk(s) && MemoryOk(s) && LogOk(s) && FilesOk(s)
  }

  lemma InvInitially()
    ensures Inv(Init())
  {
  }

  lemma {:induction false} GroupOpsSame(a: seq<Request>, b: seq<Request>, n: nat)
    requires n <= |a| && n <= |b| && forall i :: 0 <= i < n ==> a[i] == b[i]
    ensures GroupOps(a, n) == GroupOps(b, n)
  {
    if n > 0 {
      GroupOpsSame(a, b, n - 1);
    }
  }

  lemma ServedIdsNext(gs: seq<Group>, g: Group)
    ensures ServedIds(gs + [g]) == ServedIds(gs) + g.ids
    ensures Assigned(gs + [g]) == Assigned(gs) + |g.ops|
    ensures ServedLog(gs + [g]) == ServedLog(gs) + (if g.logged then [WriteBatch.Batch(g.base + 1, g.ops)] else [])
    ensures ServedAdds(gs + [g]) == ServedAdds(gs) + (if g.ok then AddsOf(g.base, g.ops) else [])
  {
    assert (gs + [g])[..|gs + [g]| - 1] == gs;
  }

  lemma InvParts(s: State)
    requires Inv(s)
    ensures QueueOk(s) && QueueKnown(s) && LeaderOk(s) && GoodGroups(s) && ResultsOk(s) && MemoryOk(s) && LogOk(s) && FilesOk(s)
  {
  }

  lemma InvFrom(s: State)
    requires QueueOk(s) && QueueKnown(s) && LeaderOk(s) && GoodGroups(s) && ResultsOk(s) && MemoryOk(s) && LogOk(s) && FilesOk(s)
    ensures Inv(s)
  {
  }

  /** A step that moves no writer. */
  ghost predicate MovesNobody(s: State, s': State) {
    s' == s.(leader := s'.leader, switched := s'.switched, closed := s'.closed, log := s'.log, durable := s'.durable,
             mem := s'.mem, broken := s'.broken)
  }

  lemma LeaderStep(s: State, s': State)
    requires Inv(s) && MovesNobody(s, s') && QueueKnown(s')
    requires LeaderOk(s') && MemoryOk(s') && LogOk(s') && FilesOk(s')
    ensures Inv(s')
  {
    hide *;
    InvParts(s);
    SameQueue(s, s');
    SameGroups(s, s');
    InvFrom(s');
  }

  lemma SameQueue(s: State, s': State)
    requires QueueOk(s) && QueueKnown(s) && ResultsOk(s) && MovesNobody(s, s')
    ensures QueueOk(s') && QueueKnown(s') && ResultsOk(s') && s'.requests == s.requests && s'.served == s.served
  {
    hide ServedIds;
  }

  lemma SameGroups(s: State, s': State)
    requires GoodGroups(s) && s'.served == s.served && s'.requests == s.requests
    ensures GoodGroups(s')
  {
    forall i | 0 <= i < |s'.served| ensures GoodGroup(s', s'.served[i], Assigned(s'.served[..i])) {
      assert GoodGroup(s, s.served[i], Assigned(s.served[..i]));
    }
  }

  lemma GroupKept(s: State, s': State, g: Group, prior: nat)
    requires GoodGroup(s, g, prior) && forall id :: id in s.requests ==> id in s'.requests && s'.requests[id] == s.requests[id]
    ensures GoodGroup(s', g, prior)
  {
    assert RequestsOf(s', g.ids) == RequestsOf(s, g.ids);
  }

  // Entering the queue

  lemma EnterQueue(s: State, id: Id, r: Request, s': State)
    requires QueueOk(s) && QueueKnown(s) && EnterNext(s, id, r, s')
    ensures QueueOk(s') && QueueKnown(s')
  {
    hide ServedIds;
    Associate(ServedIds(s.served), s.queue, [id]);
    assert id !in s.entered;
  }

  lemma EnterLeader(s: State, id: Id, r: Request, s': State)
    requires QueueKnown(s) && LeaderOk(s) && EnterNext(s, id, r, s') && QueueKnown(s')
    ensures LeaderOk(s')
  {
    hide GroupOps;
    assert forall i :: 0 <= i < |s.queue| ==> s'.queue[i] == s.queue[i] && s'.requests[s.queue[i]] == s.requests[s.queue[i]];
    if s.leader.Serving? {
      var n := s.leader.count;
      assert s'.queue[..n] == s.queue[..n];
      assert RequestsOf(s', s'.queue[..n]) == RequestsOf(s, s.queue[..n]);
    }
  }

  lemma EnterLogs(s: State, id: Id, r: Request, s': State)
    requires QueueKnown(s) && LeaderOk(s) && LogOk(s) && FilesOk(s) && EnterNext(s, id, r, s') && QueueKnown(s')
    ensures LogOk(s') && FilesOk(s')
  {
    hide AllRecords, ServedLog, GroupOps, RequestsOf;
    assert s.queue != [] ==> s'.queue[0] == s.queue[0];
    forall i | 0 <= i < |s'.served| ensures Stored(s', s'.served[i]) {
      assert Stored(s, s.served[i]);
    }
  }

  lemma EnterOthers(s: State, id: Id, r: Request, s': State)
    requires GoodGroups(s) && ResultsOk(s) && MemoryOk(s) && EnterNext(s, id, r, s')
    ensures GoodGroups(s') && ResultsOk(s') && MemoryOk(s')
  {
    hide GoodGroup, Assigned, ServedAdds;
    forall i | 0 <= i < |s'.served| ensures GoodGroup(s', s'.served[i], Assigned(s'.served[..i])) {
      GroupKept(s, s', s.served[i], Assigned(s.served[..i]));
    }
  }

  lemma EnterKeeps(s: State, id: Id, r: Request, s': State)
    requires Inv(s) && EnterNext(s, id, r, s')
    ensures Inv(s')
  {
    hide *;
    InvParts(s);
    EnterQueue(s, id, r, s');
    EnterLeader(s, id, r, s');
    EnterLogs(s, id, r, s');
    EnterOthers(s, id, r, s');
    InvFrom(s');
  }

  // Making room

  /** No group is being served on either side. */
  lemma NothingPending(s: State, s': State)
    requires MovesNobody(s, s') && MemoryOk(s) && !s.leader.Serving? && s'.mem == s.mem && s'.broken == s.broken
    requires s'.leader.Serving? ==> s'.leader.inserted == 0 && !s'.broken
    ensures MemoryOk(s')
  {
    hide ServedAdds, Assigned;
    assert Pending(s) == [] && Pending(s') == [];
  }

  lemma LeadKeeps(s: State, s': State)
    requires Inv(s) && LeadNext(s, s')
    ensures Inv(s')
  {
    hide QueueOk, GoodGroups, ResultsOk, AllRecords, ServedLog, MemoryOk;
    NothingPending(s, s');
    forall i | 0 <= i < |s'.served| ensures Stored(s', s'.served[i]) {
      assert Stored(s, s.served[i]);
    }
    LeaderStep(s, s');
  }

  lemma SwitchLogs(s: State, s': State)
    requires LogOk(s) && FilesOk(s) && SwitchNext(s, s')
    ensures LogOk(s') && FilesOk(s')
  {
    hide ServedLog;
    var f := LogFile(s.log, s.durable);
    assert (s.closed + [f])[..|s.closed|] == s.closed;
    assert Files(s') == Files(s) + [LogFile([], 0)];
    assert PendingLog(s) == [] && PendingLog(s') == [];
    forall i | 0 <= i < |s'.served| ensures Stored(s', s'.served[i]) {
      assert Stored(s, s.served[i]);
    }
  }

  lemma SwitchLeader(s: State, s': State)
    requires QueueKnown(s) && LeaderOk(s) && SwitchNext(s, s')
    ensures MovesNobody(s, s') && QueueKnown(s') && LeaderOk(s') && !s.leader.Serving? && !s'.leader.Serving?
    ensures s'.mem == s.mem && s'.broken == s.broken
  {
  }

  lemma SwitchKeeps(s: State, s': State)
    requires Inv(s) && SwitchNext(s, s')
    ensures Inv(s')
  {
    hide *;
    InvParts(s);
    SwitchLeader(s, s');
    SwitchLogs(s, s');
    NothingPending(s, s');
    LeaderStep(s, s');
  }

  lemma GroupGathered(s: State)
    requires QueueKnown(s) && s.queue != [] && s.requests[s.queue[0]].batch.Some?
    ensures Queued(s) != [] && Queued(s)[0] == s.requests[s.queue[0]]
    ensures var n := GroupLength(Queued(s));
            && 1 <= n <= |s.queue| == |Queued(s)|
            && GroupOps(Queued(s), n) == GroupOps(RequestsOf(s, s.queue[..n]), n)
            && forall i :: 0 <= i < n && s.requests[s.queue[i]].sync ==> s.requests[s.queue[0]].sync
  {
    var n := GroupLength(Queued(s));
    assert forall i :: 0 <= i < |s.queue| ==> Queued(s)[i] == s.requests[s.queue[i]];
    GroupOpsSame(Queued(s), RequestsOf(s, s.queue[..n]), n);
  }

  lemma RoomLeader(s: State, ok: bool, s': State)
    requires QueueKnown(s) && LeaderOk(s) && RoomNext(s, ok, s')
    ensures MovesNobody(s, s') && QueueKnown(s') && LeaderOk(s') && s'.mem == s.mem && s'.broken == s.broken
    ensures !s.leader.Serving? && (s'.leader.Serving? ==> s'.leader.inserted == 0 && !s'.broken)
  {
    if ok && s.requests[s.queue[0]].batch.Some? {
      GroupGathered(s);
    }
    hide GroupLength, GroupOps, Queued;
  }

  lemma RoomLogs(s: State, ok: bool, s': State)
    requires LogOk(s) && FilesOk(s) && RoomNext(s, ok, s')
    ensures LogOk(s') && FilesOk(s')
  {
    hide GroupLength, GroupOps, Queued, ServedLog, AllRecords;
    assert PendingLog(s) == [] && PendingLog(s') == [];
    forall i | 0 <= i < |s'.served| ensures Stored(s', s'.served[i]) {
      assert Stored(s, s.served[i]);
    }
  }

  lemma RoomKeeps(s: State, ok: bool, s': State)
    requires Inv(s) && RoomNext(s, ok, s')
    ensures Inv(s')
  {
    hide *;
    InvParts(s);
    RoomLeader(s, ok, s');
    RoomLogs(s, ok, s');
    NothingPending(s, s');
    LeaderStep(s, s');
  }

  // Logging, syncing and inserting

  /** The record is appended, or found missing, or synced. */
  lemma LogLeader(s: State, ok: bool, s': State)
    requires QueueKnown(s) && LeaderOk(s) && MemoryOk(s) && (LogNext(s, ok, s') || SyncNext(s, ok, s'))
    ensures MovesNobody(s, s') && QueueKnown(s') && LeaderOk(s') && MemoryOk(s')
  {
    hide GroupOps, RequestsOf, ServedAdds, Assigned;
    SameRequests(s, s');
    assert Pending(s) == [] && Pending(s') == [];
  }

  lemma LogLogs(s: State, ok: bool, s': State)
    requires QueueKnown(s) && LeaderOk(s) && LogOk(s) && FilesOk(s) && LogNext(s, ok, s')
    ensures LogOk(s') && FilesOk(s')
  {
    hide ServedLog, AllRecords, GroupOps, RequestsOf;
    assert PendingLog(s) == [];
    if ok {
      assert PendingLog(s') == [RecordOf(s.leader)];
      Associate(AllRecords(s.closed), s.log, [RecordOf(s.leader)]);
    }
    forall i | 0 <= i < |s'.served| ensures Stored(s', s'.served[i]) {
      assert Stored(s, s.served[i]);
    }
  }

  lemma SyncLogs(s: State, ok: bool, s': State)
    requires QueueKnown(s) && LeaderOk(s) && LogOk(s) && FilesOk(s) && SyncNext(s, ok, s')
    ensures LogOk(s') && FilesOk(s')
  {
    hide ServedLog, AllRecords, GroupOps, RequestsOf;
    assert PendingLog(s') == PendingLog(s);
    forall i | 0 <= i < |s'.served| ensures Stored(s', s'.served[i]) {
      assert Stored(s, s.served[i]);
    }
  }

  lemma LogKeeps(s: State, ok: bool, s': State)
    requires Inv(s) && (LogNext(s, ok, s') || SyncNext(s, ok, s'))
    ensures Inv(s')
  {
    hide *;
    InvParts(s);
    LogLeader(s, ok, s');
    if LogNext(s, ok, s') {
      LogLogs(s, ok, s');
    } else {
      SyncLogs(s, ok, s');
    }
    LeaderStep(s, s');
  }

  lemma InsertLeader(s: State, s': State)
    requires QueueKnown(s) && LeaderOk(s) && LogOk(s) && FilesOk(s) && InsertNext(s, s')
    ensures MovesNobody(s, s') && QueueKnown(s') && LeaderOk(s') && LogOk(s') && FilesOk(s')
  {
    hide ServedLog, AllRecords, GroupOps, RequestsOf;
    SameRequests(s, s');
    assert PendingLog(s') == PendingLog(s);
    forall i | 0 <= i < |s'.served| ensures Stored(s', s'.served[i]) {
      assert Stored(s, s.served[i]);
    }
  }

  lemma InsertMemory(s: State, s': State)
    requires MemoryOk(s) && InsertNext(s, s')
    ensures MemoryOk(s')
  {
    hide ServedAdds, Assigned;
    var k := s.leader.inserted;
    assert s.leader.ops[..k + 1] == s.leader.ops[..k] + [s.leader.ops[k]];
    assert Pending(s') == Pending(s) + [Add(s.leader.base + 1 + k, s.leader.ops[k])];
    Associate(ServedAdds(s.served), Pending(s), [Add(s.leader.base + 1 + k, s.leader.ops[k])]);
  }

  lemma InsertKeeps(s: State, s': State)
    requires Inv(s) && InsertNext(s, s')
    ensures Inv(s')
  {
    hide *;
    InvParts(s);
    InsertLeader(s, s');
    InsertMemory(s, s');
    LeaderStep(s, s');
  }

  // Publishing

  ghost predicate Served(s: State, g: Group) {
    && s.queue != [] && s.queue[0] in s.requests && (s.leader.Serving? || s.leader.Failing?)
    && 1 <= s.leader.count <= |s.queue| && g == GroupOf(s)
  }

  lemma PublishShape(s: State, s': State) returns (g: Group)
    requires QueueKnown(s) && LeaderOk(s) && PublishNext(s, s')
    ensures Served(s, g) && g.ids == s.queue[..s.leader.count] && s'.queue == s.queue[s.leader.count..]
    ensures s' == s.(queue := s'.queue, leader := Nobody, lastSequence := s'.lastSequence, results := Noted(s.results, g.ids, g.ok),
                     served := s.served + [g])
    ensures s'.lastSequence == s.lastSequence + |g.ops| && g.base == s.lastSequence && g.logged == Recorded(s)
    ensures s.leader.Serving? ==> s.leader.logged && s.leader.synced && s.leader.inserted == |s.leader.ops|
  {
    hide Noted, GroupOps, RequestsOf;
    g := GroupOf(s);
  }

  lemma QueueAfter(s: State, s': State, ids: seq<Id>)
    requires QueueOk(s) && QueueKnown(s) && s.queue == ids + s'.queue
    requires s'.requests == s.requests && s'.entered == s.entered && s'.returned == s.returned
    requires ServedIds(s'.served) == ServedIds(s.served) + ids
    requires forall id :: id in s'.results <==> id in ServedIds(s.served) + ids
    ensures QueueOk(s') && QueueKnown(s')
  {
    hide ServedIds;
    Associate(ServedIds(s.served), ids, s'.queue);
    forall i | 0 <= i < |s'.queue| ensures s'.queue[i] in s'.requests {
      assert s'.queue[i] == s.queue[|ids| + i];
    }
    forall id | id in s'.returned ensures id in s'.results {
      assert id in ServedIds(s.served);
    }
  }

  lemma {:induction false} GroupServed(gs: seq<Group>, i: nat, j: nat)
    requires i < |gs| && j < |gs[i].ids|
    ensures gs[i].ids[j] in ServedIds(gs)
  {
    if i < |gs| - 1 {
      GroupServed(gs[..|gs| - 1], i, j);
    }
  }

  /** Who is served is not in the queue any more. */
  lemma ServedNotQueued(s: State, id: Id)
    requires QueueOk(s) && id in ServedIds(s.served)
    ensures id !in s.queue
  {
    hide ServedIds;
    var m :| 0 <= m < |ServedIds(s.served)| && ServedIds(s.served)[m] == id;
    forall k | 0 <= k < |s.queue| ensures s.queue[k] != id {
      assert s.entered[m] != s.entered[|ServedIds(s.served)| + k];
    }
  }

  /** Who leaves the queue now was in no earlier group, so its outcome is that of its group. */
  lemma ResultsPublished(s: State, ids: seq<Id>, rest: seq<Id>, g: Group, s': State)
    requires QueueOk(s) && ResultsOk(s) && s.queue == ids + rest && g.ids == ids
    requires s'.served == s.served + [g] && s'.results == Noted(s.results, ids, g.ok)
    ensures ResultsOk(s')
    ensures forall id :: id in s'.results <==> id in ServedIds(s.served) + ids
  {
    hide ServedIds;
    NotedIs(s.results, ids, g.ok);
    forall i, j | 0 <= i < |s'.served| && 0 <= j < |s'.served[i].ids|
      ensures s'.served[i].ids[j] in s'.results && s'.results[s'.served[i].ids[j]] == s'.served[i].ok
    {
      if i < |s.served| {
        GroupServed(s.served, i, j);
        ServedNotQueued(s, s.served[i].ids[j]);
      }
    }
    ResultsAre(s);
  }

  lemma ResultsAre(s: State)
    requires QueueOk(s)
    ensures forall id :: id in s.results <==> id in ServedIds(s.served)
  {
  }

  lemma NotedIs(results: map<Id, bool>, ids: seq<Id>, ok: bool)
    ensures forall id :: id in Noted(results, ids, ok) <==> id in results || id in ids
    ensures forall id :: id in ids ==> Noted(results, ids, ok)[id] == ok
    ensures forall id :: id in results && id !in ids ==> Noted(results, ids, ok)[id] == results[id]
  {
  }

  lemma PublishQueue(s: State, g: Group, s': State)
    requires QueueOk(s) && QueueKnown(s) && ResultsOk(s) && s.queue == g.ids + s'.queue && s'.served == s.served + [g]
    requires s'.requests == s.requests && s'.entered == s.entered && s'.returned == s.returned && s'.results == Noted(s.results, g.ids, g.ok)
    ensures QueueOk(s') && QueueKnown(s') && ResultsOk(s')
  {
    hide *;
    ResultsPublished(s, g.ids, s'.queue, g, s');
    ServedIdsNext(s.served, g);
    QueueAfter(s, s', g.ids);
  }

  lemma NewGroup(s: State, g: Group, s': State)
    requires QueueKnown(s) && LeaderOk(s) && Served(s, g) && s'.requests == s.requests
    requires s.leader.Serving? ==> s.leader.logged && s.leader.synced
    ensures GoodGroup(s', g, s.lastSequence)
  {
    hide GroupOps;
    assert RequestsOf(s', g.ids) == RequestsOf(s, g.ids);
    assert g.ids[0] == s.queue[0];
    forall i | 0 <= i < |g.ids| ensures g.ids[i] in s'.requests {
      assert g.ids[i] == s.queue[i];
    }
  }

  lemma PublishGroups(s: State, g: Group, s': State)
    requires GoodGroups(s) && GoodGroup(s', g, Assigned(s.served)) && s'.requests == s.requests && s'.served == s.served + [g]
    ensures GoodGroups(s')
  {
    hide Assigned, GoodGroup;
    forall i | 0 <= i < |s'.served| ensures GoodGroup(s', s'.served[i], Assigned(s'.served[..i])) {
      if i < |s.served| {
        assert s'.served[..i] == s.served[..i];
        GroupKept(s, s', s.served[i], Assigned(s.served[..i]));
      } else {
        assert s'.served[..i] == s.served;
      }
    }
  }

  lemma PublishMemory(s: State, g: Group, s': State)
    requires MemoryOk(s) && (s.leader.Serving? || s.leader.Failing?)
    requires g.ops == s.leader.ops && g.base == s.leader.base && g.ok == s.leader.Serving?
    requires s.leader.Serving? ==> s.leader.inserted == |s.leader.ops|
    requires s' == s.(queue := s'.queue, leader := Nobody, lastSequence := s.lastSequence + |g.ops|, results := s'.results, served := s.served + [g])
    ensures MemoryOk(s')
  {
    ServedIdsNext(s.served, g);
    hide ServedAdds, Assigned, ServedIds, ServedLog;
    assert g.ok ==> s.leader.ops[..|s.leader.ops|] == s.leader.ops;
    assert Pending(s') == [];
  }

  lemma PublishLogs(s: State, g: Group, s': State)
    requires LogOk(s) && FilesOk(s) && QueueKnown(s') && Served(s, g) && g.logged == Recorded(s)
    requires s' == s.(queue := s'.queue, leader := Nobody, lastSequence := s'.lastSequence, results := s'.results, served := s.served + [g])
    requires s.leader.Serving? ==> s.leader.logged && s.leader.synced
    ensures LogOk(s') && FilesOk(s')
  {
    ServedIdsNext(s.served, g);
    hide ServedLog, AllRecords, ServedIds, ServedAdds, Assigned;
    forall i | 0 <= i < |s'.served| ensures Stored(s', s'.served[i]) {
      if i < |s.served| {
        assert Stored(s, s.served[i]);
      }
    }
  }

  lemma ServedIs(s: State, g: Group)
    requires Served(s, g)
    ensures g.ops == s.leader.ops && g.base == s.leader.base && g.ok == s.leader.Serving? && (s.leader.Serving? || s.leader.Failing?)
  {
  }

  lemma MemoryIs(s: State)
    requires MemoryOk(s)
    ensures s.lastSequence == Assigned(s.served)
  {
  }

  lemma PublishKeeps(s: State, s': State)
    requires Inv(s) && PublishNext(s, s')
    ensures Inv(s')
  {
    hide *;
    InvParts(s);
    var g := PublishShape(s, s');
    ServedIs(s, g);
    Parted(s.queue, s.leader.count);
    PublishQueue(s, g, s');
    NewGroup(s, g, s');
    MemoryIs(s);
    PublishGroups(s, g, s');
    PublishMemory(s, g, s');
    PublishLogs(s, g, s');
    NobodyOk(s');
    InvFrom(s');
  }

  lemma NobodyOk(s: State)
    requires QueueKnown(s) && s.leader.Nobody?
    ensures LeaderOk(s)
  {
  }

  lemma ReturnParts(s: State, id: Id, s': State)
    requires QueueOk(s) && QueueKnown(s) && LeaderOk(s) && ResultsOk(s) && MemoryOk(s) && LogOk(s) && FilesOk(s) && ReturnNext(s, id, s')
    ensures QueueOk(s') && QueueKnown(s') && LeaderOk(s') && ResultsOk(s') && MemoryOk(s') && LogOk(s') && FilesOk(s')
    ensures s' == s.(returned := s'.returned)
  {
    hide ServedIds, ServedAdds, ServedLog, GroupOps, AllRecords;
    SameRequests(s, s');
    hide RequestsOf;
    assert PendingLog(s') == PendingLog(s) && Pending(s') == Pending(s);
    forall i | 0 <= i < |s'.served| ensures Stored(s', s'.served[i]) {
      assert Stored(s, s.served[i]);
    }
  }

  lemma SameRequests(s: State, s': State)
    requires QueueKnown(s) && s'.requests == s.requests && s'.queue == s.queue
    ensures forall n: nat :: n <= |s.queue| ==> RequestsOf(s', s.queue[..n]) == RequestsOf(s, s.queue[..n])
  {
  }

  lemma ReturnKeeps(s: State, id: Id, s': State)
    requires Inv(s) && ReturnNext(s, id, s')
    ensures Inv(s')
  {
    hide *;
    InvParts(s);
    ReturnParts(s, id, s');
    SameGroups(s, s');
    InvFrom(s');
  }

  lemma NextKeepsInv(s: State, a: Step, s': State)
    requires Inv(s) && Next(s, a, s')
    ensures Inv(s')
  {
    hide Inv;
    match a
    case Enter(id, r) => EnterKeeps(s, id, r, s');
    case Lead => LeadKeeps(s, s');
    case Switch => SwitchKeeps(s, s');
    case Room(ok) => RoomKeeps(s, ok, s');
    case Log(ok) => LogKeeps(s, ok, s');
    case Sync(ok) => LogKeeps(s, ok, s');
    case Insert => InsertKeeps(s, s');
    case Publish => PublishKeeps(s, s');
    case Return(id) => ReturnKeeps(s, id, s');
  }

  // ---- Over every run ----

  ghost predicate Run(ss: seq<State>, steps: seq<Step>) {
    && |ss| == |steps| + 1 && ss[0] == Init()
    && forall i :: 0 <= i < |steps| ==> Next(ss[i], steps[i], ss[i + 1])
  }

  lemma {:induction false} RunKeeps(ss: seq<State>, steps: seq<Step>, n: nat)
    requires Run(ss, steps) && n < |ss|
    ensures Inv(ss[n])
  {
    hide Inv;
    hide Next;
    if n == 0 {
      InvInitially();
    } else {
      RunKeeps(ss, steps, n - 1);
      assert Next(ss[n - 1], steps[n - 1], ss[n]);
      NextKeepsInv(ss[n - 1], steps[n - 1], ss[n]);
    }
  }

  /** Writers leave the queue in the order in which they came, each once. */
  lemma FirstComeFirstServed(ss: seq<State>, steps: seq<Step>)
    requires Run(ss, steps)
    ensures var s := ss[|steps|];
            && s.entered == ServedIds(s.served) + s.queue
            && forall i, j :: 0 <= i < j < |s.entered| ==> s.entered[i] != s.entered[j]
  {
    RunKeeps(ss, steps, |steps|);
    InvParts(ss[|steps|]);
    hide Inv;
  }

  ghost predicate GoodBases(gs: seq<Group>) {
    forall i :: 0 <= i < |gs| ==> gs[i].base == Assigned(gs[..i])
  }

  lemma BasesGood(s: State)
    requires GoodGroups(s)
    ensures GoodBases(s.served)
  {
    forall i | 0 <= i < |s.served| ensures s.served[i].base == Assigned(s.served[..i]) {
      assert GoodGroup(s, s.served[i], Assigned(s.served[..i]));
    }
  }

  lemma BasesPrefix(gs: seq<Group>)
    requires GoodBases(gs) && gs != []
    ensures GoodBases(gs[..|gs| - 1]) && gs[|gs| - 1].base == Assigned(gs[..|gs| - 1])
  {
    var init := gs[..|gs| - 1];
    forall i | 0 <= i < |init| ensures init[i].base == Assigned(init[..i]) {
      assert init[..i] == gs[..i];
    }
  }

  /** Successful groups insert under ascending sequences, none beyond those handed out. */
  lemma {:induction false} AddsAscend(gs: seq<Group>)
    requires GoodBases(gs)
    ensures forall k :: 0 <= k < |ServedAdds(gs)| ==> 1 <= ServedAdds(gs)[k].sequence <= Assigned(gs)
    ensures forall j, k :: 0 <= j < k < |ServedAdds(gs)| ==> ServedAdds(gs)[j].sequence < ServedAdds(gs)[k].sequence
  {
    if gs != [] {
      BasesPrefix(gs);
      AddsAscend(gs[..|gs| - 1]);
    }
  }

  /** A reader at the published sequence sees all insertions of the groups served so far and none of the
      group being served. */
  lemma ReadersSeeWholeGroups(ss: seq<State>, steps: seq<Step>)
    requires Run(ss, steps)
    ensures var s := ss[|steps|];
            && |ServedAdds(s.served)| <= |s.mem| && s.mem[..|ServedAdds(s.served)|] == ServedAdds(s.served)
            && (forall k :: 0 <= k < |s.mem| ==> (s.mem[k].sequence <= s.lastSequence <==> k < |ServedAdds(s.served)|))
            && forall j, k :: 0 <= j < k < |s.mem| ==> s.mem[j].sequence < s.mem[k].sequence
  {
    var s := ss[|steps|];
    RunKeeps(ss, steps, |steps|);
    InvParts(s);
    BasesGood(s);
    AddsAscend(s.served);
    hide *;
    MemoryParts(s);
  }

  /** What is inserted is what the groups served inserted, and then part of what the group being served does. */
  lemma MemoryParts(s: State)
    requires MemoryOk(s) && QueueKnown(s) && LeaderOk(s)
    requires forall k :: 0 <= k < |ServedAdds(s.served)| ==> 1 <= ServedAdds(s.served)[k].sequence <= Assigned(s.served)
    requires forall j, k :: 0 <= j < k < |ServedAdds(s.served)| ==> ServedAdds(s.served)[j].sequence < ServedAdds(s.served)[k].sequence
    ensures |ServedAdds(s.served)| <= |s.mem| && s.mem[..|ServedAdds(s.served)|] == ServedAdds(s.served)
    ensures forall k :: 0 <= k < |s.mem| ==> (s.mem[k].sequence <= s.lastSequence <==> k < |ServedAdds(s.served)|)
    ensures forall j, k :: 0 <= j < k < |s.mem| ==> s.mem[j].sequence < s.mem[k].sequence
  {
    hide ServedAdds, GroupOps, RequestsOf, Assigned;
    var served, pending := ServedAdds(s.served), Pending(s);
    forall k | 0 <= k < |s.mem| ensures s.mem[k] == if k < |served| then served[k] else pending[k - |served|] {
    }
    forall k | 0 <= k < |pending| ensures pending[k].sequence == s.lastSequence + 1 + k {
    }
  }

  lemma {:induction false} AddsPrefix(gs: seq<Group>, i: nat)
    requires i < |gs| && gs[i].ok
    ensures var before := |ServedAdds(gs[..i])|;
            before + |gs[i].ops| <= |ServedAdds(gs)| && ServedAdds(gs)[before..before + |gs[i].ops|] == AddsOf(gs[i].base, gs[i].ops)
  {
    var init := gs[..|gs| - 1];
    if i < |gs| - 1 {
      AddsPrefix(init, i);
      assert init[..i] == gs[..i];
      var before := |ServedAdds(gs[..i])|;
      assert ServedAdds(gs)[before..before + |gs[i].ops|] == ServedAdds(init)[before..before + |gs[i].ops|];
    }
  }

  lemma {:induction false} MemberOps(rs: seq<Request>, n: nat, j: nat)
    requires j < n <= |rs|
    ensures var before := |GroupOps(rs, j)|;
            before + |OpsOf(rs[j])| <= |GroupOps(rs, n)| && GroupOps(rs, n)[before..before + |OpsOf(rs[j])|] == OpsOf(rs[j])
  {
    hide OpsOf;
    if j < n - 1 {
      MemberOps(rs, n - 1, j);
      var before := |GroupOps(rs, j)|;
      assert GroupOps(rs, n)[before..before + |OpsOf(rs[j])|] == GroupOps(rs, n - 1)[before..before + |OpsOf(rs[j])|];
    }
  }

  /** The `j`th writer of the `i`th group, which was successful. */
  ghost predicate Member(s: State, i: nat, j: nat) {
    i < |s.served| && s.served[i].ok && j < |s.served[i].ids| && Known(s, s.served[i].ids)
  }

  ghost function OpsAt(s: State, i: nat, j: nat): seq<Op>
    requires Member(s, i, j)
  {
    OpsOf(s.requests[s.served[i].ids[j]])
  }

  /** Operations of the group before those of the writer. */
  ghost function OffsetIn(s: State, i: nat, j: nat): nat
    requires Member(s, i, j)
  {
    |GroupOps(RequestsOf(s, s.served[i].ids), j)|
  }

  /** Where the operations of a writer begin in the memtable. */
  ghost function Place(s: State, i: nat, j: nat): nat
    requires Member(s, i, j)
  {
    |ServedAdds(s.served[..i])| + OffsetIn(s, i, j)
  }

  /** The sequence before the first of the writer's. */
  ghost function BaseOf(s: State, i: nat, j: nat): nat
    requires Member(s, i, j)
  {
    s.served[i].base + OffsetIn(s, i, j)
  }

  /** The writer's operations are in the memtable, side by side and under consecutive sequences. */
  ghost predicate CommittedAt(s: State, i: nat, j: nat) {
    && Member(s, i, j)
    && Place(s, i, j) + |OpsAt(s, i, j)| <= |ServedAdds(s.served)| <= |s.mem|
    && s.mem[Place(s, i, j)..Place(s, i, j) + |OpsAt(s, i, j)|] == AddsOf(BaseOf(s, i, j), OpsAt(s, i, j))
  }

  lemma AddsSlice(base: nat, ops: seq<Op>, off: nat, part: seq<Op>)
    requires off + |part| <= |ops| && ops[off..off + |part|] == part
    ensures AddsOf(base, ops)[off..off + |part|] == AddsOf(base + off, part)
  {
    forall i | 0 <= i < |part| ensures part[i] == ops[off + i] {
      assert ops[off..off + |part|][i] == ops[off + i];
    }
  }

  lemma GroupInMemory(s: State, i: nat)
    requires MemoryOk(s) && i < |s.served| && s.served[i].ok
    ensures var before, g := |ServedAdds(s.served[..i])|, s.served[i];
            && before + |g.ops| <= |ServedAdds(s.served)| <= |s.mem| && s.mem[before..before + |g.ops|] == AddsOf(g.base, g.ops)
  {
    AddsPrefix(s.served, i);
    hide ServedAdds, Assigned;
    var before, g := |ServedAdds(s.served[..i])|, s.served[i];
    assert s.mem[..|ServedAdds(s.served)|] == ServedAdds(s.served);
    SubSlice(s.mem, 0, |ServedAdds(s.served)|, before, |g.ops|);
  }

  /** A writer's share of its group's operations. */
  lemma MemberShare(s: State, i: nat, j: nat)
    requires GoodGroups(s) && i < |s.served| && s.served[i].ok && j < |s.served[i].ids|
    ensures Member(s, i, j)
    ensures var off, ops, g := OffsetIn(s, i, j), OpsAt(s, i, j), s.served[i];
            && off + |ops| <= |g.ops| && g.ops[off..off + |ops|] == ops
            && (s.requests[g.ids[j]].batch.Some? ==> g.logged) && (s.requests[g.ids[j]].sync ==> g.synced)
            && (s.requests[g.ids[0]].batch.None? ==> j == 0 && g.switched)
  {
    hide Assigned, GroupOps, GoodGroups, ServedAdds, OpsOf;
    var g := s.served[i];
    GroupFacts(s, i);
    if s.requests[g.ids[0]].batch.Some? {
      MemberOps(RequestsOf(s, g.ids), |g.ids|, j);
    } else {
      NoOps(RequestsOf(s, g.ids), s.requests[g.ids[0]]);
    }
  }

  lemma GroupFacts(s: State, i: nat)
    requires GoodGroups(s) && i < |s.served| && s.served[i].ok
    ensures var g := s.served[i];
            && g.ids != [] && Known(s, g.ids)
            && (forall j :: 0 <= j < |g.ids| && s.requests[g.ids[j]].sync ==> s.requests[g.ids[0]].sync)
            && g.synced == s.requests[g.ids[0]].sync
            && if s.requests[g.ids[0]].batch.Some? then g.ops == GroupOps(RequestsOf(s, g.ids), |g.ids|) && g.logged
               else |g.ids| == 1 && g.ops == [] && g.switched
  {
    hide Assigned, GroupOps;
    assert GoodGroup(s, s.served[i], Assigned(s.served[..i]));
  }

  lemma NoOps(rs: seq<Request>, r: Request)
    ensures GroupOps(rs, 0) == [] && (r.batch.None? ==> OpsOf(r) == [])
  {
  }

  lemma MemberCommitted(s: State, i: nat, j: nat)
    requires GoodGroups(s) && MemoryOk(s) && i < |s.served| && s.served[i].ok && j < |s.served[i].ids|
    ensures CommittedAt(s, i, j)
  {
    hide GoodGroups, MemoryOk, ServedAdds, OffsetIn, OpsAt;
    MemberShare(s, i, j);
    GroupInMemory(s, i);
    var g, before, off, ops := s.served[i], |ServedAdds(s.served[..i])|, OffsetIn(s, i, j), OpsAt(s, i, j);
    SubSlice(s.mem, before, |g.ops|, off, |ops|);
    AddsSlice(g.base, g.ops, off, ops);
  }

  // Each in its own place

  lemma {:induction false} OpsGrow(rs: seq<Request>, j: nat, n: nat)
    requires j <= n <= |rs|
    ensures |GroupOps(rs, j)| <= |GroupOps(rs, n)|
    ensures j < n ==> |GroupOps(rs, j)| + |OpsOf(rs[j])| <= |GroupOps(rs, n)|
  {
    hide OpsOf;
    if j < n {
      OpsGrow(rs, j, n - 1);
    }
  }

  lemma {:induction false} AddsGrow(gs: seq<Group>, i: nat, n: nat)
    requires i <= n <= |gs|
    ensures |ServedAdds(gs[..i])| <= |ServedAdds(gs[..n])|
    ensures i < n && gs[i].ok ==> |ServedAdds(gs[..i])| + |gs[i].ops| <= |ServedAdds(gs[..n])|
  {
    if i < n {
      assert gs[..n][..n - 1] == gs[..n - 1];
      AddsGrow(gs, i, n - 1);
    }
  }

  /** Writers of one group or of two have their operations in places that do not overlap, in queue order. */
  lemma MembersApart(s: State, i: nat, j: nat, i': nat, j': nat)
    requires GoodGroups(s) && Member(s, i, j) && Member(s, i', j') && (i < i' || (i == i' && j < j'))
    ensures Place(s, i, j) + |OpsAt(s, i, j)| <= Place(s, i', j')
  {
    hide GoodGroups, ServedAdds, GroupOps, OpsOf;
    if i < i' {
      MemberShare(s, i, j);
      AddsGrow(s.served, i, i');
    } else {
      OpsGrow(RequestsOf(s, s.served[i].ids), j, j');
    }
  }

  lemma {:induction false} GroupOfAdd(gs: seq<Group>, n: nat, k: nat) returns (i: nat)
    requires n <= |gs| && k < |ServedAdds(gs[..n])|
    ensures i < n && gs[i].ok && |ServedAdds(gs[..i])| <= k < |ServedAdds(gs[..i])| + |gs[i].ops|
  {
    assert gs[..n][..n - 1] == gs[..n - 1];
    if k < |ServedAdds(gs[..n - 1])| {
      i := GroupOfAdd(gs, n - 1, k);
    } else {
      i := n - 1;
    }
  }

  lemma {:induction false} RequestOfOp(rs: seq<Request>, n: nat, k: nat) returns (j: nat)
    requires n <= |rs| && k < |GroupOps(rs, n)|
    ensures j < n && |GroupOps(rs, j)| <= k < |GroupOps(rs, j)| + |OpsOf(rs[j])|
  {
    hide OpsOf;
    if k < |GroupOps(rs, n - 1)| {
      j := RequestOfOp(rs, n - 1, k);
    } else {
      j := n - 1;
    }
  }

  /** Every published insertion is one of exactly one successful writer. */
  lemma {:induction false} EveryAddHasOneWriter(ss: seq<State>, steps: seq<Step>, k: nat) returns (i: nat, j: nat)
    requires Run(ss, steps) && k < |ServedAdds(ss[|steps|].served)|
    ensures var s := ss[|steps|];
            && Member(s, i, j) && Place(s, i, j) <= k < Place(s, i, j) + |OpsAt(s, i, j)|
            && forall i': nat, j': nat :: Member(s, i', j') && Place(s, i', j') <= k < Place(s, i', j') + |OpsAt(s, i', j')| ==> i' == i && j' == j
  {
    hide *;
    RunLength(ss, steps);
    var s := ss[|steps|];
    RunKeeps(ss, steps, |steps|);
    InvParts(s);
    assert s.served[..|s.served|] == s.served;
    i := GroupOfAdd(s.served, |s.served|, k);
    j := WriterOfAdd(s, i, k);
    forall i': nat, j': nat | Member(s, i', j') && Place(s, i', j') <= k < Place(s, i', j') + |OpsAt(s, i', j')| ensures i' == i && j' == j {
      if i' < i || (i' == i && j' < j) {
        MembersApart(s, i', j', i, j);
      } else if i < i' || (i == i' && j < j') {
        MembersApart(s, i, j, i', j');
      }
    }
  }

  lemma WriterOfAdd(s: State, i: nat, k: nat) returns (j: nat)
    requires GoodGroups(s) && i < |s.served| && s.served[i].ok
    requires |ServedAdds(s.served[..i])| <= k < |ServedAdds(s.served[..i])| + |s.served[i].ops|
    ensures Member(s, i, j) && Place(s, i, j) <= k < Place(s, i, j) + |OpsAt(s, i, j)|
  {
    var g := s.served[i];
    assert GoodGroup(s, g, Assigned(s.served[..i]));
    hide Assigned, ServedAdds, GroupOps;
    j := RequestOfOp(RequestsOf(s, g.ids), |g.ids|, k - |ServedAdds(s.served[..i])|);
  }

  lemma RunLength(ss: seq<State>, steps: seq<Step>)
    requires Run(ss, steps)
    ensures |ss| == |steps| + 1
  {
  }

  lemma {:induction false} LogGrows(gs: seq<Group>, i: nat, n: nat)
    requires i <= n <= |gs|
    ensures |ServedLog(gs[..i])| + (if i < n && gs[i].logged then 1 else 0) <= |ServedLog(gs[..n])|
    ensures i < n && gs[i].logged ==> ServedLog(gs[..n])[|ServedLog(gs[..i])|] == WriteBatch.Batch(gs[i].base + 1, gs[i].ops)
  {
    if i < n {
      assert gs[..n][..n - 1] == gs[..n - 1];
      LogGrows(gs, i, n - 1);
    }
  }

  lemma {:induction false} GroupOfRecord(gs: seq<Group>, n: nat, k: nat) returns (i: nat)
    requires n <= |gs| && k < |ServedLog(gs[..n])|
    ensures i < n && gs[i].logged && |ServedLog(gs[..i])| == k
  {
    assert gs[..n][..n - 1] == gs[..n - 1];
    if k < |ServedLog(gs[..n - 1])| {
      i := GroupOfRecord(gs, n - 1, k);
    } else {
      i := n - 1;
    }
  }

  /** The logs, one after another, hold one record for each logged group, in order, and then at most the one of
      the group being served. */
  lemma {:induction false} EveryRecordHasOneGroup(ss: seq<State>, steps: seq<Step>, k: nat) returns (i: nat)
    requires Run(ss, steps) && k < |ServedLog(ss[|steps|].served)|
    ensures var s := ss[|steps|];
            var all := AllRecords(s.closed) + s.log;
            && |ServedLog(s.served)| <= |all| <= |ServedLog(s.served)| + 1
            && i < |s.served| && s.served[i].logged && all[k] == WriteBatch.Batch(s.served[i].base + 1, s.served[i].ops)
            && forall i' :: 0 <= i' < |s.served| && s.served[i'].logged && |ServedLog(s.served[..i'])| == k ==> i' == i
  {
    RunLength(ss, steps);
    var s := ss[|steps|];
    RunKeeps(ss, steps, |steps|);
    InvParts(s);
    hide Inv, ServedLog, AllRecords, QueueOk, GoodGroups, ResultsOk, MemoryOk, FilesOk, LeaderOk, Run;
    assert s.served[..|s.served|] == s.served;
    i := GroupOfRecord(s.served, |s.served|, k);
    LogGrows(s.served, i, |s.served|);
    forall i' | 0 <= i' < |s.served| && s.served[i'].logged && |ServedLog(s.served[..i'])| == k ensures i' == i {
      if i' < i {
        LogGrows(s.served, i', i);
      } else if i < i' {
        LogGrows(s.served, i, i');
      }
    }
  }

  lemma {:induction false} IdsGrow(gs: seq<Group>, i: nat, j: nat, n: nat)
    requires i < n <= |gs| && j < |gs[i].ids|
    ensures |ServedIds(gs[..i])| + j < |ServedIds(gs[..n])| && ServedIds(gs[..n])[|ServedIds(gs[..i])| + j] == gs[i].ids[j]
    ensures |ServedIds(gs[..i])| + |gs[i].ids| <= |ServedIds(gs[..n])|
  {
    assert gs[..n][..n - 1] == gs[..n - 1];
    if i < n - 1 {
      IdsGrow(gs, i, j, n - 1);
    }
  }

  /** A writer is in one group only, and there once. */
  lemma ServedOnce(s: State, i: nat, j: nat, i': nat, j': nat)
    requires QueueOk(s) && i < |s.served| && j < |s.served[i].ids| && i' < |s.served| && j' < |s.served[i'].ids|
    requires s.served[i].ids[j] == s.served[i'].ids[j']
    ensures i == i' && j == j'
  {
    var gs := s.served;
    assert gs[..|gs|] == gs;
    IdsGrow(gs, i, j, |gs|);
    IdsGrow(gs, i', j', |gs|);
    if i < i' {
      IdsGrow(gs, i, j, i');
    } else if i' < i {
      IdsGrow(gs, i', j', i);
    }
    hide ServedIds;
    var a, b := |ServedIds(gs[..i])| + j, |ServedIds(gs[..i'])| + j';
    assert s.entered[a] == s.entered[b];
  }

  /** A writer told that its write succeeded is in one successful group, once. Its operations are in the
      memtable, in a place and under sequences of their own; the group's record, its operations in it, is in a
      log; and if it asked for a sync, a sync covered the record. */
  lemma {:induction false} SuccessMeansCommitted(ss: seq<State>, steps: seq<Step>, id: Id) returns (i: nat, j: nat)
    requires Run(ss, steps)
    requires var s := ss[|steps|]; id in s.results && s.results[id]
    ensures var s := ss[|steps|];
            && CommittedAt(s, i, j) && s.served[i].ids[j] == id && id in s.requests
            && (forall i', j' :: 0 <= i' < |s.served| && 0 <= j' < |s.served[i'].ids| && s.served[i'].ids[j'] == id ==> i' == i && j' == j)
            && (s.requests[id].batch.Some? ==> RecordedAt(s, i, j))
            && (s.requests[id].batch.Some? && s.requests[id].sync ==> s.served[i].place < Files(s)[s.served[i].file].durable)
  {
    hide *;
    RunLength(ss, steps);
    var s := ss[|steps|];
    RunKeeps(ss, steps, |steps|);
    InvParts(s);
    ResultsAre(s);
    i, j := ServedIn(s.served, id);
    OutcomeIs(s, i, j);
    MemberCommitted(s, i, j);
    MemberRecorded(s, i, j);
    MemberId(s, i, j);
    forall i', j' | 0 <= i' < |s.served| && 0 <= j' < |s.served[i'].ids| && s.served[i'].ids[j'] == id ensures i' == i && j' == j {
      ServedOnce(s, i, j, i', j');
    }
  }

  lemma OutcomeIs(s: State, i: nat, j: nat)
    requires ResultsOk(s) && i < |s.served| && j < |s.served[i].ids|
    ensures s.served[i].ids[j] in s.results && s.results[s.served[i].ids[j]] == s.served[i].ok
  {
  }

  lemma MemberId(s: State, i: nat, j: nat)
    requires CommittedAt(s, i, j)
    ensures i < |s.served| && j < |s.served[i].ids| && s.served[i].ids[j] in s.requests
  {
  }

  /** The record of the writer's group is where it was written, and the writer's operations are in it. */
  ghost predicate RecordedAt(s: State, i: nat, j: nat)
    requires Member(s, i, j)
  {
    var g := s.served[i];
    && g.file < |Files(s)| && g.place < |Files(s)[g.file].records|
    && Files(s)[g.file].records[g.place] == WriteBatch.Batch(g.base + 1, g.ops)
    && OffsetIn(s, i, j) + |OpsAt(s, i, j)| <= |g.ops|
    && g.ops[OffsetIn(s, i, j)..OffsetIn(s, i, j) + |OpsAt(s, i, j)|] == OpsAt(s, i, j)
  }

  lemma MemberRecorded(s: State, i: nat, j: nat)
    requires GoodGroups(s) && FilesOk(s) && i < |s.served| && s.served[i].ok && j < |s.served[i].ids|
    ensures Member(s, i, j)
    ensures s.requests[s.served[i].ids[j]].batch.Some? ==>
              && RecordedAt(s, i, j)
              && (s.requests[s.served[i].ids[j]].sync ==> s.served[i].place < Files(s)[s.served[i].file].durable)
  {
    hide GoodGroups, OffsetIn, OpsAt, RecordOf;
    MemberShare(s, i, j);
    assert Stored(s, s.served[i]);
  }

  // ---- Writers that only want a new memtable ----

  /** A successful writer without a batch that led its group had the memtable switched. */
  lemma {:induction false} LeaderGetsItsSwitch(ss: seq<State>, steps: seq<Step>, i: nat)
    requires Run(ss, steps) && i < |ss[|steps|].served| && ss[|steps|].served[i].ok
    ensures var s, g := ss[|steps|], ss[|steps|].served[i];
            && g.ids != [] && g.ids[0] in s.requests && (s.requests[g.ids[0]].batch.None? ==> g.switched && |g.ids| == 1)
  {
    RunLength(ss, steps);
    var s := ss[|steps|];
    RunKeeps(ss, steps, |steps|);
    InvParts(s);
    hide Inv;
    assert GoodGroup(s, s.served[i], Assigned(s.served[..i]));
  }

  /** A run in which a writer without a batch joins the group of another writer. */
  function Joined(): (seq<State>, seq<Step>) {
    var a, b := Request(Some([]), false), Request(None, false);
    var s1 := Init().(requests := map[0 := a], queue := [0], entered := [0]);
    var s2 := s1.(leader := MakingRoom(false));
    var s3 := s2.(requests := map[0 := a, 1 := b], queue := [0, 1], entered := [0, 1]);
    var s4 := s3.(leader := Serving(2, [], 0, false, true, 0));
    var s5 := s4.(leader := s4.leader.(logged := true), log := [WriteBatch.Batch(1, [])]);
    var s6 := s5.(queue := [], leader := Nobody, results := map[0 := true, 1 := true],
                  served := [Group([0, 1], [], 0, true, true, 0, 0, false, false)]);
    ([Init(), s1, s2, s3, s4, s5, s6], [Enter(0, a), Lead, Enter(1, b), Room(true), Log(true), Publish])
  }

  lemma JoinedGroup(s: State)
    requires s.queue == [0, 1] && s.requests == map[0 := Request(Some([]), false), 1 := Request(None, false)]
    ensures QueueKnown(s) && Queued(s) != [] && Queued(s)[0].batch.Some? && GroupLength(Queued(s)) == 2 && GroupOps(Queued(s), 2) == []
  {
    hide ByteSize;
    var rs := [Request(Some([]), false), Request(None, false)];
    assert Queued(s) == rs;
    assert GroupEnd(rs, 2, ByteSize([]), MaxGroupSize(ByteSize([]))) == 2;
    assert GroupOps(rs, 1) == [];
  }

  lemma JoinedServed(s: State, s': State)
    requires s.queue == [0, 1] && s.requests == map[0 := Request(Some([]), false), 1 := Request(None, false)]
    requires s.leader == Serving(2, [], 0, true, true, 0) && s.results == map[] && s.served == [] && s.log == [WriteBatch.Batch(1, [])]
    requires s' == s.(queue := [], leader := Nobody, lastSequence := 0, results := map[0 := true, 1 := true],
                      served := [Group([0, 1], [], 0, true, true, |s.closed|, 0, false, s.switched)])
    ensures PublishNext(s, s')
  {
    assert s.queue[..2] == [0, 1] && s.queue[2..] == [];
    NotedIs(map[], [0, 1], true);
    assert Noted(map[], [0, 1], true) == map[0 := true, 1 := true];
  }

  lemma JoinedRun()
    ensures var (ss, steps) := Joined(); Run(ss, steps)
  {
    hide GroupLength, GroupOps, Queued, Noted;
    var (ss, steps) := Joined();
    JoinedGroup(ss[3]);
    JoinedServed(ss[5], ss[6]);
    hide PublishNext;
    forall i | 0 <= i < 6 ensures Next(ss[i], steps[i], ss[i + 1]) {
      assert i == 0 || i == 1 || i == 2 || i == 3 || i == 4 || i == 5;
    }
  }

  /** It is told that its request succeeded, and the memtable was never switched. */
  lemma FollowerGetsNoSwitch()
    ensures var (ss, steps) := Joined(); Run(ss, steps) && 1 in ss[6].results && ss[6].results[1] && forall i :: 0 <= i < 7 ==> !ss[i].switched
  {
    hide Run;
    JoinedRun();
  }

  lemma {:induction false} ServedIn(gs: seq<Group>, id: Id) returns (i: nat, j: nat)
    requires id in ServedIds(gs)
    ensures i < |gs| && j < |gs[i].ids| && gs[i].ids[j] == id
  {
    var n := |gs| - 1;
    if id in gs[n].ids {
      i := n;
      j :| 0 <= j < |gs[n].ids| && gs[n].ids[j] == id;
    } else {
      i, j := ServedIn(gs[..n], id);
    }
  }

  /** After a failed sync no write succeeds any more. */
  lemma BrokenStays(s: State, a: Step, s': State)
    requires Inv(s) && Next(s, a, s') && s.broken
    ensures s'.broken && !s'.leader.Serving?
    ensures |s'.served| > |s.served| ==> !s'.served[|s'.served| - 1].ok
  {
  }
}
