/** The skip list under one writer and concurrent readers, one shared load or store at a time. */
module SkipList {
  import opened Sets

  const MAX_HEIGHT: nat := 12

  type Key = int

  datatype Link = Null | To(key: Key)

  /** A node: the head, or the node of a key. Keys are never inserted twice. */
  datatype Ref = Head | Node(key: Key)

  /** The shared memory: the height in use, the head's links and each node's links. */
  datatype Shared = Shared(maxHeight: nat, head: seq<Link>, nodes: map<Key, seq<Link>>)

  predicate HasLevel(m: Shared, x: Ref, l: nat) {
    match x
    case Head => l < |m.head|
    case Node(k) => k in m.nodes && l < |m.nodes[k]|
  }

  function Next(m: Shared, x: Ref, l: nat): Link
    requires HasLevel(m, x, l)
  {
    match x
    case Head => m.head[l]
    case Node(k) => m.nodes[k][l]
  }

  function SetNext(m: Shared, x: Ref, l: nat, to: Link): Shared
    requires HasLevel(m, x, l)
  {
    match x
    case Head => m.(head := m.head[l := to])
    case Node(k) => m.(nodes := m.nodes[k := m.nodes[k][l := to]])
  }

  // ---- Levels ----

  /** `x` comes before the key `k`. */
  predicate Precedes(x: Ref, k: Key) {
    x.Head? || x.key < k
  }

  /** `n` is the first key of a level after `x`. */
  ghost predicate IsNext(level: set<Key>, x: Ref, n: Link) {
    match n
    case Null => forall k :: k in level ==> !Precedes(x, k)
    case To(k) => k in level && Precedes(x, k) && forall j :: j in level && Precedes(x, j) ==> k <= j
  }

  ghost predicate OnLevel(level: set<Key>, x: Ref) {
    x.Head? || x.key in level
  }

  /** The links of each level run through its keys in ascending order, and each level is part of the one below. */
  ghost predicate Linked(m: Shared, levels: seq<set<Key>>) {
    && |levels| == MAX_HEIGHT && |m.head| == MAX_HEIGHT && 1 <= m.maxHeight <= MAX_HEIGHT
    && (forall l, x :: 0 <= l < MAX_HEIGHT && OnLevel(levels[l], x) ==> HasLevel(m, x, l) && IsNext(levels[l], x, Next(m, x, l)))
    && (forall l :: 0 < l < MAX_HEIGHT ==> levels[l] <= levels[l - 1])
    && (forall l :: m.maxHeight <= l < MAX_HEIGHT ==> levels[l] == {})
  }

  /** `x` is the last node of a level before `k`. */
  ghost predicate IsPrev(level: set<Key>, x: Ref, k: Key) {
    OnLevel(level, x) && Precedes(x, k) && forall j :: j in level && j < k ==> !Precedes(x, j)
  }

  // ---- Searching ----

  /** What a search is for: the first key at or after one, the last before one, or the last of all. */
  datatype Goal = AtOrAfter(key: Key) | Before(key: Key) | Last

  /** Whether the search passes the key `k`. */
  predicate Passes(g: Goal, k: Key) {
    g.Last? || k < g.key
  }

  /** A search in progress stands on a node it may stand on. */
  ghost predicate StandsWell(levels: seq<set<Key>>, g: Goal, x: Ref, l: nat) {
    l < |levels| && OnLevel(levels[l], x) && (x.Node? ==> Passes(g, x.key))
  }

  /** One load of a search: on along the level, down one level, or the end. */
  datatype Search = Search(goal: Goal, x: Ref, level: nat) | Found(goal: Goal, x: Ref, next: Link)

  function SearchStep(m: Shared, r: Search): Search
    requires r.Search? && HasLevel(m, r.x, r.level)
  {
    var next := Next(m, r.x, r.level);
    if next.To? && Passes(r.goal, next.key) then Search(r.goal, Node(next.key), r.level)
    else if r.level == 0 then Found(r.goal, r.x, next)
    else Search(r.goal, r.x, r.level - 1)
  }

  /** At the end of a search: the last node passed and the first one not passed, on the bottom level. */
  ghost predicate Exact(level: set<Key>, r: Search) {
    && r.Found? && OnLevel(level, r.x) && (r.x.Node? ==> Passes(r.goal, r.x.key)) && IsNext(level, r.x, r.next)
    && (r.next.To? ==> !Passes(r.goal, r.next.key))
  }

  lemma SearchStepKeeps(m: Shared, levels: seq<set<Key>>, r: Search)
    requires Linked(m, levels) && r.Search? && StandsWell(levels, r.goal, r.x, r.level)
    ensures HasLevel(m, r.x, r.level)
    ensures var r' := SearchStep(m, r);
            if r'.Search? then StandsWell(levels, r'.goal, r'.x, r'.level) else Exact(levels[0], r')
  {
  }

  /** The keys a search may still pass on its level. */
  function Ahead(all: set<Key>, r: Search): set<Key>
    requires r.Search?
  {
    set k | k in all && Passes(r.goal, k) && Precedes(r.x, k)
  }

  /** Every load brings a search nearer its end: it leaves a key behind or goes down a level. */
  lemma SearchStepAdvances(m: Shared, levels: seq<set<Key>>, all: set<Key>, r: Search)
    requires Linked(m, levels) && r.Search? && StandsWell(levels, r.goal, r.x, r.level)
    requires forall l, k :: 0 <= l < MAX_HEIGHT && k in levels[l] ==> k in all
    ensures HasLevel(m, r.x, r.level)
    ensures var r' := SearchStep(m, r);
            r'.Search? ==> r'.level < r.level || (r'.level == r.level && |Ahead(all, r')| < |Ahead(all, r)|)
  {
    SearchStepKeeps(m, levels, r);
    var r' := SearchStep(m, r);
    if r'.Search? && r'.level == r.level {
      var k := r'.x.key;
      assert k in Ahead(all, r) && k !in Ahead(all, r');
      SmallerSet(Ahead(all, r'), Ahead(all, r), k);
    }
  }

  // ---- Writing ----

  /** The writer: idle, looking for the places of a new key, or linking it in from the bottom level up.
      `half` says that the node's own link of level `i` is stored and the predecessor's is not. */
  datatype Writer =
    | Idle
    | Placing(search: Search, prev: seq<Ref>)
    | Linking(key: Key, height: nat, prev: seq<Ref>, i: nat, half: bool)

  /** Shared memory, the writer, and the keys each level links (which the memory determines). */
  datatype State = State(m: Shared, writer: Writer, levels: seq<set<Key>>)

  function EmptyList(): State {
    State(Shared(1, seq(MAX_HEIGHT, _ => Null), map[]), Idle, seq(MAX_HEIGHT, _ => {}))
  }

  /** Every node is linked at the bottom level, except the one being inserted. */
  ghost predicate NodesListed(s: State) {
    |s.levels| > 0 && forall k :: k in s.m.nodes ==> k in s.levels[0] || (s.writer.Linking? && k == s.writer.key)
  }

  ghost predicate PlacedAbove(m: Shared, levels: seq<set<Key>>, prev: seq<Ref>, from: int, key: Key)
    requires |levels| == |prev| == MAX_HEIGHT
  {
    forall l :: from <= l < MAX_HEIGHT && 0 <= l < m.maxHeight ==> IsPrev(levels[l], prev[l], key)
  }

  /** The key is linked below level `i` and nowhere above. */
  ghost predicate LinkedBelow(levels: seq<set<Key>>, i: nat, key: Key) {
    forall l :: 0 <= l < |levels| ==> (key in levels[l] <==> l < i)
  }

  ghost predicate PrevsKnown(levels: seq<set<Key>>, prev: seq<Ref>, i: nat, height: nat, key: Key)
    requires height <= |prev| == |levels|
  {
    forall l :: i <= l < height ==> IsPrev(levels[l], prev[l], key)
  }

  ghost predicate WriterOk(s: State)
    requires Linked(s.m, s.levels)
  {
    match s.writer
    case Idle => true
    case Placing(r, prev) =>
      && r.Search? && r.goal.AtOrAfter? && r.goal.key !in s.levels[0] && |prev| == MAX_HEIGHT
      && StandsWell(s.levels, r.goal, r.x, r.level)
      && PlacedAbove(s.m, s.levels, prev, r.level + 1, r.goal.key)
    case Linking(key, height, prev, i, half) =>
      && i < height <= s.m.maxHeight && |prev| == MAX_HEIGHT
      && key in s.m.nodes && |s.m.nodes[key]| == height
      && LinkedBelow(s.levels, i, key)
      && PrevsKnown(s.levels, prev, i, height, key)
      && (half ==> HasLevel(s.m, prev[i], i) && s.m.nodes[key][i] == Next(s.m, prev[i], i))
  }

  ghost predicate Inv(s: State) {
    Linked(s.m, s.levels) && WriterOk(s) && NodesListed(s)
  }

  /** The writer begins to insert a key that is not in the list. */
  ghost predicate BeginNext(s: State, key: Key, s': State) {
    && s.writer.Idle? && |s.levels| > 0 && key !in s.levels[0] && 0 < s.m.maxHeight
    && s' == s.(writer := Placing(Search(AtOrAfter(key), Head, s.m.maxHeight - 1), seq(MAX_HEIGHT, _ => Head)))
  }

  /** One load of the writer's own search; leaving a level notes the predecessor there. At the end the
      writer picks a height, starts the new levels at the head, and raises the list's height. */
  ghost predicate PlaceNext(s: State, height: nat, s': State) {
    && s.writer.Placing? && s.writer.search.Search? && HasLevel(s.m, s.writer.search.x, s.writer.search.level)
    && |s.writer.prev| == MAX_HEIGHT && s.writer.search.level < MAX_HEIGHT
    && var r := s.writer.search;
       var r' := SearchStep(s.m, r);
       var prev := if r'.Search? && r'.level == r.level then s.writer.prev else s.writer.prev[r.level := r.x];
       if r'.Search? then s' == s.(writer := Placing(r', prev))
       else
         && 1 <= height <= MAX_HEIGHT && r.goal.AtOrAfter?
         && var start := seq(MAX_HEIGHT, l requires 0 <= l < MAX_HEIGHT => if s.m.maxHeight <= l < height then Head else prev[l]);
            var m := s.m.(maxHeight := if height > s.m.maxHeight then height else s.m.maxHeight,
                          nodes := s.m.nodes[r.goal.key := seq(height, _ => Null)]);
            s' == s.(m := m, writer := Linking(r.goal.key, height, start, 0, false))
  }

  /** The new node's own link at the next level. */
  ghost predicate OwnLinkNext(s: State, s': State) {
    && s.writer.Linking? && !s.writer.half && s.writer.i < |s.writer.prev|
    && HasLevel(s.m, s.writer.prev[s.writer.i], s.writer.i) && HasLevel(s.m, Node(s.writer.key), s.writer.i)
    && s' == s.(m := SetNext(s.m, Node(s.writer.key), s.writer.i, Next(s.m, s.writer.prev[s.writer.i], s.writer.i)),
                writer := s.writer.(half := true))
  }

  /** The predecessor's link: the key joins the level. */
  ghost predicate LinkNext(s: State, s': State) {
    && s.writer.Linking? && s.writer.half && s.writer.i < |s.writer.prev| && s.writer.i < |s.levels|
    && HasLevel(s.m, s.writer.prev[s.writer.i], s.writer.i)
    && s' == State(SetNext(s.m, s.writer.prev[s.writer.i], s.writer.i, To(s.writer.key)),
                   if s.writer.i + 1 == s.writer.height then Idle else s.writer.(i := s.writer.i + 1, half := false),
                   s.levels[s.writer.i := s.levels[s.writer.i] + {s.writer.key}])
  }

  datatype Step = Begin(key: Key) | Place(height: nat) | OwnLink | Link

  ghost predicate WriterNext(s: State, a: Step, s': State) {
    match a
    case Begin(key) => BeginNext(s, key, s')
    case Place(height) => PlaceNext(s, height, s')
    case OwnLink => OwnLinkNext(s, s')
    case Link => LinkNext(s, s')
  }

  lemma NotOnLevels(m: Shared, levels: seq<set<Key>>, key: Key, l: nat)
    requires Linked(m, levels) && key !in levels[0] && l < MAX_HEIGHT
    ensures key !in levels[l]
  {
    if l > 0 {
      NotOnLevels(m, levels, key, l - 1);
    }
  }

  /** Where a search for a missing key leaves a level it stands on the key's predecessor. */
  lemma LeavesAtPrev(m: Shared, levels: seq<set<Key>>, r: Search)
    requires Linked(m, levels) && r.Search? && r.goal.AtOrAfter? && StandsWell(levels, r.goal, r.x, r.level)
    requires r.goal.key !in levels[0] && HasLevel(m, r.x, r.level)
    requires var r' := SearchStep(m, r); r'.Found? || r'.level != r.level
    ensures IsPrev(levels[r.level], r.x, r.goal.key)
  {
    NotOnLevels(m, levels, r.goal.key, r.level);
  }

  lemma PlaceKeeps(s: State, height: nat, s': State)
    requires Inv(s) && PlaceNext(s, height, s')
    ensures Inv(s') && s'.levels == s.levels
  {
    var r := s.writer.search;
    var r' := SearchStep(s.m, r);
    SearchStepKeeps(s.m, s.levels, r);
    if r'.Found? || r'.level != r.level {
      LeavesAtPrev(s.m, s.levels, r);
    }
    hide IsPrev;
    if r'.Found? {
      NewNodeKeeps(s, height, s');
    }
  }

  lemma NewNodeKeeps(s: State, height: nat, s': State)
    requires Inv(s) && PlaceNext(s, height, s') && SearchStep(s.m, s.writer.search).Found?
    requires IsPrev(s.levels[s.writer.search.level], s.writer.search.x, s.writer.search.goal.key)
    ensures Inv(s')
  {
    var key := s.writer.search.goal.key;
    forall l | 0 <= l < MAX_HEIGHT ensures key !in s.levels[l] {
      NotOnLevels(s.m, s.levels, key, l);
    }
    assert key !in s.m.nodes;
    MemoryGrows(s.m, s'.m, s.levels, key);
    hide Linked;
    forall l | 0 <= l < height ensures IsPrev(s.levels[l], s'.writer.prev[l], key) {
      LevelsAbove(s.m, s.levels, l);
    }
  }

  lemma LevelsAbove(m: Shared, levels: seq<set<Key>>, l: nat)
    requires Linked(m, levels) && l < MAX_HEIGHT
    ensures m.maxHeight <= l ==> levels[l] == {}
  {
  }

  /** A node nothing points to, and a larger height, change no level. */
  lemma MemoryGrows(m: Shared, m': Shared, levels: seq<set<Key>>, key: Key)
    requires Linked(m, levels) && key !in m.nodes && key in m'.nodes && m.maxHeight <= m'.maxHeight <= MAX_HEIGHT
    requires m'.head == m.head && m'.nodes == m.nodes[key := m'.nodes[key]]
    ensures Linked(m', levels)
  {
  }

  lemma OwnLinkKeeps(s: State, s': State)
    requires Inv(s) && OwnLinkNext(s, s')
    ensures Inv(s') && s'.levels == s.levels
  {
  }

  /** Linking the new node behind its predecessor makes its key part of the level. */
  lemma KeyJoins(m: Shared, levels: seq<set<Key>>, x: Ref, i: nat, key: Key, m': Shared)
    requires Linked(m, levels) && i < MAX_HEIGHT && i < m.maxHeight && IsPrev(levels[i], x, key) && key !in levels[i]
    requires HasLevel(m, Node(key), i) && HasLevel(m, x, i) && Next(m, Node(key), i) == Next(m, x, i)
    requires i > 0 ==> key in levels[i - 1]
    requires m' == SetNext(m, x, i, To(key))
    ensures Linked(m', levels[i := levels[i] + {key}])
  {
    var levels' := levels[i := levels[i] + {key}];
    forall l, y | 0 <= l < MAX_HEIGHT && OnLevel(levels'[l], y)
      ensures HasLevel(m', y, l) && IsNext(levels'[l], y, Next(m', y, l))
    {
      if l != i {
        assert OnLevel(levels[l], y);
      } else if y != Node(key) {
        assert OnLevel(levels[l], y) && HasLevel(m, y, l);
        JoinNext(levels[l], x, key, y, Next(m, y, l));
      }
    }
  }

  /** The next key of another node is still the next one, unless the node is the predecessor. */
  lemma JoinNext(level: set<Key>, x: Ref, key: Key, y: Ref, n: Link)
    requires IsPrev(level, x, key) && key !in level && OnLevel(level, y) && IsNext(level, y, n)
    ensures x == y ==> IsNext(level + {key}, y, To(key))
    ensures x != y ==> IsNext(level + {key}, y, n)
  {
  }

  lemma LinkKeeps(s: State, s': State)
    requires Inv(s) && LinkNext(s, s')
    ensures Inv(s')
  {
    var w := s.writer;
    KeyJoins(s.m, s.levels, w.prev[w.i], w.i, w.key, s'.m);
    hide Linked;
    hide IsPrev;
  }

  /** Every single store of an insertion keeps the levels linked, sorted and nested, and takes no key away. */
  lemma WriterKeepsInv(s: State, a: Step, s': State)
    requires Inv(s) && WriterNext(s, a, s')
    ensures Inv(s') && forall l :: 0 <= l < MAX_HEIGHT ==> s.levels[l] <= s'.levels[l]
  {
    match a
    case Begin(_) =>
    case Place(height) => PlaceKeeps(s, height, s');
    case OwnLink => OwnLinkKeeps(s, s');
    case Link => LinkKeeps(s, s');
  }

  // ---- A search among the steps of a writer ----

  /** A search in progress, and the keys that were in the list when it began. */
  datatype View = View(list: State, search: Search, began: set<Key>)

  datatype Move = Write(step: Step) | Load

  ghost predicate Starts(v: View, goal: Goal) {
    Inv(v.list) && v.search == Search(goal, Head, v.list.m.maxHeight - 1) && v.began == v.list.levels[0]
  }

  ghost predicate ViewNext(v: View, a: Move, v': View) {
    && v'.began == v.began
    && match a
       case Write(step) => WriterNext(v.list, step, v'.list) && v'.search == v.search
       case Load =>
         && v.search.Search? && HasLevel(v.list.m, v.search.x, v.search.level)
         && v'.list == v.list && v'.search == SearchStep(v.list.m, v.search)
  }

  /** What a finished search says about the keys that were there when it began. */
  ghost predicate Honest(level: set<Key>, began: set<Key>, r: Search) {
    && r.Found?
    && OnLevel(level, r.x) && (r.x.Node? ==> Passes(r.goal, r.x.key))
    && (r.next.To? ==> r.next.key in level && !Passes(r.goal, r.next.key))
    && (forall k :: k in began && Passes(r.goal, k) ==> !Precedes(r.x, k))
    && (forall k :: k in began && !Passes(r.goal, k) ==> r.next.To? && r.next.key <= k)
  }

  ghost predicate ViewInv(v: View) {
    && Inv(v.list) && v.began <= v.list.levels[0]
    && if v.search.Search? then StandsWell(v.list.levels, v.search.goal, v.search.x, v.search.level)
       else Honest(v.list.levels[0], v.began, v.search)
  }

  lemma ExactIsHonest(level: set<Key>, began: set<Key>, r: Search)
    requires Exact(level, r) && began <= level
    ensures Honest(level, began, r)
  {
  }

  lemma ViewKeeps(v: View, a: Move, v': View)
    requires ViewInv(v) && ViewNext(v, a, v')
    ensures ViewInv(v') && v'.search.goal == v.search.goal
  {
    match a {
      case Write(step) =>
        WriterKeepsInv(v.list, step, v'.list);
        hide Inv;
        hide WriterNext;
        SameLevels(v.list, v'.list);
      case Load =>
        SearchStepKeeps(v.list.m, v.list.levels, v.search);
        if v'.search.Found? {
          ExactIsHonest(v.list.levels[0], v.began, v'.search);
        }
    }
  }

  lemma SameLevels(s: State, s': State)
    requires Inv(s) && Inv(s')
    ensures |s.levels| == |s'.levels| == MAX_HEIGHT
  {
  }

  ghost predicate Run(vs: seq<View>, moves: seq<Move>, goal: Goal) {
    && |vs| == |moves| + 1 && Starts(vs[0], goal)
    && forall i :: 0 <= i < |moves| ==> ViewNext(vs[i], moves[i], vs[i + 1])
  }

  lemma {:induction false} RunKeeps(vs: seq<View>, moves: seq<Move>, goal: Goal, n: nat)
    requires Run(vs, moves, goal) && n < |vs|
    ensures ViewInv(vs[n]) && vs[n].search.goal == goal && vs[n].began == vs[0].began
  {
    hide ViewInv;
    hide ViewNext;
    if n == 0 {
      StartsWell(vs[0], goal);
    } else {
      RunKeeps(vs, moves, goal, n - 1);
      assert ViewNext(vs[n - 1], moves[n - 1], vs[n]);
      ViewKeeps(vs[n - 1], moves[n - 1], vs[n]);
      BeganStays(vs[n - 1], moves[n - 1], vs[n]);
    }
  }

  lemma StartsWell(v: View, goal: Goal)
    requires Starts(v, goal)
    ensures ViewInv(v) && v.search.goal == goal
  {
  }

  lemma BeganStays(v: View, a: Move, v': View)
    requires ViewNext(v, a, v')
    ensures v'.began == v.began
  {
  }

  /** The keys in the list: those of the bottom level. */
  ghost function Keys(s: State): set<Key> {
    if |s.levels| > 0 then s.levels[0] else {}
  }

  /** A search for a key finds it if its insertion had finished when the search began, whatever the
      writer does in between, and finds only keys that are there. */
  lemma SearchFindsKey(vs: seq<View>, moves: seq<Move>, key: Key)
    requires Run(vs, moves, AtOrAfter(key)) && vs[|moves|].search.Found?
    ensures var found := vs[|moves|].search.next;
            && (key in Keys(vs[0].list) ==> found == To(key))
            && (forall k :: k in Keys(vs[0].list) && key <= k ==> found.To? && key <= found.key <= k)
            && (found.To? ==> key <= found.key && found.key in Keys(vs[|moves|].list))
  {
    RunKeeps(vs, moves, AtOrAfter(key), |moves|);
  }

  /** Looking for the last key before one, or the last of all, passes every such key there was. */
  lemma SearchFindsLast(vs: seq<View>, moves: seq<Move>, goal: Goal)
    requires Run(vs, moves, goal) && vs[|moves|].search.Found?
    ensures var x := vs[|moves|].search.x;
            && (forall k :: k in Keys(vs[0].list) && Passes(goal, k) ==> x.Node? && k <= x.key)
            && (x.Node? ==> x.key in Keys(vs[|moves|].list) && Passes(goal, x.key))
  {
    RunKeeps(vs, moves, goal, |moves|);
  }

  // ---- Every search ends ----

  function Rank(all: set<Key>, r: Search): nat {
    if r.Found? then 0 else r.level * (|all| + 1) + |Ahead(all, r)| + 1
  }

  function Loads(moves: seq<Move>): nat {
    if moves == [] then 0 else Loads(moves[..|moves| - 1]) + if moves[|moves| - 1].Load? then 1 else 0
  }

  ghost predicate Holds(all: set<Key>, s: State) {
    forall l, k :: 0 <= l < |s.levels| && k in s.levels[l] ==> k in all
  }

  lemma RankDrops(all: set<Key>, v: View, v': View)
    requires ViewInv(v) && ViewNext(v, Load, v') && Holds(all, v.list)
    ensures Rank(all, v'.search) < Rank(all, v.search)
  {
    SearchStepAdvances(v.list.m, v.list.levels, all, v.search);
    if v'.search.Search? && v'.search.level < v.search.level {
      SubsetSize(Ahead(all, v'.search), all);
      var n := |all| + 1;
      assert v.search.level * n >= (v'.search.level + 1) * n == v'.search.level * n + n;
    }
  }

  /** Among the steps of any insertions of keys out of `all`, a search makes at most twelve loads for each
      of them and twelve more. */
  lemma {:induction false} SearchEnds(vs: seq<View>, moves: seq<Move>, goal: Goal, all: set<Key>, n: nat)
    requires Run(vs, moves, goal) && n <= |moves|
    requires forall i :: 0 <= i < |vs| ==> Holds(all, vs[i].list)
    ensures Loads(moves[..n]) + Rank(all, vs[n].search) <= MAX_HEIGHT * (|all| + 1)
  {
    hide ViewInv;
    hide ViewNext;
    hide Rank;
    if n == 0 {
      assert moves[..0] == [];
      StartRank(all, vs[0], goal);
    } else {
      SearchEnds(vs, moves, goal, all, n - 1);
      assert moves[..n][..n - 1] == moves[..n - 1];
      assert ViewNext(vs[n - 1], moves[n - 1], vs[n]) && Holds(all, vs[n - 1].list);
      RunKeeps(vs, moves, goal, n - 1);
      if moves[n - 1].Load? {
        RankDrops(all, vs[n - 1], vs[n]);
      } else {
        SearchStays(vs[n - 1], moves[n - 1], vs[n]);
      }
    }
  }

  lemma SearchStays(v: View, a: Move, v': View)
    requires ViewNext(v, a, v') && a.Write?
    ensures v'.search == v.search
  {
  }

  lemma StartRank(all: set<Key>, v: View, goal: Goal)
    requires Starts(v, goal)
    ensures Rank(all, v.search) <= MAX_HEIGHT * (|all| + 1)
  {
    SubsetSize(Ahead(all, v.search), all);
    var n := |all| + 1;
    assert (v.search.level + 1) * n <= MAX_HEIGHT * n;
    assert (v.search.level + 1) * n == v.search.level * n + n;
  }

  // ---- The list as its writer uses it ----

  class List {
    var m: Shared
    ghost var levels: seq<set<Key>>

    ghost predicate Valid()
      reads this
    {
      Inv(State(m, Idle, levels))
    }

    ghost function Contents(): set<Key>
      reads this
    {
      Keys(State(m, Idle, levels))
    }

    constructor ()
      ensures Valid() && Contents() == {}
    {
      m, levels := EmptyList().m, EmptyList().levels;
    }

    /** Runs a search to its end, noting where it leaves each level. */
    method RunSearch(goal: Goal) returns (r: Search, prev: seq<Ref>)
      requires Valid()
      ensures r.goal == goal && Exact(levels[0], r) && |prev| == MAX_HEIGHT
      ensures goal.AtOrAfter? && goal.key !in Contents() ==> PlacedAbove(m, levels, prev, 0, goal.key)
    {
      hide Linked;
      hide SearchStep;
      InvFacts(State(m, Idle, levels));
      ghost var all := AllKeys(levels);
      prev := seq(MAX_HEIGHT, _ => Head);
      r := Search(goal, Head, m.maxHeight - 1);
      while r.Search?
        invariant |prev| == MAX_HEIGHT && r.goal == goal
        invariant if r.Search? then StandsWell(levels, goal, r.x, r.level) else Exact(levels[0], r)
        invariant goal.AtOrAfter? && goal.key !in levels[0] ==>
                    PlacedAbove(m, levels, prev, if r.Search? then r.level + 1 else 0, goal.key)
        decreases if r.Search? then r.level + 1 else 0, if r.Search? then |Ahead(all, r)| else 0
      {
        SearchStepKeeps(m, levels, r);
        SearchStepAdvances(m, levels, all, r);
        var r' := SearchStep(m, r);
        StepDown(m, r);
        if r'.Found? || r'.level != r.level {
          if goal.AtOrAfter? && goal.key !in levels[0] {
            LeavesAtPrev(m, levels, r);
          }
          prev := prev[r.level := r.x];
        }
        r := r';
      }
    }

    lemma StepDown(m: Shared, r: Search)
      requires r.Search? && HasLevel(m, r.x, r.level)
      ensures var r' := SearchStep(m, r); r'.Search? && r'.level != r.level ==> r'.level == r.level - 1
      ensures SearchStep(m, r).Found? ==> r.level == 0
      ensures SearchStep(m, r).goal == r.goal
    {
    }

    method FindGreaterOrEqual(key: Key) returns (next: Link)
      requires Valid()
      ensures if next.Null? then forall k :: k in Contents() ==> k < key
              else next.key in Contents() && key <= next.key && forall k :: k in Contents() && key <= k ==> next.key <= k
    {
      var r, prev := RunSearch(AtOrAfter(key));
      next := r.next;
    }

    method FindLessThan(key: Key) returns (x: Ref)
      requires Valid()
      ensures x == Head ==> forall k :: k in Contents() ==> k >= key
      ensures x.Node? ==> x.key in Contents() && x.key < key && forall k :: k in Contents() && k < key ==> k <= x.key
    {
      var r, prev := RunSearch(Before(key));
      x := r.x;
    }

    method FindLast() returns (x: Ref)
      requires Valid()
      ensures x == Head ==> Contents() == {}
      ensures x.Node? ==> x.key in Contents() && forall k :: k in Contents() ==> k <= x.key
    {
      var r, prev := RunSearch(Last);
      x := r.x;
      if x.Head? {
        NothingAfter(levels[0]);
      }
    }

    /** The first key after a node. */
    method Following(x: Ref) returns (next: Link)
      requires Valid() && OnLevel(Contents(), x)
      ensures IsNext(Contents(), x, next)
    {
      InvFacts(State(m, Idle, levels));
      next := Next(m, x, 0);
    }

    method Contains(key: Key) returns (found: bool)
      requires Valid()
      ensures found <==> key in Contents()
    {
      var next := FindGreaterOrEqual(key);
      found := next == To(key);
    }

    /** Inserts a key that is not in the list, as a node of a random height. */
    method Insert(key: Key, height: nat)
      requires Valid() && key !in Contents() && 1 <= height <= MAX_HEIGHT
      modifies this
      ensures Valid() && Contents() == old(Contents()) + {key}
    {
      hide Linked, PlacedAbove, IsPrev, NodesListed;
      InvFacts(State(m, Idle, levels));
      var r, prev := RunSearch(AtOrAfter(key));
      ghost var m0, prev0 := m, prev;
      var h := m.maxHeight;
      if height > h {
        prev := seq(MAX_HEIGHT, l requires 0 <= l < MAX_HEIGHT => if h <= l < height then Head else prev[l]);
        m := m.(maxHeight := height);
      }
      m := m.(nodes := m.nodes[key := seq(height, _ => Null)]);
      LinkingStarts(m0, m, levels, prev0, prev, height, key);
      ghost var s := State(m, Linking(key, height, prev, 0, false), levels);
      for i := 0 to height
        invariant |levels| == MAX_HEIGHT && |prev| == MAX_HEIGHT
        invariant Inv(State(m, if i == height then Idle else Linking(key, height, prev, i, false), levels))
        invariant levels[0] == old(levels[0]) + if i == 0 then {} else {key}
      {
        s := State(m, Linking(key, height, prev, i, false), levels);
        PrevHasLevel(s);
        m := SetNext(m, Node(key), i, Next(m, prev[i], i));
        OwnLinkKeeps(s, State(m, s.writer.(half := true), levels));
        s := State(m, s.writer.(half := true), levels);
        m := SetNext(m, prev[i], i, To(key));
        levels := levels[i := levels[i] + {key}];
        LinkKeeps(s, State(m, if i + 1 == height then Idle else Linking(key, height, prev, i + 1, false), levels));
      }
    }
  }

  /** An iterator standing on a node of a list, or on none. Keys inserted meanwhile do not disturb it. */
  class ListIterator {
    const list: List
    var node: Link

    ghost predicate Ok()
      reads this, list
    {
      list.Valid() && (node.To? ==> node.key in list.Contents())
    }

    constructor (list: List)
      requires list.Valid()
      ensures Ok() && node.Null? && this.list == list
    {
      this.list, node := list, Null;
    }

    method Next()
      requires Ok() && node.To?
      modifies this
      ensures Ok() && IsNext(list.Contents(), Node(old(node.key)), node)
    {
      node := list.Following(Node(node.key));
    }

    /** To the last key before, found by a search. */
    method Prev()
      requires Ok() && node.To?
      modifies this
      ensures Ok() && IsBefore(list.Contents(), old(node.key), node)
    {
      var x := list.FindLessThan(node.key);
      node := if x.Head? then Null else To(x.key);
    }

    method Seek(target: Key)
      requires Ok()
      modifies this
      ensures Ok() && IsFirstFrom(list.Contents(), target, node)
    {
      node := list.FindGreaterOrEqual(target);
    }

    method SeekToFirst()
      requires Ok()
      modifies this
      ensures Ok() && IsNext(list.Contents(), Head, node)
    {
      node := list.Following(Head);
    }

    method SeekToLast()
      requires Ok()
      modifies this
      ensures Ok() && if node.Null? then list.Contents() == {} else forall k :: k in list.Contents() ==> k <= node.key
    {
      var x := list.FindLast();
      node := if x.Head? then Null else To(x.key);
    }
  }

  lemma NothingAfter(keys: set<Key>)
    requires IsNext(keys, Head, Null)
    ensures keys == {}
  {
    forall k ensures k !in keys {
      assert Precedes(Head, k);
    }
    assert keys == {};
  }

  /** `n` is the last key before `k`. */
  ghost predicate IsBefore(keys: set<Key>, k: Key, n: Link) {
    match n
    case Null => forall j :: j in keys ==> j >= k
    case To(p) => p in keys && p < k && forall j :: j in keys && j < k ==> j <= p
  }

  /** `n` is the first key at or after `k`. */
  ghost predicate IsFirstFrom(keys: set<Key>, k: Key, n: Link) {
    match n
    case Null => forall j :: j in keys ==> j < k
    case To(p) => p in keys && k <= p && forall j :: j in keys && k <= j ==> p <= j
  }

  lemma InvFacts(s: State)
    requires Inv(s)
    ensures |s.levels| == MAX_HEIGHT && 1 <= s.m.maxHeight <= MAX_HEIGHT && Linked(s.m, s.levels)
    ensures forall k :: k in s.m.nodes ==> k in s.levels[0] || (s.writer.Linking? && k == s.writer.key)
  {
  }

  lemma PrevHasLevel(s: State)
    requires Inv(s) && s.writer.Linking?
    ensures s.writer.i < MAX_HEIGHT && |s.writer.prev| == MAX_HEIGHT
    ensures HasLevel(s.m, s.writer.prev[s.writer.i], s.writer.i) && HasLevel(s.m, Node(s.writer.key), s.writer.i)
  {
    assert IsPrev(s.levels[s.writer.i], s.writer.prev[s.writer.i], s.writer.key);
  }

  /** All keys of all levels. */
  ghost function AllKeys(levels: seq<set<Key>>): (r: set<Key>)
    ensures forall l, k :: 0 <= l < |levels| && k in levels[l] ==> k in r
  {
    if levels == [] then {} else levels[0] + AllKeys(levels[1..])
  }

  /** With the height raised, the new levels' predecessors set to the head and the node allocated, linking
      can start. */
  lemma LinkingStarts(m: Shared, m': Shared, levels: seq<set<Key>>, prev: seq<Ref>, prev': seq<Ref>, height: nat, key: Key)
    requires Linked(m, levels) && key !in levels[0] && (forall k :: k in m.nodes ==> k in levels[0])
    requires |prev| == |prev'| == MAX_HEIGHT && PlacedAbove(m, levels, prev, 0, key) && 1 <= height <= MAX_HEIGHT
    requires forall l :: 0 <= l < height ==> prev'[l] == if m.maxHeight <= l then Head else prev[l]
    requires m' == m.(maxHeight := if height > m.maxHeight then height else m.maxHeight, nodes := m.nodes[key := seq(height, _ => Null)])
    ensures Inv(State(m', Linking(key, height, prev', 0, false), levels))
  {
    MemoryGrows(m, m', levels, key);
    forall l | 0 <= l < MAX_HEIGHT ensures key !in levels[l] {
      NotOnLevels(m, levels, key, l);
    }
    forall l | 0 <= l < height ensures IsPrev(levels[l], prev'[l], key) {
      LevelsAbove(m, levels, l);
    }
  }
}
