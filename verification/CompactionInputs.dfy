/** Choosing the files of a compaction: overlap tests, the closure computed over level 0,
    boundary files, growing the upper level, and the level a flushed memtable goes to. */
module CompactionInputs {
  import opened InternalKeys
  import opened Files
  import opened VersionSearch

  type Bound = Option<UserKey>

  /** The user-key range of `f` meets [lo, hi]; a missing bound is infinite. */
  predicate Overlaps(f: File, lo: Bound, hi: Bound) {
    && (lo.None? || lo.value <= f.largest.user)
    && (hi.None? || f.smallest.user <= hi.value)
  }

  predicate Touch(f: File, g: File) {
    f.smallest.user <= g.largest.user && g.smallest.user <= f.largest.user
  }

  /** The files meeting [lo, hi], in their order. */
  function Overlapping(files: Level, lo: Bound, hi: Bound): (r: Level)
    ensures forall f :: f in r <==> f in files && Overlaps(f, lo, hi)
  {
    if files == [] then []
    else
      var last := files[|files| - 1];
      assert files == files[..|files| - 1] + [last];
      Overlapping(files[..|files| - 1], lo, hi) + (if Overlaps(last, lo, hi) then [last] else [])
  }

  /** Whether some file meets [lo, hi], by scan or, in a sorted level, by one binary search. */
  method SomeFileOverlapsRange(disjointSorted: bool, files: Level, lo: Bound, hi: Bound) returns (b: bool)
    requires ValidFiles(files) && (disjointSorted ==> SortedDisjoint(files))
    ensures b <==> exists f :: f in files && Overlaps(f, lo, hi)
  {
    if !disjointSorted {
      for i := 0 to |files|
        invariant forall j :: 0 <= j < i ==> !Overlaps(files[j], lo, hi)
      {
        if !(lo.Some? && lo.value > files[i].largest.user) && !(hi.Some? && hi.value < files[i].smallest.user) {
          assert Overlaps(files[i], lo, hi);
          return true;
        }
      }
      return false;
    }
    var index := 0;
    if lo.Some? {
      index := FindFile(files, LookupKey(lo.value, MAX_SEQUENCE));
      assert forall i :: 0 <= i < index ==> files[i].largest.user < lo.value;
    }
    if index >= |files| {
      return false;
    }
    b := !(hi.Some? && hi.value < files[index].smallest.user);
    forall i | index < i < |files| ensures files[index].smallest.user <= files[i].smallest.user {
      RangesOrdered(files, index, i);
    }
    if b {
      assert Overlaps(files[index], lo, hi);
    }
  }

  // ---- GetOverlappingInputs ----

  ghost predicate Chain(files: Level, lo: Bound, hi: Bound, c: seq<File>) {
    && |c| > 0
    && (forall f :: f in c ==> f in files)
    && Overlaps(c[0], lo, hi)
    && forall i :: 0 <= i < |c| - 1 ==> Touch(c[i], c[i + 1])
  }

  /** `f` is reached from the range through files with overlapping user-key ranges. */
  ghost predicate Reachable(files: Level, lo: Bound, hi: Bound, f: File) {
    exists c :: Chain(files, lo, hi, c) && c[|c| - 1] == f
  }

  lemma ReachNext(files: Level, lo: Bound, hi: Bound, f: File, g: File)
    requires Reachable(files, lo, hi, f) && g in files && Touch(f, g)
    ensures Reachable(files, lo, hi, g)
  {
    var c :| Chain(files, lo, hi, c) && c[|c| - 1] == f;
    var d := c + [g];
    assert forall i :: 0 <= i < |d| - 1 ==> Touch(d[i], d[i + 1]);
    assert Chain(files, lo, hi, d) && d[|d| - 1] == g;
  }

  lemma ReachFirst(files: Level, lo: Bound, hi: Bound, f: File)
    requires f in files && Overlaps(f, lo, hi)
    ensures Reachable(files, lo, hi, f)
  {
    assert Chain(files, lo, hi, [f]);
  }

  ghost predicate Within(f: File, lo: Bound, hi: Bound) {
    && (lo.None? || lo.value <= f.smallest.user)
    && (hi.None? || f.largest.user <= hi.value)
  }

  /** Number of files starting before `lo` plus number ending after `hi`. */
  ghost function Outside(files: Level, lo: Bound, hi: Bound): nat {
    if files == [] then 0
    else Outside(files[1..], lo, hi)
         + (if lo.Some? && files[0].smallest.user < lo.value then 1 else 0)
         + (if hi.Some? && files[0].largest.user > hi.value then 1 else 0)
  }

  /** Widening the range to take in an end of some file leaves fewer file ends outside. */
  lemma {:induction false} WideningProgress(files: Level, lo: Bound, hi: Bound, lo': Bound, hi': Bound)
    requires lo.None? ==> lo'.None?
    requires hi.None? ==> hi'.None?
    requires lo.Some? && lo'.Some? ==> lo'.value <= lo.value
    requires hi.Some? && hi'.Some? ==> hi'.value >= hi.value
    ensures Outside(files, lo', hi') <= Outside(files, lo, hi)
    ensures (exists f :: f in files && lo.Some? && lo'.Some? && f.smallest.user < lo.value && f.smallest.user == lo'.value)
            || (exists f :: f in files && hi.Some? && hi'.Some? && f.largest.user > hi.value && f.largest.user == hi'.value)
            ==> Outside(files, lo', hi') < Outside(files, lo, hi)
  {
    if files != [] {
      WideningProgress(files[1..], lo, hi, lo', hi');
      assert forall f :: f in files ==> f == files[0] || f in files[1..];
    }
  }

  /** In a sorted level the files meeting the range; in level 0 exactly the files reached from it,
      which are all the files meeting one wider range. */
  ghost predicate OverlapResult(level: nat, files: Level, begin: Bound, end: Bound, inputs: Level) {
    if level > 0 then inputs == Overlapping(files, begin, end)
    else
      && (forall f :: f in inputs <==> Reachable(files, begin, end, f))
      && exists lo, hi :: inputs == Overlapping(files, lo, hi) && forall f :: f in inputs ==> Within(f, lo, hi)
  }

  /** Where the scan stands: the files among the first `i` meeting the current range, which has
      only grown, and only over reachable files. */
  ghost predicate Scanning(level: nat, files: Level, begin: Bound, end: Bound, inputs: Level, i: nat, lo: Bound, hi: Bound) {
    && i <= |files|
    && inputs == Overlapping(files[..i], lo, hi)
    && (level > 0 ==> lo == begin && hi == end)
    && (lo.Some? <==> begin.Some?) && (begin.Some? ==> lo.value <= begin.value)
    && (hi.Some? <==> end.Some?) && (end.Some? ==> hi.value >= end.value)
    && (level == 0 ==> forall f :: f in inputs ==> Within(f, lo, hi))
    && (level == 0 ==> forall f :: f in files && Overlaps(f, lo, hi) ==> Reachable(files, begin, end, f))
  }

  /** All files of `level` meeting [begin, end]. Files of level 0 may overlap each other, so there
      the range grows with every file taken and the scan restarts; the result is the closure. */
  method GetOverlappingInputs(level: nat, files: Level, begin: Bound, end: Bound) returns (inputs: Level)
    requires ValidFiles(files)
    ensures OverlapResult(level, files, begin, end, inputs)
  {
    hide Scanning;
    hide OverlapResult;
    hide Outside;
    inputs := [];
    var lo, hi := begin, end;
    ScanStart(level, files, begin, end);
    var i := 0;
    while i < |files|
      invariant i <= |files| && Scanning(level, files, begin, end, inputs, i, lo, hi)
      decreases Outside(files, lo, hi), |files| - i
    {
      var f := files[i];
      i := i + 1;
      if (lo.Some? && f.largest.user < lo.value) || (hi.Some? && f.smallest.user > hi.value) {
        ScanSkips(level, files, begin, end, inputs, i - 1, lo, hi);
      } else if level == 0 && lo.Some? && f.smallest.user < lo.value {
        ScanWidens(files, begin, end, inputs, i - 1, lo, hi, Some(f.smallest.user), hi);
        lo := Some(f.smallest.user);
        inputs := [];
        i := 0;
      } else if level == 0 && hi.Some? && f.largest.user > hi.value {
        ScanWidens(files, begin, end, inputs, i - 1, lo, hi, lo, Some(f.largest.user));
        hi := Some(f.largest.user);
        inputs := [];
        i := 0;
      } else {
        ScanTakes(level, files, begin, end, inputs, i - 1, lo, hi);
        inputs := inputs + [f];
      }
    }
    ScanDone(level, files, begin, end, inputs, i, lo, hi);
  }

  lemma ScanDone(level: nat, files: Level, begin: Bound, end: Bound, inputs: Level, i: nat, lo: Bound, hi: Bound)
    requires ValidFiles(files) && Scanning(level, files, begin, end, inputs, i, lo, hi) && i == |files|
    ensures OverlapResult(level, files, begin, end, inputs)
  {
    assert files[..i] == files;
    if level == 0 {
      forall f | Reachable(files, begin, end, f) ensures f in inputs {
        ClosedUnderReach(files, begin, end, lo, hi, inputs, f);
      }
    }
  }

  lemma ScanStart(level: nat, files: Level, begin: Bound, end: Bound)
    ensures Scanning(level, files, begin, end, [], 0, begin, end)
  {
    forall f | f in files && Overlaps(f, begin, end) ensures Reachable(files, begin, end, f) {
      ReachFirst(files, begin, end, f);
    }
  }

  lemma OverlappingNext(files: Level, i: nat, lo: Bound, hi: Bound)
    requires i < |files|
    ensures Overlapping(files[..i + 1], lo, hi)
            == Overlapping(files[..i], lo, hi) + (if Overlaps(files[i], lo, hi) then [files[i]] else [])
  {
    assert files[..i + 1][..i] == files[..i];
  }

  lemma ScanSkips(level: nat, files: Level, begin: Bound, end: Bound, inputs: Level, i: nat, lo: Bound, hi: Bound)
    requires Scanning(level, files, begin, end, inputs, i, lo, hi) && i < |files|
    requires !Overlaps(files[i], lo, hi)
    ensures Scanning(level, files, begin, end, inputs, i + 1, lo, hi)
  {
    OverlappingNext(files, i, lo, hi);
  }

  lemma ScanTakes(level: nat, files: Level, begin: Bound, end: Bound, inputs: Level, i: nat, lo: Bound, hi: Bound)
    requires Scanning(level, files, begin, end, inputs, i, lo, hi) && i < |files|
    requires Overlaps(files[i], lo, hi) && (level == 0 ==> Within(files[i], lo, hi))
    ensures Scanning(level, files, begin, end, inputs + [files[i]], i + 1, lo, hi)
  {
    OverlappingNext(files, i, lo, hi);
  }

  lemma ScanWidens(files: Level, begin: Bound, end: Bound, inputs: Level, i: nat, lo: Bound, hi: Bound, lo': Bound, hi': Bound)
    requires ValidFiles(files)
    requires Scanning(0, files, begin, end, inputs, i, lo, hi) && i < |files| && Overlaps(files[i], lo, hi)
    requires || (lo.Some? && files[i].smallest.user < lo.value && lo' == Some(files[i].smallest.user) && hi' == hi)
             || (hi.Some? && files[i].largest.user > hi.value && hi' == Some(files[i].largest.user) && lo' == lo)
    ensures Scanning(0, files, begin, end, [], 0, lo', hi')
    ensures Outside(files, lo', hi') < Outside(files, lo, hi)
  {
    var f := files[i];
    WideningProgress(files, lo, hi, lo', hi');
    WideningReaches(files, begin, end, lo, hi, f, lo', hi');
  }

  lemma WideningReaches(files: Level, begin: Bound, end: Bound, lo: Bound, hi: Bound, f: File, lo': Bound, hi': Bound)
    requires ValidFiles(files) && f in files && Overlaps(f, lo, hi)
    requires forall g :: g in files && Overlaps(g, lo, hi) ==> Reachable(files, begin, end, g)
    requires (lo' == lo && hi' == Some(f.largest.user)) || (lo' == Some(f.smallest.user) && hi' == hi)
    ensures forall g :: g in files && Overlaps(g, lo', hi') ==> Reachable(files, begin, end, g)
  {
    forall g | g in files && Overlaps(g, lo', hi') ensures Reachable(files, begin, end, g) {
      if !Overlaps(g, lo, hi) {
        FileBounds(f, f.entries[0]);
        FileBounds(g, g.entries[0]);
        ReachNext(files, begin, end, f, g);
      }
    }
  }

  lemma ClosedUnderReach(files: Level, begin: Bound, end: Bound, lo: Bound, hi: Bound, inputs: Level, f: File)
    requires ValidFiles(files) && Reachable(files, begin, end, f)
    requires inputs == Overlapping(files, lo, hi) && forall g :: g in inputs ==> Within(g, lo, hi)
    requires lo.Some? ==> begin.Some? && lo.value <= begin.value
    requires hi.Some? ==> end.Some? && hi.value >= end.value
    ensures f in inputs
  {
    var c :| Chain(files, begin, end, c) && c[|c| - 1] == f;
    for n := 0 to |c| - 1
      invariant c[n] in inputs
    {
      assert Touch(c[n], c[n + 1]);
    }
  }

  // ---- Key ranges ----

  ghost predicate IsRange(fs: Level, smallest: InternalKey, largest: InternalKey) {
    && (exists f :: f in fs && f.smallest == smallest)
    && (exists f :: f in fs && f.largest == largest)
    && forall f :: f in fs ==> AtMost(smallest, f.smallest) && AtMost(f.largest, largest)
  }

  lemma RangeAppend(fs: Level, smallest: InternalKey, largest: InternalKey, f: File)
    requires IsRange(fs, smallest, largest)
    ensures IsRange(fs + [f], if Less(f.smallest, smallest) then f.smallest else smallest,
                    if Less(largest, f.largest) then f.largest else largest)
  {
    var r := fs + [f];
    assert r[|fs|] == f;
    assert forall g :: g in fs ==> g in r;
  }

  method GetRange(inputs: Level) returns (smallest: InternalKey, largest: InternalKey)
    requires |inputs| > 0
    ensures IsRange(inputs, smallest, largest)
  {
    smallest, largest := inputs[0].smallest, inputs[0].largest;
    for i := 1 to |inputs|
      invariant IsRange(inputs[..i], smallest, largest)
    {
      var f := inputs[i];
      assert inputs[..i + 1] == inputs[..i] + [f];
      RangeAppend(inputs[..i], smallest, largest, f);
      if Less(f.smallest, smallest) {
        smallest := f.smallest;
      }
      if Less(largest, f.largest) {
        largest := f.largest;
      }
    }
    assert inputs[..|inputs|] == inputs;
  }

  // ---- Boundary files ----

  ghost predicate IsLargest(fs: Level, k: InternalKey) {
    && (exists f :: f in fs && f.largest == k)
    && forall f :: f in fs ==> AtMost(f.largest, k)
  }

  /** `f` starts after `largest` with the same user key. */
  predicate Boundary(f: File, largest: InternalKey) {
    Less(largest, f.smallest) && f.smallest.user == largest.user
  }

  /** The boundary file with the least smallest key, if any. */
  method FindSmallestBoundaryFile(files: Level, largest: InternalKey) returns (r: Option<File>)
    ensures r.None? ==> forall f :: f in files ==> !Boundary(f, largest)
    ensures r.Some? ==> r.value in files && Boundary(r.value, largest)
    ensures r.Some? ==> forall f :: f in files && Boundary(f, largest) ==> AtMost(r.value.smallest, f.smallest)
  {
    r := None;
    for i := 0 to |files|
      invariant r.None? ==> forall j :: 0 <= j < i ==> !Boundary(files[j], largest)
      invariant r.Some? ==> r.value in files && Boundary(r.value, largest)
      invariant r.Some? ==> forall j :: 0 <= j < i && Boundary(files[j], largest) ==> AtMost(r.value.smallest, files[j].smallest)
    {
      var f := files[i];
      if Less(largest, f.smallest) && f.smallest.user == largest.user {
        if r.None? || Less(f.smallest, r.value.smallest) {
          r := Some(f);
        }
      }
    }
  }

  ghost function StartingAfter(files: Level, k: InternalKey): nat {
    if files == [] then 0
    else StartingAfter(files[1..], k) + (if Less(k, files[0].smallest) then 1 else 0)
  }

  lemma {:induction false} FewerStartAfter(files: Level, k: InternalKey, k': InternalKey)
    requires AtMost(k, k')
    ensures StartingAfter(files, k') <= StartingAfter(files, k)
    ensures (exists f :: f in files && Less(k, f.smallest) && AtMost(f.smallest, k'))
            ==> StartingAfter(files, k') < StartingAfter(files, k)
  {
    if files != [] {
      FewerStartAfter(files[1..], k, k');
      assert forall f :: f in files ==> f == files[0] || f in files[1..];
    }
  }

  /** The largest of the largest keys. */
  method FindLargestKey(files: Level) returns (largest: InternalKey)
    requires files != []
    ensures IsLargest(files, largest)
  {
    largest := files[0].largest;
    for i := 1 to |files|
      invariant IsLargest(files[..i], largest)
    {
      assert files[..i + 1] == files[..i] + [files[i]];
      assert files[i] in files[..i + 1] && forall g :: g in files[..i] ==> g in files[..i + 1];
      if Less(largest, files[i].largest) {
        largest := files[i].largest;
      }
    }
    assert files[..|files|] == files;
  }

  /** Every file after the first `n` was the smallest boundary file of the files before it. */
  ghost predicate BoundarySteps(files: Level, n: nat, r: Level) {
    && n <= |r|
    && forall i :: n <= i < |r| ==> BoundaryStep(files, r[..i], r[i])
  }

  ghost predicate BoundaryStep(files: Level, before: Level, f: File) {
    && f in files
    && forall k :: IsLargest(before, k) ==>
         Boundary(f, k) && forall g :: g in files && Boundary(g, k) ==> AtMost(f.smallest, g.smallest)
  }

  lemma LargestUnique(fs: Level, k: InternalKey, k': InternalKey)
    requires IsLargest(fs, k) && IsLargest(fs, k')
    ensures k == k'
  {
  }

  lemma LargestAppend(fs: Level, largest: InternalKey, f: File)
    requires IsLargest(fs, largest) && Less(largest, f.largest)
    ensures IsLargest(fs + [f], f.largest)
  {
    var r := fs + [f];
    assert r[|fs|] == f;
  }

  lemma StepsStart(files: Level, r: Level)
    ensures BoundarySteps(files, |r|, r)
  {
  }

  lemma StepsAppend(files: Level, n: nat, r: Level, f: File)
    requires BoundarySteps(files, n, r) && BoundaryStep(files, r, f)
    ensures BoundarySteps(files, n, r + [f])
  {
    hide BoundaryStep;
    var r' := r + [f];
    forall i | n <= i < |r'| ensures BoundaryStep(files, r'[..i], r'[i]) {
      if i < |r| {
        assert r'[..i] == r[..i];
      } else {
        assert r'[..i] == r;
      }
    }
  }

  lemma AppendBoundary(files: Level, n: nat, r: Level, largest: InternalKey, f: File)
    requires BoundarySteps(files, n, r) && IsLargest(r, largest) && ValidFile(f)
    requires f in files && Boundary(f, largest)
    requires forall g :: g in files && Boundary(g, largest) ==> AtMost(f.smallest, g.smallest)
    ensures BoundarySteps(files, n, r + [f]) && IsLargest(r + [f], f.largest) && Less(largest, f.largest)
  {
    hide BoundarySteps;
    FileBounds(f, f.entries[0]);
    LargestAppend(r, largest, f);
    assert BoundaryStep(files, r, f) by {
      forall k | IsLargest(r, k) ensures k == largest {
        LargestUnique(r, k, largest);
      }
    }
    StepsAppend(files, n, r, f);
  }

  /** `chosen` extended one boundary file at a time until none is left. */
  method AddBoundaryInputs(files: Level, chosen: Level) returns (r: Level, ghost largest: InternalKey)
    requires ValidFiles(files)
    ensures chosen <= r && BoundarySteps(files, |chosen|, r)
    ensures chosen != [] ==> IsLargest(r, largest) && forall f :: f in files ==> !Boundary(f, largest)
  {
    hide BoundarySteps;
    hide IsLargest;
    hide StartingAfter;
    r := chosen;
    StepsStart(files, chosen);
    if chosen == [] {
      largest := LookupKey(0, 0);
      return;
    }
    var largestKey := FindLargestKey(chosen);
    var searching := true;
    while searching
      invariant chosen <= r && IsLargest(r, largestKey)
      invariant BoundarySteps(files, |chosen|, r)
      invariant !searching ==> forall f :: f in files ==> !Boundary(f, largestKey)
      decreases StartingAfter(files, largestKey), searching
    {
      var b := FindSmallestBoundaryFile(files, largestKey);
      if b.Some? {
        var f := b.value;
        FileBounds(f, f.entries[0]);
        FewerStartAfter(files, largestKey, f.largest);
        AppendBoundary(files, |chosen|, r, largestKey, f);
        r := r + [f];
        largestKey := f.largest;
      } else {
        searching := false;
      }
    }
    largest := largestKey;
  }
}
