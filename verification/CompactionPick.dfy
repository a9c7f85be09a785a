/** The inputs of a compaction: what the pickers guarantee about the files they return. */
module CompactionPick {
  import opened InternalKeys
  import opened Files
  import opened VersionSearch
  import opened CompactionInputs

  /** Files of `level` (upper) and `level + 1` (lower) to merge, with the range of the upper ones and
      the overlapping files one level further down. */
  datatype Inputs = Inputs(level: nat, upper: Level, lower: Level, smallest: InternalKey, largest: InternalKey, grandparents: Level)

  /** Whatever stays behind in the input level is newer, for every shared user key, than what is
      taken: files of a sorted level left behind come before the chosen ones, and in level 0 no
      file left behind meets a chosen one. */
  ghost predicate LeavesNewer(level: nat, files: Level, chosen: Level) {
    forall f, g :: f in files && f !in chosen && g in chosen && Touch(f, g) ==> level > 0 && Precedes(f.largest, g.smallest)
  }

  ghost predicate GoodInputs(v: Version, c: Inputs) {
    && c.level + 1 < NUM_LEVELS
    && c.upper != []
    && (forall f :: f in c.upper ==> f in v[c.level])
    && (c.level == 0 ==> SortedBySmallest(c.upper))
    && (c.level > 0 ==> SortedDisjoint(c.upper))
    && LeavesNewer(c.level, v[c.level], c.upper)
    && IsRange(c.upper, c.smallest, c.largest)
    && c.lower == Overlapping(v[c.level + 1], Some(c.smallest.user), Some(c.largest.user))
  }

  // ---- Contiguity in a sorted level ----

  predicate Before(f: File, lo: Bound) {
    lo.Some? && f.largest.user < lo.value
  }

  predicate After(f: File, hi: Bound) {
    hi.Some? && f.smallest.user > hi.value
  }

  /** First file not wholly before `lo`, and first file wholly after `hi`. */
  ghost predicate Cut(files: Level, lo: Bound, hi: Bound, i: nat, j: nat) {
    && i <= |files| && j <= |files|
    && (forall k :: 0 <= k < |files| ==> (k < i <==> Before(files[k], lo)))
    && (forall k :: 0 <= k < |files| ==> (k >= j <==> After(files[k], hi)))
  }

  lemma {:induction false} CutExists(files: Level, lo: Bound, hi: Bound, n: nat) returns (i: nat, j: nat)
    requires ValidFiles(files) && SortedDisjoint(files) && n <= |files|
    ensures Cut(files[..n], lo, hi, i, j)
  {
    if n == 0 {
      i, j := 0, 0;
      assert files[..0] == [];
    } else {
      i, j := CutExists(files, lo, hi, n - 1);
      var init, last := files[..n - 1], files[n - 1];
      assert files[..n] == init + [last];
      if n >= 2 {
        RangesOrdered(files, n - 2, n - 1);
        assert init[n - 2] == files[n - 2];
      }
      if i == n - 1 && Before(last, lo) {
        i := n;
      }
      if j == n - 1 && !After(last, hi) {
        j := n;
      }
    }
  }

  /** The part of the run [i, j) below `n`. */
  ghost function RunBelow(files: Level, i: nat, j: nat, n: nat): Level
    requires n <= |files|
  {
    if i < j && i < n then files[i..(if j < n then j else n)] else []
  }

  lemma RunBelowNext(files: Level, i: nat, j: nat, n: nat)
    requires n < |files|
    ensures RunBelow(files, i, j, n + 1) == RunBelow(files, i, j, n) + (if i <= n < j then [files[n]] else [])
  {
  }

  lemma {:induction false} OverlappingSlice(files: Level, lo: Bound, hi: Bound, i: nat, j: nat, n: nat)
    requires Cut(files, lo, hi, i, j) && n <= |files|
    ensures Overlapping(files[..n], lo, hi) == RunBelow(files, i, j, n)
  {
    if n > 0 {
      OverlappingSlice(files, lo, hi, i, j, n - 1);
      OverlappingNext(files, n - 1, lo, hi);
      RunBelowNext(files, i, j, n - 1);
      assert Overlaps(files[n - 1], lo, hi) <==> i <= n - 1 < j;
    }
  }

  lemma OverlappingContiguous(files: Level, lo: Bound, hi: Bound) returns (i: nat, j: nat)
    requires ValidFiles(files) && SortedDisjoint(files)
    ensures i <= j <= |files| && Overlapping(files, lo, hi) == files[i..j]
  {
    i, j := CutExists(files, lo, hi, |files|);
    assert files[..|files|] == files;
    OverlappingSlice(files, lo, hi, i, j, |files|);
    if i >= j {
      i, j := 0, 0;
    }
  }

  lemma NotBoundary(files: Level, k: nat, n: nat)
    requires ValidFiles(files) && SortedDisjoint(files) && k <= n < |files|
    ensures !Boundary(files[k], files[n].largest)
  {
    assert ValidFile(files[k]);
    FileBounds(files[k], files[k].entries[0]);
    if k < n {
      RangesOrdered(files, k, n);
    }
  }

  /** The file following a run is the only candidate to continue it. */
  lemma BoundaryIsNext(files: Level, i: nat, m: nat, f: File)
    requires ValidFiles(files) && SortedDisjoint(files) && i < m <= |files|
    requires BoundaryStep(files, files[i..m], f)
    ensures m < |files| && files[m] == f
  {
    RunLargest(files, i, m);
    forall k | 0 <= k < m ensures !Boundary(files[k], files[m - 1].largest) {
      NotBoundary(files, k, m - 1);
    }
    var k :| 0 <= k < |files| && files[k] == f;
    assert Boundary(f, files[m - 1].largest);
    assert AtMost(f.smallest, f.largest) by {
      FileBounds(f, f.entries[0]);
    }
    if k > m {
      RangesOrdered(files, m, k);
      RangesOrdered(files, m - 1, m);
      assert Boundary(files[m], files[m - 1].largest);
    }
  }

  /** Boundary files of a sorted level continue its contiguous run. */
  lemma {:induction false} BoundaryContiguous(files: Level, i: nat, j: nat, r: Level, n: nat)
    requires ValidFiles(files) && SortedDisjoint(files) && i < j <= |files|
    requires n <= |r| - (j - i) && files[i..j] <= r && BoundarySteps(files, j - i, r)
    ensures j + n <= |files| && r[..j - i + n] == files[i..j + n]
  {
    hide SortedDisjoint;
    hide ValidFiles;
    hide BoundaryStep;
    if n > 0 {
      BoundaryContiguous(files, i, j, r, n - 1);
      var at := j - i + n - 1;
      assert r[..at] == files[i..j + n - 1];
      assert BoundaryStep(files, r[..at], r[at]);
      BoundaryIsNext(files, i, j + n - 1, r[at]);
      assert r[..at + 1] == r[..at] + [r[at]];
    }
  }

  lemma RunLargest(files: Level, i: nat, j: nat)
    requires ValidFiles(files) && SortedDisjoint(files) && i < j <= |files|
    ensures IsLargest(files[i..j], files[j - 1].largest)
  {
    assert files[j - 1] in files[i..j];
    forall f | f in files[i..j] ensures AtMost(f.largest, files[j - 1].largest) {
      var k :| i <= k < j && files[k] == f;
      if k < j - 1 {
        RangesOrdered(files, k, j - 1);
      }
    }
  }

  lemma RunLeavesNewer(level: nat, files: Level, i: nat, j: nat)
    requires level > 0 && ValidFiles(files) && SortedDisjoint(files) && i < j <= |files|
    requires forall f :: f in files ==> !Boundary(f, files[j - 1].largest)
    ensures LeavesNewer(level, files, files[i..j])
  {
    hide ValidFiles, SortedDisjoint, Boundary, Touch;
    forall n | i <= n < j ensures files[n] in files[i..j] {
      assert files[i..j][n - i] == files[n];
    }
    forall f, g | f in files && f !in files[i..j] && g in files[i..j] && Touch(f, g)
      ensures Precedes(f.largest, g.smallest)
    {
      var n :| 0 <= n < |files| && files[n] == f;
      var m :| i <= m < j && files[m] == g;
      if n >= j {
        NoneBehindTouches(files, j, n, m);
      }
      InOrder(files, n, m);
    }
  }

  lemma InOrder(files: Level, n: nat, m: nat)
    requires SortedDisjoint(files) && n < m < |files|
    ensures Precedes(files[n].largest, files[m].smallest)
  {
  }

  /** With no boundary file behind a run, what follows the run does not meet it. */
  lemma NoneBehindTouches(files: Level, j: nat, n: nat, m: nat)
    requires ValidFiles(files) && SortedDisjoint(files) && m < j <= n < |files| && !Boundary(files[n], files[j - 1].largest)
    ensures !Touch(files[n], files[m])
  {
    InOrder(files, j - 1, n);
    if m < j - 1 {
      RangesOrdered(files, m, j - 1);
    }
  }

  /** A run of a sorted level, or a set of level-0 files closed under overlap, stays one when
      boundary files are added, and then leaves only newer entries behind. */
  ghost predicate Startable(level: nat, files: Level, chosen: Level) {
    && chosen != []
    && (level > 0 ==> exists i, j :: 0 <= i < j <= |files| && chosen == files[i..j])
    && (level == 0 ==> (exists lo, hi :: chosen == Overlapping(files, lo, hi) && forall f :: f in chosen ==> Within(f, lo, hi)))
  }

  lemma BoundaryKeepsRun(level: nat, files: Level, i: nat, j: nat, r: Level, largest: InternalKey) returns (m: nat)
    requires ValidFiles(files) && level > 0 && SortedDisjoint(files) && i < j <= |files|
    requires files[i..j] <= r && BoundarySteps(files, j - i, r)
    requires IsLargest(r, largest) && forall f :: f in files ==> !Boundary(f, largest)
    ensures i < m <= |files| && r == files[i..m] && LeavesNewer(level, files, r)
  {
    hide SortedDisjoint;
    hide ValidFiles;
    hide BoundarySteps;
    hide LeavesNewer;
    var n := |r| - (j - i);
    m := j + n;
    BoundaryContiguous(files, i, j, r, n);
    assert r == r[..j - i + n];
    RunLargest(files, i, m);
    LargestUnique(r, largest, files[m - 1].largest);
    RunLeavesNewer(level, files, i, m);
  }

  lemma RunSorted(files: Level, i: nat, j: nat)
    requires SortedDisjoint(files) && i <= j <= |files|
    ensures SortedDisjoint(files[i..j]) && forall f :: f in files[i..j] ==> f in files
  {
  }

  lemma BoundaryAddsNothing(files: Level, chosen: Level, r: Level)
    requires ValidFiles(files) && SortedBySmallest(files) && Startable(0, files, chosen)
    requires chosen <= r && BoundarySteps(files, |chosen|, r)
    ensures r == chosen && SortedBySmallest(r) && LeavesNewer(0, files, r) && forall f :: f in r ==> f in files
  {
    var lo, hi :| chosen == Overlapping(files, lo, hi) && forall f :: f in chosen ==> Within(f, lo, hi);
    assert forall f, g :: f in files && f !in chosen && g in chosen ==> !Touch(f, g);
    OverlappingSorted(files, lo, hi);
    if |r| > |chosen| {
      var f := r[|chosen|];
      assert r[..|chosen|] == chosen;
      assert BoundaryStep(files, chosen, f);
      var k := LargestExists(chosen);
      assert Boundary(f, k);
      var g :| g in chosen && g.largest == k;
      FileBounds(f, f.entries[0]);
      FileBounds(g, g.entries[0]);
      assert Touch(f, g) && f in files;
      assert false;
    }
  }

  lemma LargestExists(fs: Level) returns (k: InternalKey)
    requires fs != []
    ensures IsLargest(fs, k)
  {
    if |fs| == 1 {
      k := fs[0].largest;
    } else {
      var k' := LargestExists(fs[1..]);
      k := if Less(fs[0].largest, k') then k' else fs[0].largest;
      assert forall f :: f in fs ==> f == fs[0] || f in fs[1..];
    }
  }

  lemma OverlappingSorted(files: Level, lo: Bound, hi: Bound)
    requires SortedBySmallest(files)
    ensures SortedBySmallest(Overlapping(files, lo, hi))
  {
    if files != [] {
      var init := files[..|files| - 1];
      OverlappingSorted(init, lo, hi);
      var r := Overlapping(init, lo, hi);
      assert forall i :: 0 <= i < |r| ==> r[i] in init;
    }
  }

  // ---- The pickers ----

  function TotalFileSize(files: Level): nat {
    if files == [] then 0 else files[0].size + TotalFileSize(files[1..])
  }

  function MaxGrandParentOverlapBytes(maxFileSize: nat): nat { 10 * maxFileSize }

  function ExpandedCompactionByteSizeLimit(maxFileSize: nat): nat { 25 * maxFileSize }

  /** Sizes add up. */
  lemma {:induction false} TotalAdds(a: Level, b: Level)
    ensures TotalFileSize(a + b) == TotalFileSize(a) + TotalFileSize(b)
    ensures forall f :: TotalFileSize([f]) == f.size
  {
    forall f ensures TotalFileSize([f]) == f.size {
      assert [f][1..] == [];
    }
    if a == [] {
      assert a + b == b;
    } else {
      assert (a + b)[1..] == a[1..] + b;
      TotalAdds(a[1..], b);
    }
  }

  // ---- What is chosen ----

  /** `upper` is `chosen` and its boundary files, one behind the other until there is none. */
  ghost predicate Boundaried(files: Level, chosen: Level, upper: Level) {
    && chosen <= upper && BoundarySteps(files, |chosen|, upper)
    && forall k :: IsLargest(upper, k) ==> forall f :: f in files ==> !Boundary(f, k)
  }

  /** `r` are the files of a sorted level that meet the range of `inputs`. */
  ghost predicate Meets(files: Level, inputs: Level, r: Level) {
    exists s, t :: IsRange(inputs, s, t) && r == Overlapping(files, Some(s.user), Some(t.user))
  }

  /** `r` are the files of the level reached from the range of `inputs`. */
  ghost predicate Reaches(level: nat, files: Level, inputs: Level, r: Level) {
    exists s, t :: IsRange(inputs, s, t) && OverlapResult(level, files, Some(s.user), Some(t.user), r)
  }

  /** The choice with its boundary files and what it meets one level down; and, if it meets anything, what both
      together reach in the level, with boundary files, and what that meets one level down. */
  datatype Growth = Growth(first: Level, lower: Level, reached: Level, grown: Level, grownLower: Level)

  /** More of the level is taken if that costs nothing one level down and stays below 25 file sizes. */
  predicate Grows(g: Growth, maxFileSize: nat) {
    && g.lower != [] && |g.grown| > |g.first| && |g.grownLower| == |g.lower|
    && TotalFileSize(g.lower) + TotalFileSize(g.grown) < 25 * maxFileSize
  }

  ghost predicate Completed(v: Version, level: nat, chosen: Level, maxFileSize: nat, c: Inputs, g: Growth)
    requires level + 1 < NUM_LEVELS
  {
    && c.level == level && Boundaried(v[level], chosen, g.first) && Meets(v[level + 1], g.first, g.lower)
    && (g.lower != [] ==>
          && Reaches(level, v[level], g.first + g.lower, g.reached) && Boundaried(v[level], g.reached, g.grown)
          && Meets(v[level + 1], g.grown, g.grownLower))
    && (if Grows(g, maxFileSize) then c.upper == g.grown && c.lower == g.grownLower else c.upper == g.first && c.lower == g.lower)
    && IsRange(c.upper, c.smallest, c.largest)
    && if level + 2 < NUM_LEVELS then Meets(v[level + 2], c.upper + c.lower, c.grandparents) else c.grandparents == []
  }

  ghost predicate CompletesTo(v: Version, level: nat, chosen: Level, maxFileSize: nat, c: Inputs)
    requires level + 1 < NUM_LEVELS
  {
    exists g :: Completed(v, level, chosen, maxFileSize, c, g)
  }

  /** The file asked for, or the first that ends behind the pointer, or the first. */
  ghost predicate IsPicked(files: Level, seekFile: Option<File>, pointer: Option<InternalKey>, f: File) {
    if seekFile.Some? then f == seekFile.value
    else
      || (exists k :: 0 <= k < |files| && files[k] == f && Behind(files, pointer, k) && forall j :: 0 <= j < k ==> !Behind(files, pointer, j))
      || (files != [] && f == files[0] && forall j :: 0 <= j < |files| ==> !Behind(files, pointer, j))
  }

  predicate Behind(files: Level, pointer: Option<InternalKey>, k: nat)
    requires k < |files|
  {
    pointer.None? || Less(pointer.value, files[k].largest)
  }

  /** A level is compacted round: where a compaction left off at a file, whether it succeeded or not, the next one starts
      with the file behind it, and after the last with the first. */
  lemma RoundRobin(files: Level, j: nat, f: File)
    requires ValidFiles(files) && SortedDisjoint(files) && j < |files| && IsPicked(files, None, Some(files[j].largest), f)
    ensures f == if j + 1 < |files| then files[j + 1] else files[0]
  {
    forall k | 0 <= k < |files| ensures Behind(files, Some(files[j].largest), k) <==> j < k {
      if k < j {
        RangesOrdered(files, k, j);
      } else if j < k {
        RangesOrdered(files, j, k);
      }
    }
    if j + 1 < |files| {
      assert Behind(files, Some(files[j].largest), j + 1);
    }
  }

  ghost predicate PickedTo(v: Version, level: nat, seekFile: Option<File>, pointer: Option<InternalKey>, maxFileSize: nat, c: Inputs)
    requires level + 1 < NUM_LEVELS
  {
    exists f, chosen ::
      && IsPicked(v[level], seekFile, pointer, f)
      && (if level == 0 then OverlapResult(0, v[0], Some(f.smallest.user), Some(f.largest.user), chosen) else chosen == [f])
      && CompletesTo(v, level, chosen, maxFileSize, c)
  }

  /** All files of level 0 reached from the range; of another level those meeting it, up to one file size. */
  ghost predicate RangeTo(v: Version, level: nat, begin: Bound, end: Bound, maxFileSize: nat, c: Inputs)
    requires level + 1 < NUM_LEVELS
  {
    exists inputs, n ::
      && OverlapResult(level, v[level], begin, end, inputs) && IsPrefix(inputs, n, level, maxFileSize)
      && CompletesTo(v, level, inputs[..n], maxFileSize, c)
  }

  predicate IsPrefix(inputs: Level, n: nat, level: nat, maxFileSize: nat) {
    && 0 < n <= |inputs|
    && if level == 0 then n == |inputs|
       else (n == 1 || TotalFileSize(inputs[..n - 1]) < maxFileSize) && (n == |inputs| || TotalFileSize(inputs[..n]) >= maxFileSize)
  }

  /** Adding the boundary files of `chosen` in its level gives inputs that leave only newer entries. */
  ghost predicate Settled(level: nat, files: Level, chosen: Level, upper: Level) {
    && upper != []
    && (forall f :: f in upper ==> f in files)
    && (forall f :: f in chosen ==> f in upper)
    && (if level == 0 then SortedBySmallest(upper) else SortedDisjoint(upper))
    && LeavesNewer(level, files, upper)
  }

  method AddBoundaries(level: nat, files: Level, chosen: Level) returns (upper: Level)
    requires ValidFiles(files) && Startable(level, files, chosen)
    requires if level == 0 then SortedBySmallest(files) else SortedDisjoint(files)
    ensures Settled(level, files, chosen, upper) && Boundaried(files, chosen, upper)
  {
    ghost var largest;
    upper, largest := AddBoundaryInputs(files, chosen);
    StartNonempty(level, files, chosen);
    forall k | IsLargest(upper, k) ensures forall f :: f in files ==> !Boundary(f, k) {
      LargestUnique(upper, k, largest);
    }
    assert forall i :: 0 <= i < |chosen| ==> chosen[i] == upper[i];
    if level == 0 {
      BoundaryAddsNothing(files, chosen, upper);
    } else {
      ghost var i, j :| 0 <= i < j <= |files| && chosen == files[i..j];
      ghost var m := BoundaryKeepsRun(level, files, i, j, upper, largest);
      RunSorted(files, i, m);
    }
  }

  lemma OverlapStartable(level: nat, files: Level, begin: Bound, end: Bound, inputs: Level)
    requires ValidFiles(files) && (level > 0 ==> SortedDisjoint(files))
    requires OverlapResult(level, files, begin, end, inputs) && inputs != []
    ensures Startable(level, files, inputs)
  {
    if level > 0 {
      var i, j := OverlappingContiguous(files, begin, end);
    }
  }

  lemma OverlapContains(level: nat, files: Level, begin: Bound, end: Bound, inputs: Level, f: File)
    requires OverlapResult(level, files, begin, end, inputs) && f in files && Overlaps(f, begin, end)
    ensures f in inputs
  {
    if level == 0 {
      ReachFirst(files, begin, end, f);
    }
  }

  /** Completes a choice of files of `level`: boundary files, the overlapping files one level down,
      and more files of `level` when those do not pull in more of the level below. */
  method SetupOtherInputs(v: Version, level: nat, chosen: Level, maxFileSize: nat) returns (c: Inputs)
    requires ValidVersion(v) && level + 1 < NUM_LEVELS && Startable(level, v[level], chosen)
    ensures GoodInputs(v, c) && c.level == level
    ensures forall f :: f in chosen ==> f in c.upper
    ensures CompletesTo(v, level, chosen, maxFileSize, c)
  {
    hide Boundaried, Meets, Reaches;
    hide ValidVersion;
    hide GoodInputs;
    hide IsRange;
    hide Startable;
    hide SortedDisjoint;
    hide SortedBySmallest;
    hide LeavesNewer;
    hide ValidFiles;
    hide TotalFileSize;
    hide Overlapping;
    hide Overlaps;
    hide Precedes;
    hide Less;
    LevelFacts(v, level);
    LevelFacts(v, level + 1);
    var upper := AddBoundaries(level, v[level], chosen);
    var smallest, largest := GetRange(upper);
    var lower := GetOverlappingInputs(level + 1, v[level + 1], Some(smallest.user), Some(largest.user));
    var allStart, allLimit := GetRange(upper + lower);
    MeetsRange(level + 1, v[level + 1], upper, smallest, largest, lower);
    ghost var g := Growth(upper, lower, [], [], []);
    if lower != [] {
      var reached, expanded := Expand(v, level, upper, lower, allStart, allLimit);
      ghost var below := BelowOf(v[level + 1], expanded);
      g := Growth(upper, lower, reached, expanded, below);
      if |expanded| > |upper|
         && TotalFileSize(lower) + TotalFileSize(expanded) < ExpandedCompactionByteSizeLimit(maxFileSize)
      {
        var newStart, newLimit := GetRange(expanded);
        var expandedLower := GetOverlappingInputs(level + 1, v[level + 1], Some(newStart.user), Some(newLimit.user));
        BelowUnique(v[level + 1], expanded, newStart, newLimit, expandedLower, below);
        if |expandedLower| == |lower| {
          smallest, largest := newStart, newLimit;
          upper, lower := expanded, expandedLower;
          allStart, allLimit := GetRange(upper + lower);
        }
      }
    }
    var grandparents := [];
    if level + 2 < NUM_LEVELS {
      LevelFacts(v, level + 2);
      grandparents := GetOverlappingInputs(level + 2, v[level + 2], Some(allStart.user), Some(allLimit.user));
      MeetsRange(level + 2, v[level + 2], upper + lower, allStart, allLimit, grandparents);
    }
    c := Inputs(level, upper, lower, smallest, largest, grandparents);
    SettledIsGood(v, c, chosen);
    assert Completed(v, level, chosen, maxFileSize, c, g);
  }

  lemma MeetsRange(level: nat, files: Level, inputs: Level, s: InternalKey, t: InternalKey, r: Level)
    requires level > 0 && IsRange(inputs, s, t) && OverlapResult(level, files, Some(s.user), Some(t.user), r)
    ensures Meets(files, inputs, r)
  {
  }

  lemma BelowOf(files: Level, inputs: Level) returns (r: Level)
    requires inputs != []
    ensures Meets(files, inputs, r)
  {
    var s, t := RangeExists(inputs);
    r := Overlapping(files, Some(s.user), Some(t.user));
  }

  lemma BelowUnique(files: Level, inputs: Level, s: InternalKey, t: InternalKey, r: Level, r': Level)
    requires IsRange(inputs, s, t) && r == Overlapping(files, Some(s.user), Some(t.user)) && Meets(files, inputs, r')
    ensures r == r'
  {
  }

  lemma RangeExists(fs: Level) returns (s: InternalKey, t: InternalKey)
    requires fs != []
    ensures IsRange(fs, s, t)
  {
    if |fs| == 1 {
      s, t := fs[0].smallest, fs[0].largest;
    } else {
      var init, last := fs[..|fs| - 1], fs[|fs| - 1];
      s, t := RangeExists(init);
      RangeAppend(init, s, t, last);
      assert fs == init + [last];
      s, t := if Less(last.smallest, s) then last.smallest else s, if Less(t, last.largest) then last.largest else t;
    }
  }

  lemma LevelFacts(v: Version, l: nat)
    requires ValidVersion(v) && l < NUM_LEVELS
    ensures ValidFiles(v[l])
    ensures if l == 0 then SortedBySmallest(v[l]) else SortedDisjoint(v[l])
  {
  }

  lemma SettledIsGood(v: Version, c: Inputs, chosen: Level)
    requires c.level + 1 < NUM_LEVELS
    requires Settled(c.level, v[c.level], chosen, c.upper) && IsRange(c.upper, c.smallest, c.largest)
    requires OverlapResult(c.level + 1, v[c.level + 1], Some(c.smallest.user), Some(c.largest.user), c.lower)
    ensures GoodInputs(v, c)
  {
  }

  /** All files of `level` in the range of the inputs so far, with their boundary files. */
  method Expand(v: Version, level: nat, upper: Level, lower: Level, allStart: InternalKey, allLimit: InternalKey)
    returns (inRange: Level, expanded: Level)
    requires ValidVersion(v) && level + 1 < NUM_LEVELS && upper != []
    requires forall f :: f in upper ==> f in v[level]
    requires IsRange(upper + lower, allStart, allLimit)
    ensures Settled(level, v[level], upper, expanded)
    ensures Reaches(level, v[level], upper + lower, inRange) && Boundaried(v[level], inRange, expanded)
  {
    hide ValidVersion;
    hide SortedDisjoint;
    hide SortedBySmallest;
    hide LeavesNewer;
    LevelFacts(v, level);
    inRange := GetOverlappingInputs(level, v[level], Some(allStart.user), Some(allLimit.user));
    forall f | f in upper ensures f in inRange {
      assert f in upper + lower && ValidFile(f);
      FileBounds(f, f.entries[0]);
      OverlapContains(level, v[level], Some(allStart.user), Some(allLimit.user), inRange, f);
    }
    assert upper[0] in inRange;
    OverlapStartable(level, v[level], Some(allStart.user), Some(allLimit.user), inRange);
    expanded := AddBoundaries(level, v[level], inRange);
  }

  lemma StartNonempty(level: nat, files: Level, chosen: Level)
    requires Startable(level, files, chosen)
    ensures chosen != []
  {
  }

  /** Inputs of a range compaction; below level 0 a long range is cut after about one file's size. */
  method CompactRange(v: Version, level: nat, begin: Bound, end: Bound, maxFileSize: nat) returns (c: Option<Inputs>)
    requires ValidVersion(v) && level + 1 < NUM_LEVELS
    ensures c.Some? ==> GoodInputs(v, c.value) && c.value.level == level && RangeTo(v, level, begin, end, maxFileSize, c.value)
    ensures c.None? ==> forall f :: f in v[level] ==> !Overlaps(f, begin, end)
  {
    hide ValidVersion, GoodInputs, OverlapResult, Startable, CompletesTo, SortedDisjoint, TotalFileSize, ValidFiles;
    LevelFacts(v, level);
    var inputs := GetOverlappingInputs(level, v[level], begin, end);
    if inputs == [] {
      forall f | f in v[level] ensures !Overlaps(f, begin, end) {
        if Overlaps(f, begin, end) {
          OverlapContains(level, v[level], begin, end, inputs, f);
        }
      }
      return None;
    }
    OverlapStartable(level, v[level], begin, end, inputs);
    ghost var all := inputs;
    assert all[..|all|] == all;
    if level > 0 {
      var n := SizePrefix(inputs, maxFileSize);
      PrefixStartable(level, v[level], inputs, n);
      inputs := inputs[..n];
    }
    var r := SetupOtherInputs(v, level, inputs, maxFileSize);
    assert IsPrefix(all, |inputs|, level, maxFileSize) && all[..|inputs|] == inputs;
    c := Some(r);
  }

  lemma PrefixStartable(level: nat, files: Level, inputs: Level, n: nat)
    requires level > 0 && Startable(level, files, inputs) && 0 < n <= |inputs|
    ensures Startable(level, files, inputs[..n])
  {
    var i, j :| 0 <= i < j <= |files| && inputs == files[i..j];
    assert inputs[..n] == files[i..i + n];
  }

  /** Length of the shortest prefix holding at least `limit` bytes; all files when there is none. */
  method SizePrefix(inputs: Level, limit: nat) returns (n: nat)
    requires inputs != []
    ensures 0 < n <= |inputs|
    ensures TotalFileSize(inputs[..n - 1]) < limit || n == 1
    ensures TotalFileSize(inputs[..n]) >= limit || n == |inputs|
  {
    var total := 0;
    n := 0;
    while n < |inputs|
      invariant 0 <= n <= |inputs|
      invariant total == TotalFileSize(inputs[..n]) && (n > 0 ==> total < limit)
    {
      TotalNext(inputs, n);
      total := total + inputs[n].size;
      n := n + 1;
      if total >= limit {
        break;
      }
    }
    if n > 0 {
      TotalNext(inputs, n - 1);
    }
  }

  lemma {:induction false} TotalNext(files: Level, n: nat)
    requires n < |files|
    ensures TotalFileSize(files[..n + 1]) == TotalFileSize(files[..n]) + files[n].size
  {
    if n > 0 {
      TotalNext(files[1..], n - 1);
      assert files[..n + 1][1..] == files[1..][..n] && files[..n][1..] == files[1..][..n - 1];
    }
  }

  /** Inputs of an automatic compaction: the file that was read too often, or else the first file
      after the place the last compaction of the level reached, wrapping around. */
  method PickCompaction(v: Version, level: nat, seekFile: Option<File>, compactPointer: Option<InternalKey>, maxFileSize: nat)
    returns (c: Inputs)
    requires ValidVersion(v) && level + 1 < NUM_LEVELS && v[level] != []
    requires seekFile.Some? ==> seekFile.value in v[level]
    ensures GoodInputs(v, c) && c.level == level
    ensures seekFile.Some? ==> seekFile.value in c.upper
    ensures PickedTo(v, level, seekFile, compactPointer, maxFileSize, c)
  {
    hide ValidVersion;
    hide GoodInputs;
    hide SortedDisjoint;
    hide SortedBySmallest;
    LevelFacts(v, level);
    var picked := v[level][0];
    if seekFile.Some? {
      picked := seekFile.value;
    } else {
      var i := 0;
      while i < |v[level]|
        invariant 0 <= i <= |v[level]| && picked == v[level][0]
        invariant forall j :: 0 <= j < i ==> !Behind(v[level], compactPointer, j)
      {
        if compactPointer.None? || Less(compactPointer.value, v[level][i].largest) {
          picked := v[level][i];
          assert Behind(v[level], compactPointer, i);
          break;
        }
        i := i + 1;
      }
    }
    assert IsPicked(v[level], seekFile, compactPointer, picked);
    var chosen := [picked];
    var files := v[level];
    assert ValidFile(picked);
    if level == 0 {
      var smallest, largest := GetRange(chosen);
      assert smallest == picked.smallest && largest == picked.largest;
      chosen := GetOverlappingInputs(0, files, Some(smallest.user), Some(largest.user));
      FileBounds(picked, picked.entries[0]);
      assert picked in [picked] && forall f :: f in [picked] ==> f == picked;
      OverlapContains(0, files, Some(smallest.user), Some(largest.user), chosen, picked);
      OverlapStartable(0, files, Some(smallest.user), Some(largest.user), chosen);
    } else {
      ghost var k :| 0 <= k < |files| && files[k] == picked;
      assert chosen == files[k..k + 1];
    }
    c := SetupOtherInputs(v, level, chosen, maxFileSize);
  }

  ghost predicate Meeting(files: Level, lo: UserKey, hi: UserKey) {
    exists f :: f in files && Overlaps(f, Some(lo), Some(hi))
  }

  /** As deep as 2, while no file of the level or a shallower one meets the range; what stops it higher up
      is a file there or one level down, or more than ten file sizes of files two levels down. */
  ghost predicate SinksTo(v: Version, lo: UserKey, hi: UserKey, maxFileSize: nat, level: nat) {
    && level <= 2
    && (level > 0 ==> forall l :: 0 <= l <= level ==> !Meeting(v[l], lo, hi))
    && (level < 2 ==>
          || Meeting(v[0], lo, hi)
          || Meeting(v[level + 1], lo, hi)
          || TotalFileSize(Overlapping(v[level + 2], Some(lo), Some(hi))) > 10 * maxFileSize)
  }

  lemma SortedResult(level: nat, files: Level, lo: Bound, hi: Bound, r: Level)
    requires level > 0 && OverlapResult(level, files, lo, hi, r)
    ensures r == Overlapping(files, lo, hi)
  {
  }

  /** Level for a flushed memtable: 0, or down to 2 while nothing on the way overlaps its keys. */
  method PickLevelForMemTableOutput(v: Version, lo: UserKey, hi: UserKey, maxFileSize: nat) returns (level: nat)
    requires ValidVersion(v)
    ensures SinksTo(v, lo, hi, maxFileSize, level)
  {
    hide ValidVersion, ValidFiles, SortedDisjoint, SortedBySmallest, Overlaps, Overlapping, TotalFileSize, OverlapResult;
    level := 0;
    LevelFacts(v, 0);
    var overlap := SomeFileOverlapsRange(false, v[0], Some(lo), Some(hi));
    if !overlap {
      while level < 2
        invariant level <= 2
        invariant forall l :: 0 <= l <= level ==> !Meeting(v[l], lo, hi)
      {
        LevelFacts(v, level + 1);
        overlap := SomeFileOverlapsRange(true, v[level + 1], Some(lo), Some(hi));
        if overlap {
          break;
        }
        LevelFacts(v, level + 2);
        if level + 2 < NUM_LEVELS {
          var overlaps := GetOverlappingInputs(level + 2, v[level + 2], Some(lo), Some(hi));
          SortedResult(level + 2, v[level + 2], Some(lo), Some(hi), overlaps);
          if TotalFileSize(overlaps) > MaxGrandParentOverlapBytes(maxFileSize) {
            break;
          }
        }
        level := level + 1;
      }
    }
  }
}
