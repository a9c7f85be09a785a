/** Reading back a log cut at any byte yields exactly the records that lie wholly before the cut. */
module LogRecovery {
  import opened InternalKeys
  import opened Crc32c
  import opened Coding
  import opened Sequences
  import opened LogFormat
  import opened LogReader
  import opened LogWriter

  // ---- One fragment ----

  lemma ChecksumsAgree(f: Fragment)
    ensures Checksum(f.kind, f.data) == Extended(0, Bits([f.kind] + f.data))
  {
    hide Extended;
    BitsConcat([f.kind], f.data);
    ExtendedConcat(0, Bits([f.kind]), Bits(f.data));
  }

  lemma StoredChecksum(x: bv32)
    ensures Unmask(FromStored(Fixed(Mask(x) as int, 4))) == x
  {
    hide Mask;
    hide Unmask;
    StoredBack(Mask(x));
    UnmaskMask(x);
  }

  /** The parts of a physical record. */
  lemma PhysicalParts(f: Fragment)
    requires |f.data| <= 0xffff
    ensures var b := Physical(f);
            && b[..4] == Fixed(Mask(Checksum(f.kind, f.data)) as int, 4)
            && b[4] as int + b[5] as int * 256 == |f.data|
            && b[6] == f.kind
            && b[6..HEADER + |f.data|] == [f.kind] + f.data
            && b[HEADER..HEADER + |f.data|] == f.data
  {
    hide Mask;
    hide Checksum;
    hide Fixed;
  }

  /** Parsing at a fragment cut at the end of the file. */
  lemma ParsePhysical(buffer: Bytes, f: Fragment, q: nat, last: bool)
    requires |buffer| >= HEADER && |f.data| <= 0xffff && 1 <= f.kind <= 4
    requires |buffer| >= HEADER + |f.data| ==> buffer[..HEADER + |f.data|] == Physical(f)
    requires |buffer| < HEADER + |f.data| ==> last && buffer == Physical(f)[..|buffer|]
    ensures Parse(buffer, q, last) ==
            if |buffer| >= HEADER + |f.data| then PieceRead(Piece.Piece(f.kind, f.data), q + HEADER + |f.data|, 0)
            else PieceRead(Eof, q + |buffer|, 0)
  {
    hide Extended;
    hide Unmask;
    hide FromStored;
    hide Mask;
    hide Checksum;
    hide Bits;
    hide Fixed;
    hide Header;
    PhysicalParts(f);
    ChecksumsAgree(f);
    StoredChecksum(Checksum(f.kind, f.data));
    hide Physical;
    var b := Physical(f);
    if |buffer| >= HEADER + |f.data| {
      var e := HEADER + |f.data|;
      assert buffer[..4] == buffer[..e][..4] && buffer[4] == b[4] && buffer[5] == b[5] && buffer[6] == b[6];
      assert buffer[6..e] == buffer[..e][6..e] && buffer[HEADER..e] == buffer[..e][HEADER..e];
    } else {
      assert buffer[4] == b[4] && buffer[5] == b[5];
    }
  }

  /** Where fragment `k` begins being written. */
  function EndOf(fs: seq<Fragment>, k: nat): nat
    requires k <= |fs|
  {
    |LogOf(fs[..k])|
  }

  lemma StartInBlock(p: nat)
    ensures Start(p) != p ==> Start(p) == BlockEnd(p)
    ensures Start(p) % BLOCK + HEADER <= BLOCK
    ensures BlockEnd(Start(p)) == Start(p) - Start(p) % BLOCK + BLOCK
  {
  }

  /** The physical read at a fragment boundary of a cut log. */
  lemma PieceAt(fs: seq<Fragment>, n: nat, k: nat)
    requires Fits(fs) && k <= |fs| && EndOf(fs, k) <= n <= |LogOf(fs)|
    ensures ReadPiece(LogOf(fs)[..n], EndOf(fs, k)) ==
            if k < |fs| && EndOf(fs, k + 1) <= n then PieceRead(Piece.Piece(fs[k].kind, fs[k].data), EndOf(fs, k + 1), 0)
            else PieceRead(Eof, n, 0)
  {
    hide LogOf;
    hide ReadPiece;
    hide Start;
    hide BlockEnd;
    hide Parse;
    hide Physical;
    hide Fits;
    var file, q := LogOf(fs)[..n], EndOf(fs, k);
    if k == |fs| {
      assert fs[..k] == fs;
      FileEnds(file, q);
    } else {
      FragmentAt(fs, k);
      FitsFrom(fs, k);
      StartInBlock(q);
      var s, f := Start(q), fs[k];
      var e := s + HEADER + |f.data|;
      if s > n {
        FileEnds(file, q);
      } else {
        if s != q {
          BlockLoads(file, q, s, s - q);
        }
        PieceFrom(LogOf(fs), n, s, f);
      }
    }
  }

  /** The physical read at the first byte of a fragment. */
  lemma PieceFrom(whole: Bytes, n: nat, s: nat, f: Fragment)
    requires 1 <= f.kind <= 4 && |f.data| <= 0xffff && s <= n <= |whole| && s % BLOCK + HEADER + |f.data| <= BLOCK
    requires s + HEADER + |f.data| <= |whole| && whole[s..s + HEADER + |f.data|] == Physical(f)
    ensures ReadPiece(whole[..n], s) ==
            if s + HEADER + |f.data| <= n then PieceRead(Piece.Piece(f.kind, f.data), s + HEADER + |f.data|, 0)
            else PieceRead(Eof, n, 0)
  {
    hide ReadPiece;
    hide Parse;
    hide Physical;
    var file, e := whole[..n], s + HEADER + |f.data|;
    var last := BlockEnd(s) > n;
    var end := if last then n else BlockEnd(s);
    if end - s < HEADER {
      FileEnds(file, s);
    } else {
      PieceIsParsed(file, s);
      var buffer := file[s..end];
      if e <= end {
        SubSlice(whole, 0, n, s, end - s);
        SubSlice(whole, s, end - s, 0, e - s);
      } else {
        SubSlice(whole, 0, n, s, end - s);
        SubSlice(whole, s, e - s, 0, end - s);
        assert buffer == whole[s..e][0..end - s] == whole[s..e][..|buffer|];
      }
      ParsePhysical(buffer, f, s, last);
    }
  }

  // ---- One record ----

  /** Fragment `k` and the following ones are those of `part`. */
  ghost predicate Holds(fs: seq<Fragment>, k: nat, part: seq<Fragment>) {
    k + |part| <= |fs| && forall i :: 0 <= i < |part| ==> part[i] == fs[k + i]
  }

  /** Reading on from fragment `k` when `acc` of the record is read already. */
  lemma {:induction false} RecordAt(fs: seq<Fragment>, n: nat, k: nat, data: Bytes, begin: bool, acc: Bytes)
    requires Fits(fs) && k <= |fs| && Holds(fs, k, Split(EndOf(fs, k), data, begin))
    requires EndOf(fs, k) <= n <= |LogOf(fs)| && (begin ==> acc == [])
    ensures var k' := k + |Split(EndOf(fs, k), data, begin)|;
            ReadFrom(LogOf(fs)[..n], EndOf(fs, k), if begin then None else Some(acc)) ==
              if EndOf(fs, k') <= n then RecordRead(Some(acc + data), EndOf(fs, k'), 0) else RecordRead(None, n, 0)
    decreases |data|, Room(Start(EndOf(fs, k))) == 0
  {
    hide LogOf;
    hide Fits;
    hide ReadFrom;
    hide ReadPiece;
    hide Split;
    hide EndOf;
    hide Start;
    hide Room;
    hide Holds;
    hide FirstFragment;
    EndWithin(fs, k, n);
    var file, q := LogOf(fs)[..n], EndOf(fs, k);
    var f := FirstFragment(q, data, begin);
    var partial := if begin then None else Some(acc);
    FirstHeld(fs, k, data, begin);
    KindOf(q, data, begin);
    PieceAt(fs, n, k);
    ReadFromIs(file, q, partial);
    if |f.data| == |data| {
      assert f.data == data;
      assert [] + data == data;
    } else {
      var rest := data[|f.data|..];
      RestHeld(fs, k, data, begin);
      EndNext(fs, k);
      EndsGrow(fs, k + 1, k + 1 + |Split(EndOf(fs, k + 1), rest, false)|);
      if EndOf(fs, k + 1) <= n {
        RoomNext(q);
        RecordAt(fs, n, k + 1, rest, false, acc + f.data);
        assert (acc + f.data) + rest == acc + data;
        assert [] + f.data == f.data;
      }
    }
  }

  lemma EndWithin(fs: seq<Fragment>, k: nat, n: nat)
    requires k <= |fs| && EndOf(fs, k) <= n <= |LogOf(fs)|
    ensures EndOf(fs, k) <= |LogOf(fs)[..n]|
  {
    hide LogOf;
  }

  lemma KindOf(q: nat, data: Bytes, begin: bool)
    ensures var f := FirstFragment(q, data, begin);
            f.kind == if begin && |f.data| == |data| then FULL else if begin then FIRST else if |f.data| == |data| then LAST else MIDDLE
  {
  }

  lemma FirstHeld(fs: seq<Fragment>, k: nat, data: Bytes, begin: bool)
    requires k <= |fs| && Holds(fs, k, Split(EndOf(fs, k), data, begin))
    ensures k < |fs| && fs[k] == FirstFragment(EndOf(fs, k), data, begin)
    ensures |fs[k].data| == |data| ==> |Split(EndOf(fs, k), data, begin)| == 1
  {
    hide LogOf;
    hide EndOf;
    hide Split;
    var part := Split(EndOf(fs, k), data, begin);
    SplitNext(EndOf(fs, k), data, begin);
    assert part[0] == fs[k + 0];
  }

  lemma EndsGrow(fs: seq<Fragment>, j: nat, k: nat)
    requires j <= k <= |fs|
    ensures EndOf(fs, j) <= EndOf(fs, k)
  {
    hide LogOf;
    LogPrefix(fs[..k], j);
    assert fs[..k][..j] == fs[..j];
  }

  lemma RestHeld(fs: seq<Fragment>, k: nat, data: Bytes, begin: bool)
    requires Fits(fs) && k < |fs| && fs[k] == FirstFragment(EndOf(fs, k), data, begin) && |fs[k].data| < |data|
    requires Holds(fs, k, Split(EndOf(fs, k), data, begin))
    ensures var rest := Split(EndOf(fs, k + 1), data[|fs[k].data|..], false);
            && Split(EndOf(fs, k), data, begin) == [fs[k]] + rest
            && Holds(fs, k + 1, rest) && k + 1 + |rest| <= |fs|
  {
    hide *;
    EndNext(fs, k);
    SplitNext(EndOf(fs, k), data, begin);
    RestOf(fs, k, fs[k], Split(EndOf(fs, k + 1), data[|fs[k].data|..], false));
  }

  lemma EndNext(fs: seq<Fragment>, k: nat)
    requires Fits(fs) && k < |fs|
    ensures EndOf(fs, k + 1) == Start(EndOf(fs, k)) + HEADER + |fs[k].data|
  {
    hide Fits;
    hide LogOf;
    hide Start;
    FragmentAt(fs, k);
  }

  lemma RestOf(fs: seq<Fragment>, k: nat, f: Fragment, rest: seq<Fragment>)
    requires Holds(fs, k, [f] + rest)
    ensures Holds(fs, k + 1, rest) && k + 1 + |rest| <= |fs|
  {
    var part := [f] + rest;
    forall i | 0 <= i < |rest| ensures rest[i] == fs[k + 1 + i] {
      assert part[i + 1] == fs[k + (i + 1)];
    }
  }

  // ---- The log of a list of records ----

  lemma {:induction false} SplitFits(fs: seq<Fragment>, data: Bytes, begin: bool)
    requires Fits(fs)
    ensures Fits(fs + Split(|LogOf(fs)|, data, begin))
    decreases |data|, Room(Start(|LogOf(fs)|)) == 0
  {
    hide *;
    var p := |LogOf(fs)|;
    var f := FirstFragment(p, data, begin);
    SplitNext(p, data, begin);
    FirstFits(p, data, begin);
    Extends(fs, f);
    if |f.data| < |data| {
      var rest := data[|f.data|..];
      RoomNext(p);
      SplitFits(fs + [f], rest, false);
      Associate(fs, [f], Split(|LogOf(fs + [f])|, rest, false));
    } else {
      assert [f] + [] == [f];
    }
  }

  lemma FirstFits(p: nat, data: Bytes, begin: bool)
    ensures FitsAt(p, FirstFragment(p, data, begin))
  {
  }

  lemma {:induction false} FragmentsFit(rs: seq<Bytes>)
    ensures Fits(Fragments(rs))
  {
    hide LogOf;
    hide Split;
    if rs != [] {
      hide Fits;
      FragmentsFit(rs[..|rs| - 1]);
      SplitFits(Fragments(rs[..|rs| - 1]), rs[|rs| - 1], true);
    }
  }

  lemma {:induction false} FragmentsPrefix(rs: seq<Bytes>, i: nat)
    requires i <= |rs|
    ensures |Fragments(rs[..i])| <= |Fragments(rs)| && Fragments(rs)[..|Fragments(rs[..i])|] == Fragments(rs[..i])
  {
    hide LogOf;
    hide Split;
    if i < |rs| {
      var init := rs[..|rs| - 1];
      FragmentsPrefix(init, i);
      assert init[..i] == rs[..i];
      assert Fragments(rs)[..|Fragments(init)|] == Fragments(init);
      assert Fragments(rs)[..|Fragments(rs[..i])|] == Fragments(init)[..|Fragments(rs[..i])|];
    } else {
      assert rs[..i] == rs;
    }
  }

  /** Where record `i` lies among the fragments. */
  lemma RecordHeld(rs: seq<Bytes>, i: nat)
    requires i < |rs|
    ensures var fs, k := Fragments(rs), |Fragments(rs[..i])|;
            && k <= |fs| && EndOf(fs, k) == |LogFile(rs[..i])|
            && var part := Split(EndOf(fs, k), rs[i], true);
               && k + |part| == |Fragments(rs[..i + 1])| <= |fs|
               && EndOf(fs, k + |part|) == |LogFile(rs[..i + 1])|
               && Holds(fs, k, part)
  {
    hide LogOf;
    hide Split;
    hide Fragments;
    FragmentsPrefix(rs, i);
    FragmentsPrefix(rs, i + 1);
    assert rs[..i + 1] == rs[..i] + [rs[i]];
    AppendRecord(rs[..i], rs[i]);
    var fs, k := Fragments(rs), |Fragments(rs[..i])|;
    var part := Split(EndOf(fs, k), rs[i], true);
    assert Fragments(rs[..i + 1]) == Fragments(rs[..i]) + part;
    HoldsSlice(fs, Fragments(rs[..i]), part);
  }

  lemma HoldsSlice(fs: seq<Fragment>, a: seq<Fragment>, part: seq<Fragment>)
    requires |a| + |part| <= |fs| && fs[..|a| + |part|] == a + part
    ensures Holds(fs, |a|, part)
  {
    forall i | 0 <= i < |part| ensures part[i] == fs[|a| + i] {
      assert fs[..|a| + |part|][|a| + i] == fs[|a| + i];
    }
  }

  /** Reading at the start of record `i` of a log cut at `n`. */
  lemma RecordOrEnd(rs: seq<Bytes>, n: nat, i: nat)
    requires i <= |rs| && |LogFile(rs[..i])| <= n <= |LogFile(rs)|
    ensures ReadFrom(LogFile(rs)[..n], |LogFile(rs[..i])|, None) ==
            if i < |rs| && |LogFile(rs[..i + 1])| <= n then RecordRead(Some(rs[i]), |LogFile(rs[..i + 1])|, 0)
            else RecordRead(None, n, 0)
  {
    hide LogOf;
    hide Split;
    hide Fragments;
    hide Fits;
    hide Holds;
    hide ReadFrom;
    hide ReadPiece;
    var fs := Fragments(rs);
    FragmentsFit(rs);
    if i < |rs| {
      RecordHeld(rs, i);
      RecordAt(fs, n, |Fragments(rs[..i])|, rs[i], true, []);
      assert [] + rs[i] == rs[i];
    } else {
      assert rs[..i] == rs && fs[..|fs|] == fs;
      PieceAt(fs, n, |fs|);
      ReadFromIs(LogFile(rs)[..n], n, None);
    }
  }

  // ---- The theorem ----

  /** How many records lie wholly in the first `n` bytes. */
  function Whole(rs: seq<Bytes>, n: nat): (c: nat)
    ensures c <= |rs|
  {
    if rs == [] then 0 else if |LogFile(rs)| <= n then |rs| else Whole(rs[..|rs| - 1], n)
  }

  lemma {:induction false} WholeIs(rs: seq<Bytes>, n: nat, i: nat)
    requires i <= |rs|
    ensures |LogFile(rs[..i])| <= n <==> i <= Whole(rs, n)
  {
    hide LogOf;
    hide Split;
    hide Fragments;
    if rs == [] {
      LogFileEmpty();
    } else {
      LogFileGrows(rs, i);
      var init := rs[..|rs| - 1];
      if i < |rs| {
        WholeIs(init, n, i);
        assert init[..i] == rs[..i];
      } else {
        assert rs[..i] == rs;
      }
    }
  }

  lemma LogFileEmpty()
    ensures LogFile([]) == []
  {
  }

  lemma LogFileGrows(rs: seq<Bytes>, i: nat)
    requires i <= |rs|
    ensures |LogFile(rs[..i])| <= |LogFile(rs)|
  {
    hide LogOf;
    hide Split;
    hide Fragments;
    FragmentsPrefix(rs, i);
    LogPrefix(Fragments(rs), |Fragments(rs[..i])|);
  }

  lemma {:induction false} ReadAllFrom(rs: seq<Bytes>, n: nat, i: nat)
    requires i <= Whole(rs, n) && n <= |LogFile(rs)| && |LogFile(rs[..i])| <= n
    ensures ReadAll(LogFile(rs)[..n], |LogFile(rs[..i])|) == Replay(rs[i..Whole(rs, n)], 0)
    decreases |rs| - i
  {
    hide LogFile;
    hide ReadFrom;
    hide Whole;
    RecordOrEnd(rs, n, i);
    if i < |rs| {
      WholeIs(rs, n, i + 1);
    }
    if i < Whole(rs, n) {
      ReadAllFrom(rs, n, i + 1);
      assert rs[i..Whole(rs, n)] == [rs[i]] + rs[i + 1..Whole(rs, n)];
    }
  }

  /** A log cut at any byte replays to the records wholly before the cut, in order, and reports nothing. */
  lemma CutLogReplays(rs: seq<Bytes>, n: nat)
    requires n <= |LogFile(rs)|
    ensures ReadAll(LogFile(rs)[..n], 0) == Replay(rs[..Whole(rs, n)], 0)
  {
    hide LogOf;
    assert rs[..0] == [];
    LogFileEmpty();
    ReadAllFrom(rs, n, 0);
  }
}
