/** What the log reader hands on is in the file, fragment by fragment, with the checksum stored with each. */
module LogSoundness {
  import opened InternalKeys
  import opened Crc32c
  import opened Coding
  import opened Sequences
  import opened LogFormat
  import opened LogReader
  import opened LogRecovery

  // ---- One fragment ----

  /** The bytes of the fragment are at `s`, within one block. */
  ghost predicate Stored(file: Bytes, s: nat, f: Fragment) {
    && s % BLOCK + HEADER + |f.data| <= BLOCK && s + HEADER + |f.data| <= |file|
    && file[s..s + HEADER + |f.data|] == Physical(f)
  }

  /** The checksum compared is the one of the fragment if and only if the bytes are those written for it. */
  lemma ChecksumTells(b: Bytes, f: Fragment)
    requires |f.data| <= 0xffff && |b| == HEADER + |f.data|
    requires b[4] as int + b[5] as int * 256 == |f.data| && b[6] == f.kind && b[HEADER..] == f.data
    ensures Unmask(FromStored(b[..4])) == Extended(0, Bits(b[6..])) <==> b == Physical(f)
  {
    hide Extended, Unmask, Mask, Bits, Fixed, FromFixed, Checksum, FromStored;
    StoredTells(b[..4], Checksum(f.kind, f.data));
    assert b[6..] == [f.kind] + f.data;
    ChecksumsAgree(f);
    PhysicalParts(f);
    assert b == b[..4] + [b[4], b[5], b[6]] + b[HEADER..];
  }

  lemma StoredTells(b: Bytes, sum: bv32)
    requires |b| == 4
    ensures Unmask(FromStored(b)) == sum <==> b == Fixed(Mask(sum) as int, 4)
  {
    hide Unmask, Mask, Fixed, FromFixed, FromStored;
    FixedOfBytes(b);
    StoredNumber(b);
    MaskUnmask(FromStored(b));
    StoredChecksum(sum);
  }

  lemma StoredNumber(b: Bytes)
    requires |b| == 4
    ensures FromStored(b) as int == FromFixed(b)
  {
    StoredBelow(b);
    hide FromFixed, Pow;
    WordBack(FromFixed(b));
  }

  lemma StoredBelow(b: Bytes)
    requires |b| == 4
    ensures FromFixed(b) < 0x1_0000_0000
  {
    Pow256();
  }

  lemma Doubled(y: bv32)
    requires y < 0x8000_0000
    ensures (y << 1) as int == 2 * y as int && ((y << 1) | 1) as int == 2 * y as int + 1
  {
  }

  lemma Small(y: bv32)
    ensures y as int < 0x8000_0000 ==> y < 0x8000_0000
    ensures (y as int) as bv32 == y
  {
  }

  /** Every number of 32 bits is that of a word. */
  lemma {:induction false} WordFor(x: nat) returns (y: bv32)
    requires x < 0x1_0000_0000
    ensures y as int == x
  {
    y := 0;
    if x > 0 {
      var half := WordFor(x / 2);
      Small(half);
      Doubled(half);
      y := if x % 2 == 0 then half << 1 else (half << 1) | 1;
    }
  }

  lemma WordBack(x: nat)
    requires x < 0x1_0000_0000
    ensures (x as bv32) as int == x
  {
    var y := WordFor(x);
    Small(y);
  }

  function LengthAt(file: Bytes, s: nat): nat
    requires s + HEADER <= |file|
  {
    file[s + 4] as int + file[s + 5] as int * 256
  }

  /** What a physical read tells of the file, whatever is in it: a piece is the fragment stored there; damage takes
      the rest of the block and is reported, unless type and length are zero; the end is the end of the
      file, behind less than a header or less than the length announced. */
  ghost predicate Tells(file: Bytes, s: nat, r: PieceRead) {
    var end := if BlockEnd(s) > |file| then |file| else BlockEnd(s);
    match r.piece
    case Piece(kind, data) =>
      Stored(file, s, Fragment(kind, data)) && r.next == s + HEADER + |data| && r.reports == 0
    case Bad =>
      && s + HEADER <= end && r.next == end
      && r.reports == (if file[s + 4..s + HEADER] == [0, 0, 0] then 0 else 1)
      && forall f: Fragment :: Stored(file, s, f) ==> f.kind == 0 && f.data == []
    case Eof =>
      && r.next == |file| && r.reports == 0
      && (s + HEADER <= |file| ==> BlockEnd(s) > |file| && s + HEADER + LengthAt(file, s) > |file|)
  }

  lemma ParseTells(file: Bytes, s: nat, end: nat)
    requires s + HEADER <= end <= |file| && s % BLOCK + HEADER <= BLOCK
    requires end == if BlockEnd(s) > |file| then |file| else BlockEnd(s)
    ensures Tells(file, s, Parse(file[s..end], s, BlockEnd(s) > |file|))
  {
    hide FromStored, Extended, Bits, Unmask, Stored, BlockEnd;
    var buffer := file[s..end];
    var length := buffer[4] as int + buffer[5] as int * 256;
    assert file[s + 4..s + HEADER] == [buffer[4], buffer[5], buffer[6]];
    StoredFits(file, s, end);
    if HEADER + length <= |buffer| {
      var e := s + HEADER + length;
      InBlock(s, end);
      WholeTells(file, s, e);
      SubSlice(file, s, end - s, 0, 4);
      SubSlice(file, s, end - s, 6, HEADER + length - 6);
      SubSlice(file, s, end - s, HEADER, length);
    }
  }

  lemma InBlock(s: nat, end: nat)
    requires end <= BlockEnd(s)
    ensures s % BLOCK + (end - s) <= BLOCK
  {
  }

  /** The checksum tells whether a fragment of the length announced is stored at a place. */
  lemma WholeTells(file: Bytes, s: nat, e: nat)
    requires s + HEADER <= e <= |file| && s % BLOCK + (e - s) <= BLOCK && e == s + HEADER + LengthAt(file, s)
    ensures var f := Fragment(file[s + 6], file[s + HEADER..e]);
            && (Unmask(FromStored(file[s..s + 4])) == Extended(0, Bits(file[s + 6..e])) <==> Stored(file, s, f))
            && forall g: Fragment :: Stored(file, s, g) ==> g == f
  {
    hide FromStored, Extended, Bits, Unmask, Physical;
    var f := Fragment(file[s + 6], file[s + HEADER..e]);
    var b := file[s..e];
    SubSlice(file, s, e - s, 0, 4);
    SubSlice(file, s, e - s, 6, e - s - 6);
    SubSlice(file, s, e - s, HEADER, e - s - HEADER);
    assert b[6..] == b[6..e - s] && b[HEADER..] == b[HEADER..e - s];
    ChecksumTells(b, f);
    forall g: Fragment | Stored(file, s, g) ensures g == f {
      PhysicalHeader(g, file, s);
      PhysicalData(g, file, s);
    }
  }

  /** A fragment lies within its block and has the type and length of its header. */
  lemma StoredFits(file: Bytes, s: nat, end: nat)
    requires s + HEADER <= end <= |file|
    requires end == if BlockEnd(s) > |file| then |file| else BlockEnd(s)
    ensures forall f: Fragment :: Stored(file, s, f) ==>
              f.kind == file[s + 6] && |f.data| == LengthAt(file, s) && s + HEADER + |f.data| <= end
  {
    forall f: Fragment | Stored(file, s, f)
      ensures f.kind == file[s + 6] && |f.data| == LengthAt(file, s) && s + HEADER + |f.data| <= end
    {
      PhysicalHeader(f, file, s);
      hide Physical;
    }
  }

  lemma PhysicalHeader(f: Fragment, file: Bytes, s: nat)
    requires Stored(file, s, f)
    ensures f.kind == file[s + 6] && |f.data| == LengthAt(file, s)
  {
    PhysicalParts(f);
    hide Physical;
    var b := file[s..s + HEADER + |f.data|];
    assert b[4] == file[s + 4] && b[5] == file[s + 5] && b[6] == file[s + 6];
  }

  lemma PhysicalData(f: Fragment, file: Bytes, s: nat)
    requires Stored(file, s, f)
    ensures f.data == file[s + HEADER..s + HEADER + |f.data|]
  {
    PhysicalParts(f);
    hide Physical;
    assert file[s..s + HEADER + |f.data|][HEADER..HEADER + |f.data|] == file[s + HEADER..s + HEADER + |f.data|];
  }

  lemma PieceTells(file: Bytes, q: nat)
    requires q <= |file|
    ensures Tells(file, Start(q), ReadPiece(file, q))
  {
    hide Tells, Parse, Start, BlockEnd;
    StartIs(q);
    var last := BlockEnd(q) > |file|;
    var end := if last then |file| else BlockEnd(q);
    if end - q >= HEADER {
      ParseTells(file, q, end);
    } else if last {
      EndTells(file, q);
    } else {
      StartIs(end);
      var end' := if BlockEnd(end) > |file| then |file| else BlockEnd(end);
      if end' - end >= HEADER {
        ParseTells(file, end, end');
      } else {
        EndTells(file, end);
      }
    }
  }

  lemma StartIs(q: nat)
    ensures q < BlockEnd(q)
    ensures BlockEnd(q) - q >= HEADER ==> Start(q) == q && q % BLOCK + HEADER <= BLOCK
    ensures BlockEnd(q) - q < HEADER ==> Start(q) == BlockEnd(q) == Start(BlockEnd(q))
    ensures BlockEnd(BlockEnd(q)) == BlockEnd(q) + BLOCK
  {
  }

  lemma EndTells(file: Bytes, q: nat)
    requires q <= |file| < BlockEnd(q) && |file| - q < HEADER
    ensures Tells(file, Start(q), PieceRead(Eof, |file|, 0))
  {
    hide BlockEnd, Start;
    StartIs(q);
  }

  // ---- Records ----

  /** The fragments are stored one behind the other, the first where one begins behind `p`. */
  ghost predicate InFile(file: Bytes, p: nat, fs: seq<Fragment>)
    decreases |fs|
  {
    fs == [] || (Stored(file, Start(p), fs[0]) && InFile(file, Behind(p, fs[0]), fs[1..]))
  }

  function Behind(p: nat, f: Fragment): nat {
    Start(p) + HEADER + |f.data|
  }

  function BehindAll(p: nat, fs: seq<Fragment>): nat
    decreases |fs|
  {
    if fs == [] then p else BehindAll(Behind(p, fs[0]), fs[1..])
  }

  function Joined(fs: seq<Fragment>): Bytes {
    if fs == [] then [] else fs[0].data + Joined(fs[1..])
  }

  ghost predicate Tail(fs: seq<Fragment>) {
    fs != [] && fs[|fs| - 1].kind == LAST && forall i :: 0 <= i < |fs| - 1 ==> fs[i].kind == MIDDLE
  }

  /** One full fragment, or a first, any number of middle ones and a last. */
  ghost predicate Whole(fs: seq<Fragment>) {
    fs != [] && ((|fs| == 1 && fs[0].kind == FULL) || (fs[0].kind == FIRST && Tail(fs[1..])))
  }

  /** A place with zero type and length, whose block is passed over, or an empty fragment. */
  ghost predicate Nothing(file: Bytes, q: nat, p: nat) {
    var s := Start(q);
    && s + HEADER <= |file|
    && (|| (file[s + 4..s + HEADER] == [0, 0, 0] && p == if BlockEnd(s) > |file| then |file| else BlockEnd(s))
        || (p == s + HEADER && (Stored(file, s, Fragment(FIRST, [])) || Stored(file, s, Fragment(MIDDLE, [])))))
  }

  /** Nothing is stored from `q` up to `p`. */
  ghost predicate NothingUpTo(file: Bytes, q: nat, p: nat)
    decreases p - q
  {
    q == p || exists m: nat :: q < m <= p && Nothing(file, q, m) && NothingUpTo(file, m, p)
  }

  /** The record stands in the file from `p` on. */
  ghost predicate Stands(file: Bytes, p: nat, fs: seq<Fragment>, record: Bytes, next: nat) {
    InFile(file, p, fs) && Whole(fs) && record == Joined(fs) && next == BehindAll(p, fs)
  }

  /** The rest of the record stands in the file from `q` on. */
  ghost predicate Continues(file: Bytes, q: nat, fs: seq<Fragment>, partial: Bytes, record: Bytes, next: nat) {
    InFile(file, q, fs) && Tail(fs) && record == partial + Joined(fs) && next == BehindAll(q, fs)
  }

  /** A record starts from a place behind `q`; nothing was lost before it if nothing was reported. */
  ghost predicate Fresh(file: Bytes, q: nat, partial: Option<Bytes>, r: RecordRead) {
    && r.record.Some?
    && (r.reports == 0 ==> partial.None? || partial.value == [])
    && exists p, fs :: q <= p && Stands(file, p, fs, r.record.value, r.next) && (r.reports == 0 ==> NothingUpTo(file, q, p))
  }

  ghost predicate Continued(file: Bytes, q: nat, partial: Option<Bytes>, r: RecordRead) {
    r.record.Some? && partial.Some? && exists fs :: Continues(file, q, fs, partial.value, r.record.value, r.next)
  }

  lemma {:induction false} ReadStands(file: Bytes, q: nat, partial: Option<Bytes>)
    requires q <= |file|
    ensures var r := ReadFrom(file, q, partial); r.record.Some? ==> Fresh(file, q, partial, r) || Continued(file, q, partial, r)
    decreases |file| - q
  {
    hide ReadFrom, ReadPiece, Stored, Fresh, Continued;
    var p := ReadPiece(file, q);
    var r := ReadFrom(file, q, partial);
    ReadFromIs(file, q, partial);
    PieceTells(file, q);
    if Finishes(p.piece, partial) {
      if p.piece.Piece? {
        Ends(file, q, partial, Fragment(p.piece.kind, p.piece.data), r);
      }
    } else {
      ReadStands(file, p.next, Kept(p.piece, partial));
      var r' := ReadFrom(file, p.next, Kept(p.piece, partial));
      if r.record.Some? {
        if Fresh(file, p.next, Kept(p.piece, partial), r') {
          StartsLater(file, q, partial, p, r', r);
        } else {
          GoesOn(file, q, partial, p, r', r);
        }
      }
    }
  }

  /** One more fragment in front. */
  lemma InFront(file: Bytes, q: nat, f: Fragment, fs: seq<Fragment>)
    ensures InFile(file, q, [f] + fs) <==> Stored(file, Start(q), f) && InFile(file, Behind(q, f), fs)
    ensures BehindAll(q, [f] + fs) == BehindAll(Behind(q, f), fs)
    ensures Joined([f] + fs) == f.data + Joined(fs)
    ensures Tail(fs) && f.kind == FIRST ==> Whole([f] + fs)
    ensures Tail(fs) && f.kind == MIDDLE ==> Tail([f] + fs)
  {
    hide Stored, Start, Behind;
    var all := [f] + fs;
    assert all[1..] == fs;
    if Tail(fs) {
      assert all[|all| - 1] == fs[|fs| - 1];
      assert forall i :: 0 < i < |all| - 1 ==> all[i] == fs[i - 1];
    }
  }

  lemma Ends(file: Bytes, q: nat, partial: Option<Bytes>, f: Fragment, r: RecordRead)
    requires Stored(file, Start(q), f) && r.record.Some? && r.next == Behind(q, f)
    requires if f.kind == FULL then r.record.value == f.data && (r.reports == 0 ==> partial.None? || partial.value == [])
             else f.kind == LAST && partial.Some? && r.record.value == partial.value + f.data
    ensures Fresh(file, q, partial, r) || Continued(file, q, partial, r)
  {
    hide Stored, Start, Behind;
    InFront(file, q, f, []);
    var fs := [f] + [];
    assert f.data + [] == f.data;
    hide InFile, BehindAll, Joined;
    EmptyEnds(file, Behind(q, f));
    if f.kind == FULL {
      assert Stands(file, q, fs, f.data, r.next);
      assert NothingUpTo(file, q, q);
    } else {
      assert Continues(file, q, fs, partial.value, r.record.value, r.next);
    }
  }

  lemma EmptyEnds(file: Bytes, q: nat)
    ensures InFile(file, q, []) && BehindAll(q, []) == q && Joined([]) == []
  {
  }

  lemma StartsLater(file: Bytes, q: nat, partial: Option<Bytes>, p: PieceRead, r': RecordRead, r: RecordRead)
    requires Tells(file, Start(q), p) && !p.piece.Eof? && !Finishes(p.piece, partial)
    requires Fresh(file, p.next, Kept(p.piece, partial), r')
    requires r == Reported(r', p.reports + ExtraReports(p.piece, partial))
    requires q < p.next
    ensures Fresh(file, q, partial, r) || Continued(file, q, partial, r)
  {
    hide Stands, NothingUpTo, Stored, Start, BlockEnd;
    var at, fs :| p.next <= at && Stands(file, at, fs, r'.record.value, r'.next) && (r'.reports == 0 ==> NothingUpTo(file, p.next, at));
    if r.reports == 0 {
      assert partial.None? || partial.value == [] by {
        if p.piece.Piece? && p.piece.kind == MIDDLE && partial.Some? {
          assert |partial.value + p.piece.data| >= |partial.value|;
        }
      }
      IsNothing(file, q, p);
      NothingOn(file, q, p.next, at);
    }
    assert Stands(file, at, fs, r.record.value, r.next);
  }

  lemma IsNothing(file: Bytes, q: nat, p: PieceRead)
    requires Tells(file, Start(q), p) && p.reports == 0
    requires p.piece.Bad? || (p.piece.Piece? && (p.piece.kind == FIRST || p.piece.kind == MIDDLE) && p.piece.data == [])
    ensures Nothing(file, q, p.next)
  {
    hide Physical, Start, BlockEnd;
  }

  lemma NothingOn(file: Bytes, q: nat, m: nat, p: nat)
    requires q < m <= p && Nothing(file, q, m) && NothingUpTo(file, m, p)
    ensures NothingUpTo(file, q, p)
  {
  }

  lemma GoesOn(file: Bytes, q: nat, partial: Option<Bytes>, p: PieceRead, r': RecordRead, r: RecordRead)
    requires Tells(file, Start(q), p) && !p.piece.Eof? && !Finishes(p.piece, partial)
    requires Continued(file, p.next, Kept(p.piece, partial), r')
    requires r == Reported(r', p.reports + ExtraReports(p.piece, partial))
    ensures Fresh(file, q, partial, r) || Continued(file, q, partial, r)
  {
    hide InFile, BehindAll, Joined, Stored, Tail, Whole, Start;
    var kept := Kept(p.piece, partial).value;
    var fs' :| Continues(file, p.next, fs', kept, r'.record.value, r'.next);
    var f := Fragment(p.piece.kind, p.piece.data);
    InFront(file, q, f, fs');
    var fs := [f] + fs';
    if f.kind == FIRST {
      assert Stands(file, q, fs, r.record.value, r.next);
      assert NothingUpTo(file, q, q);
    } else {
      assert (partial.value + f.data) + Joined(fs') == partial.value + (f.data + Joined(fs'));
      assert Continues(file, q, fs, partial.value, r.record.value, r.next);
    }
  }

  /** Whatever is in the file, a record read is in it as a full fragment, or as a first, middle and last ones without
      a gap, each with its checksum; and if nothing was reported, there was nothing before it. */
  lemma RecordStands(file: Bytes, q: nat)
    requires q <= |file|
    ensures var r := ReadFrom(file, q, None);
            r.record.Some? ==>
              exists p, fs :: q <= p && Stands(file, p, fs, r.record.value, r.next) && (r.reports == 0 ==> NothingUpTo(file, q, p))
  {
    hide ReadFrom, Stands;
    ReadStands(file, q, None);
  }

  // ---- The format ----

  /** The file of one record, the letter "a". */
  lemma LogBytes()
    ensures LogFile([[0x61]]) == [181, 205, 11, 162, 1, 0, 1, 0x61]
  {
    OneRecord([0x61]);
    OneFragment();
    FragmentBytes();
    hide *;
  }

  lemma OneFragment()
    ensures LogOf(Split(0, [0x61], true)) == Physical(Fragment(FULL, [0x61]))
  {
    var f := Fragment(FULL, [0x61]);
    assert f.data == [0x61][..1];
    assert FirstFragment(0, [0x61], true) == f;
    hide Physical;
    assert Split(0, [0x61], true) == [f];
    assert [f][..0] == [] && LogOf([]) == [];
    assert LogOf([f]) == Laid([], f);
    assert Laid([], f) == [] + [] + Physical(f);
  }

  lemma FragmentBytes()
    ensures Physical(Fragment(FULL, [0x61])) == [181, 205, 11, 162, 1, 0, 1, 0x61]
  {
    OneByteSum();
    StoredSum();
    hide Mask, Checksum, Fixed;
  }

  /** A block has room for 32761 bytes of one record; one more takes another fragment. */
  lemma BlockFills(data: Bytes)
    ensures |data| <= 32761 ==> |LogFile([data])| == |data| + 7
    ensures |data| == 32762 ==> |LogFile([data])| == |data| + 14
  {
    hide Laid;
    OneRecord(data);
    var f := FirstFragment(0, data, true);
    assert LogOf([]) == [];
    LaidLength([], f);
    assert [f][..0] == [];
    if |data| == 32762 {
      var g := FirstFragment(32768, data[32761..], false);
      assert Split(32768, data[32761..], false) == [g];
      assert Split(0, data, true) == [f, g];
      assert [f, g][..1] == [f];
      LaidLength(LogOf([f]), g);
    }
  }

  lemma OneRecord(data: Bytes)
    ensures LogFile([data]) == LogOf(Split(0, data, true))
  {
    assert [data][..0] == [] && Fragments([]) == [] && LogOf([]) == [];
    assert [] + Split(0, data, true) == Split(0, data, true);
  }

  lemma LaidLength(file: Bytes, f: Fragment)
    requires |f.data| <= 0xffff
    ensures |Laid(file, f)| == Start(|file|) + 7 + |f.data|
  {
  }

  lemma OneByteSum()
    ensures Mask(Checksum(1, [0x61])) == 0xa20b_cdb5
  {
    hide Fold;
    assert Bits([1]) + Bits([0x61]) == [1, 0x61];
    ExtendedConcat(0, Bits([1]), Bits([0x61]));
    var b: seq<bv8> := [1, 0x61];
    FoldNothing(0xffff_ffff, b);
    RegisterNext(b, 0, 0xffff_ffff, 0x5fe9_2fad);
    RegisterNext(b, 1, 0x5fe9_2fad, 0x8e91_003b);
    assert b[..2] == b;
  }

  lemma StoredSum()
    ensures Fixed(0xa20b_cdb5, 4) == [181, 205, 11, 162]
  {
  }
}
