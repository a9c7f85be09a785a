/** The log reader, block-buffered, against a reader that sees the whole file. */
module LogReader {
  import opened InternalKeys
  import opened Crc32c
  import opened Coding
  import opened LogFormat

  // ---- The file as a whole ----

  datatype Piece = Eof | Bad | Piece(kind: Byte, data: Bytes)

  /** What one physical read finds, where the next one starts, and how many corruptions it reports. */
  datatype PieceRead = PieceRead(piece: Piece, next: nat, reports: nat)

  function BlockEnd(q: nat): nat {
    q / BLOCK * BLOCK + BLOCK
  }

  /** The bytes of the block at `q` that are in the file; `last` if the file ends in this block. */
  function Parse(buffer: Bytes, q: nat, last: bool): (r: PieceRead)
    requires |buffer| >= HEADER
    ensures !r.piece.Eof? ==> q < r.next
    ensures r.next <= q + |buffer|
  {
    var length := buffer[4] as int + buffer[5] as int * 256;
    var kind := buffer[6];
    if HEADER + length > |buffer| then
      if last then PieceRead(Eof, q + |buffer|, 0) else PieceRead(Bad, q + |buffer|, 1)
    else if kind == 0 && length == 0 then
      PieceRead(Bad, q + |buffer|, 0)
    else if Unmask(FromStored(buffer[..4])) != Extended(0, Bits(buffer[6..HEADER + length])) then
      PieceRead(Bad, q + |buffer|, 1)
    else
      PieceRead(Piece.Piece(kind, buffer[HEADER..HEADER + length]), q + HEADER + length, 0)
  }

  function FromStored(b: Bytes): bv32
    requires |b| == 4
  {
    Pow256();
    FromFixed(b) as bv32
  }

  /** The next physical record at or after `q`. */
  function ReadPiece(file: Bytes, q: nat): (r: PieceRead)
    requires q <= |file|
    ensures !r.piece.Eof? ==> q < r.next
    ensures r.next <= |file|
    decreases |file| - q
  {
    var last := BlockEnd(q) > |file|;
    var end := if last then |file| else BlockEnd(q);
    if end - q < HEADER then
      if last then PieceRead(Eof, |file|, 0) else ReadPiece(file, end)
    else
      Parse(file[q..end], q, last)
  }

  datatype RecordRead = RecordRead(record: Option<Bytes>, next: nat, reports: nat)

  /** The next record at or after `q`, with `partial` read of it already. */
  function ReadFrom(file: Bytes, q: nat, partial: Option<Bytes>): (r: RecordRead)
    requires q <= |file|
    ensures r.next <= |file| && (r.record.Some? ==> q < r.next)
    decreases |file| - q
  {
    var p := ReadPiece(file, q);
    if Finishes(p.piece, partial) then
      RecordRead(Finished(p.piece, partial), p.next, p.reports + ExtraReports(p.piece, partial))
    else
      Reported(ReadFrom(file, p.next, Kept(p.piece, partial)), p.reports + ExtraReports(p.piece, partial))
  }

  /** Whether a piece ends the search for a record. */
  predicate Finishes(p: Piece, partial: Option<Bytes>) {
    p.Eof? || (p.Piece? && (p.kind == FULL || (p.kind == LAST && partial.Some?)))
  }

  function Finished(p: Piece, partial: Option<Bytes>): Option<Bytes>
    requires Finishes(p, partial)
  {
    if p.Eof? then None else if p.kind == FULL then Some(p.data) else Some(partial.value + p.data)
  }

  /** What is kept of a record still incomplete after a piece. */
  function Kept(p: Piece, partial: Option<Bytes>): Option<Bytes> {
    if p.Piece? && p.kind == FIRST then Some(p.data)
    else if p.Piece? && p.kind == MIDDLE && partial.Some? then Some(partial.value + p.data)
    else None
  }

  /** Corruptions reported on account of a piece that does not fit what was read before. */
  function ExtraReports(p: Piece, partial: Option<Bytes>): nat {
    match p
    case Eof => 0
    case Bad => if partial.Some? then 1 else 0
    case Piece(kind, data) =>
      if kind == FULL || kind == FIRST then (if partial.Some? && partial.value != [] then 1 else 0)
      else if kind == MIDDLE || kind == LAST then (if partial.None? then 1 else 0)
      else 1
  }

  function Reported(r: RecordRead, n: nat): RecordRead {
    r.(reports := r.reports + n)
  }

  // ---- The buffered reader ----

  lemma ReadFromIs(file: Bytes, q: nat, partial: Option<Bytes>)
    requires q <= |file|
    ensures var p := ReadPiece(file, q);
            ReadFrom(file, q, partial) ==
              if Finishes(p.piece, partial) then
                RecordRead(Finished(p.piece, partial), p.next, p.reports + ExtraReports(p.piece, partial))
              else
                Reported(ReadFrom(file, p.next, Kept(p.piece, partial)), p.reports + ExtraReports(p.piece, partial))
  {
  }

  lemma SameBlock(q: nat, p: nat, end: nat)
    requires q <= p
    ensures p < BlockEnd(q) ==> BlockEnd(p) == BlockEnd(q)
  {
  }

  /** A trailer too short for a header is skipped: reading goes on with the next block. */
  lemma BlockLoads(file: Bytes, q: nat, end: nat, n: nat)
    requires n < HEADER && q + n == end <= |file| && end % BLOCK == 0
    requires n > 0 ==> end == BlockEnd(q) && BlockEnd(q) <= |file|
    ensures ReadPiece(file, q) == ReadPiece(file, end)
    ensures BlockEnd(end) == end + BLOCK
  {
    hide Parse;
  }

  lemma FileEnds(file: Bytes, q: nat)
    requires |file| - HEADER < q <= |file| < BlockEnd(q) || q == |file|
    ensures ReadPiece(file, q) == PieceRead(Eof, |file|, 0)
  {
  }

  lemma PieceIsParsed(file: Bytes, q: nat)
    requires q <= |file|
    ensures var last := BlockEnd(q) > |file|;
            var end := if last then |file| else BlockEnd(q);
            end - q >= HEADER ==> ReadPiece(file, q) == Parse(file[q..end], q, last)
  {
  }

  class Reader {
    const file: Bytes
    var buffer: Bytes
    var eof: bool
    var endOfBufferOffset: nat
    /** How many corruptions were reported. */
    var reports: nat

    /** The position in the file of the next unread byte. */
    ghost function Position(): nat
      requires |buffer| <= endOfBufferOffset
      reads this`buffer, this`endOfBufferOffset
    {
      endOfBufferOffset - |buffer|
    }

    ghost predicate Valid()
      reads this`buffer, this`eof, this`endOfBufferOffset
    {
      && |buffer| <= endOfBufferOffset <= |file|
      && buffer == file[endOfBufferOffset - |buffer|..endOfBufferOffset]
      && (eof ==> endOfBufferOffset == |file|)
      && (!eof ==> endOfBufferOffset % BLOCK == 0)
      && (buffer != [] ==> eof == (BlockEnd(Position()) > |file|))
      && (buffer != [] && !eof ==> endOfBufferOffset == BlockEnd(Position()))
    }

    lemma ValidPosition()
      requires Valid()
      ensures |buffer| <= endOfBufferOffset <= |file|
    {
    }

    constructor (file: Bytes)
      ensures Valid() && this.file == file && buffer == [] && endOfBufferOffset == 0 && reports == 0
    {
      this.file := file;
      buffer, eof, endOfBufferOffset, reports := [], false, 0, 0;
    }

    /** Reads a block when too little is buffered; false at the end of the file. */
    method FillBuffer() returns (ok: bool)
      requires Valid()
      modifies this
      ensures Valid() && reports == old(reports)
      ensures ok ==> |buffer| >= HEADER && ReadPiece(file, old(Position())) == Parse(buffer, Position(), eof)
      ensures !ok ==> ReadPiece(file, old(Position())) == PieceRead(Eof, Position(), 0)
    {
      hide Parse;
      hide ReadPiece;
      hide BlockEnd;
      ghost var q := Position();
      while |buffer| < HEADER
        invariant Valid() && reports == old(reports)
        invariant ReadPiece(file, Position()) == ReadPiece(file, q)
        decreases |file| - endOfBufferOffset, if eof then 0 else 1
      {
        if !eof {
          ghost var b := buffer;
          var n := if |file| - endOfBufferOffset < BLOCK then |file| - endOfBufferOffset else BLOCK;
          BlockLoads(file, Position(), endOfBufferOffset, |b|);
          buffer := file[endOfBufferOffset..endOfBufferOffset + n];
          endOfBufferOffset := endOfBufferOffset + n;
          if n < BLOCK {
            eof := true;
          }
        } else {
          FileEnds(file, Position());
          buffer := [];
          return false;
        }
      }
      PieceIsParsed(file, Position());
      return true;
    }

    /** Takes the record at the front of the buffer; a bad one takes all of the buffer with it. */
    static method ParseBuffer(buffer: Bytes, eof: bool, ghost q: nat) returns (p: Piece, rest: Bytes, bad: bool)
      requires |buffer| >= HEADER
      ensures |rest| <= |buffer| && rest == buffer[|buffer| - |rest|..]
      ensures Parse(buffer, q, eof) == PieceRead(p, q + |buffer| - |rest|, if bad then 1 else 0)
    {
      hide FromStored, Extended, Bits, Unmask;
      var length := buffer[4] as int + buffer[5] as int * 256;
      var kind := buffer[6];
      rest, bad := [], false;
      if HEADER + length > |buffer| {
        if !eof {
          bad := true;
          p := Bad;
        } else {
          p := Eof;
        }
      } else if kind == 0 && length == 0 {
        p := Bad;
      } else if Unmask(FromStored(buffer[..4])) != Extended(0, Bits(buffer[6..HEADER + length])) {
        bad := true;
        p := Bad;
      } else {
        p := Piece.Piece(kind, buffer[HEADER..HEADER + length]);
        rest := buffer[HEADER + length..];
      }
    }

    method ReadPhysicalRecord() returns (p: Piece)
      requires Valid()
      modifies this
      ensures Valid() && reports >= old(reports)
      ensures |buffer| <= endOfBufferOffset <= |file|
      ensures ReadPiece(file, old(Position())) == PieceRead(p, Position(), reports - old(reports))
    {
      hide ReadPiece, Parse, BlockEnd;
      var ok := FillBuffer();
      if !ok {
        return Eof;
      }
      var rest;
      var bad;
      p, rest, bad := ParseBuffer(buffer, eof, Position());
      if rest != [] {
        SameBlock(Position(), Position() + |buffer| - |rest|, endOfBufferOffset);
      }
      assert rest == file[endOfBufferOffset - |rest|..endOfBufferOffset];
      buffer := rest;
      if bad {
        reports := reports + 1;
      }
    }

    method ReadRecord() returns (record: Option<Bytes>)
      requires Valid()
      modifies this
      ensures Valid() && |buffer| <= endOfBufferOffset <= |file|
      ensures reports >= old(reports)
      ensures ReadFrom(file, old(Position()), None) == RecordRead(record, Position(), reports - old(reports))
    {
      hide ReadPiece;
      hide ReadFrom;
      hide Valid;
      ValidPosition();
      var scratch: Bytes := [];
      var inFragmented := false;
      while true
        invariant Valid() && reports >= old(reports) && |buffer| <= endOfBufferOffset <= |file|
        invariant ReadFrom(file, old(Position()), None) ==
                  Reported(ReadFrom(file, Position(), if inFragmented then Some(scratch) else None), reports - old(reports))
        decreases |file| - Position()
      {
        ReadFromIs(file, Position(), if inFragmented then Some(scratch) else None);
        var p := ReadPhysicalRecord();
        match p {
          case Eof =>
            return None;
          case Bad =>
            if inFragmented {
              reports := reports + 1;
              inFragmented, scratch := false, [];
            }
          case Piece(kind, data) =>
            if kind == FULL {
              if inFragmented && scratch != [] {
                reports := reports + 1;
              }
              return Some(data);
            } else if kind == FIRST {
              if inFragmented && scratch != [] {
                reports := reports + 1;
              }
              scratch, inFragmented := data, true;
            } else if kind == MIDDLE {
              if !inFragmented {
                reports := reports + 1;
              } else {
                scratch := scratch + data;
              }
            } else if kind == LAST {
              if !inFragmented {
                reports := reports + 1;
              } else {
                return Some(scratch + data);
              }
            } else {
              reports := reports + 1;
              inFragmented, scratch := false, [];
            }
        }
      }
    }
  }

  // ---- Replay ----

  datatype Replay = Replay(records: seq<Bytes>, reports: nat)

  /** All records from `q` on, and the corruptions reported on the way. */
  function ReadAll(file: Bytes, q: nat): Replay
    requires q <= |file|
    decreases |file| - q
  {
    var r := ReadFrom(file, q, None);
    if r.record.None? then Replay([], r.reports)
    else
      var rest := ReadAll(file, r.next);
      Replay([r.record.value] + rest.records, r.reports + rest.reports)
  }

  /** The replay loop of recovery. */
  method RecoverLog(file: Bytes) returns (r: Replay)
    ensures r == ReadAll(file, 0)
  {
    hide ReadFrom;
    var reader := new Reader(file);
    var records: seq<Bytes> := [];
    while true
      invariant fresh(reader) && reader.Valid() && reader.file == file
      invariant var rest := ReadAll(file, reader.Position());
                ReadAll(file, 0) == Replay(records + rest.records, reader.reports + rest.reports)
      decreases |file| - reader.Position()
    {
      var record := reader.ReadRecord();
      if record.None? {
        return Replay(records, reader.reports);
      }
      assert forall rest: seq<Bytes> :: records + ([record.value] + rest) == (records + [record.value]) + rest;
      records := records + [record.value];
    }
  }
}
