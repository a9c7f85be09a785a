/** The log writer: it appends a record fragment by fragment, keeping only the offset in the block. */
module LogWriter {
  import opened InternalKeys
  import opened Crc32c
  import opened Coding
  import opened Sequences
  import opened LogFormat

  lemma LogOne(fs: seq<Fragment>, f: Fragment)
    ensures LogOf(fs + [f]) == Laid(LogOf(fs), f)
  {
    assert (fs + [f])[..|fs + [f]| - 1] == fs;
  }

  lemma FitsOne(fs: seq<Fragment>, f: Fragment)
    requires Fits(fs) && FitsAt(|LogOf(fs)|, f)
    ensures Fits(fs + [f])
  {
    assert (fs + [f])[..|fs + [f]| - 1] == fs;
  }

  /** The offset kept in the block tells where the next fragment starts and what room it has. */
  lemma OffsetTells(p: nat, offset: nat)
    requires offset <= BLOCK && offset % BLOCK == p % BLOCK
    ensures var pad := if BLOCK - offset < HEADER then BLOCK - offset else 0;
            && Start(p) == p + pad
            && Room(Start(p)) == BLOCK - HEADER - (if BLOCK - offset < HEADER then 0 else offset)
  {
  }

  lemma OffsetAfter(p: nat, offset: nat, n: nat)
    requires offset <= BLOCK && offset % BLOCK == p % BLOCK
    ensures ((if BLOCK - offset < HEADER then 0 else offset) + n) % BLOCK == (Start(p) + n) % BLOCK
  {
  }

  /** Padding and a fragment that has room extend the log by that fragment. */
  lemma Extends(fs: seq<Fragment>, f: Fragment)
    requires Fits(fs) && FitsAt(|LogOf(fs)|, f)
    ensures Fits(fs + [f]) && LogOf(fs + [f]) == Next(LogOf(fs), f)
  {
    FitsOne(fs, f);
    LogOne(fs, f);
  }

  /** The fragments `done` of `data` are written after the log of `fs`; the rest starts at `ptr`. */
  ghost predicate Writing(fs: seq<Fragment>, done: seq<Fragment>, file: Bytes, data: Bytes, ptr: nat, begin: bool) {
    && file == LogOf(fs + done) && Fits(fs + done) && ptr <= |data|
    && Split(|LogOf(fs)|, data, true) == done + Split(|file|, data[ptr..], begin)
  }

  ghost predicate Written(fs: seq<Fragment>, file: Bytes, data: Bytes) {
    var all := fs + Split(|LogOf(fs)|, data, true);
    file == LogOf(all) && Fits(all)
  }

  lemma SplitNext(p: nat, data: Bytes, begin: bool)
    ensures var f := FirstFragment(p, data, begin);
            Split(p, data, begin) ==
              [f] + (if |f.data| == |data| then [] else Split(Start(p) + HEADER + |f.data|, data[|f.data|..], false))
  {
  }

  lemma WriteStep(fs: seq<Fragment>, done: seq<Fragment>, file: Bytes, data: Bytes, ptr: nat, begin: bool) returns (f: Fragment)
    requires Writing(fs, done, file, data, ptr, begin)
    ensures f == FirstFragment(|file|, data[ptr..], begin)
    ensures var file' := Next(file, f);
            if ptr + |f.data| == |data| then Written(fs, file', data)
            else |file'| == Start(|file|) + HEADER + |f.data| && Writing(fs, done + [f], file', data, ptr + |f.data|, false)
  {
    hide LogOf;
    hide Fits;
    hide Split;
    hide FirstFragment;
    hide Next;
    hide Start;
    hide Room;
    var rest := data[ptr..];
    f := FirstFragment(|file|, rest, begin);
    SplitNext(|file|, rest, begin);
    Extends(fs + done, f);
    assert rest[|f.data|..] == data[ptr + |f.data|..];
    Associate(fs, done, [f]);
    assert [f] + [] == [f];
    if ptr + |f.data| < |data| {
      Associate(done, [f], Split(Start(|file|) + HEADER + |f.data|, rest[|f.data|..], false));
    }
  }

  lemma NextIs(file: Bytes, f: Fragment, leftover: nat)
    requires |f.data| <= 0xffff && Start(|file|) == |file| + (if leftover < HEADER then leftover else 0)
    ensures Next(file, f) == (if leftover < HEADER then file + Zeros(leftover) else file) + Physical(f)
  {
    assert file + Zeros(0) == file;
  }

  lemma FirstFragmentIs(p: nat, data: Bytes, begin: bool)
    ensures var room := Room(Start(p));
            var n := if |data| < room then |data| else room;
            var end := |data| == n;
            FirstFragment(p, data, begin) ==
              Fragment(if begin && end then FULL else if begin then FIRST else if end then LAST else MIDDLE, data[..n])
  {
  }

  /** The file with the trailer filled and `f` appended. */
  function Next(file: Bytes, f: Fragment): (r: Bytes)
    requires |f.data| <= 0xffff
    ensures |r| == Start(|file|) + HEADER + |f.data|
  {
    file + Zeros(Start(|file|) - |file|) + Physical(f)
  }

  lemma LogFileIs(rs: seq<Bytes>)
    ensures LogFile(rs) == LogOf(Fragments(rs))
  {
  }

  lemma AppendRecord(rs: seq<Bytes>, data: Bytes)
    ensures Fragments(rs + [data]) == Fragments(rs) + Split(|LogFile(rs)|, data, true)
  {
    assert (rs + [data])[..|rs + [data]| - 1] == rs;
  }

  lemma WriteStarts(fs: seq<Fragment>, data: Bytes)
    requires Fits(fs)
    ensures Writing(fs, [], LogOf(fs), data, 0, true)
  {
    assert fs + [] == fs && data[0..] == data;
  }

  lemma WrittenIs(fs: seq<Fragment>, file: Bytes, data: Bytes)
    requires Written(fs, file, data)
    ensures var all := fs + Split(|LogOf(fs)|, data, true); file == LogOf(all) && Fits(all)
  {
  }

  /** A fragment without room for data is followed by one with room. */
  lemma RoomNext(p: nat)
    ensures Room(Start(p)) == 0 ==> Start(p) + HEADER == Start(Start(p) + HEADER) && Room(Start(Start(p) + HEADER)) > 0
  {
  }

  function KindOf(begin: bool, end: bool): (k: Byte)
    ensures 1 <= k <= 4
  {
    if begin && end then FULL else if begin then FIRST else if end then LAST else MIDDLE
  }

  /** What one round of the loop writes is the next fragment, behind the filled trailer if there was no room for
      a header. */
  lemma StepWrites(file: Bytes, data: Bytes, ptr: nat, begin: bool, blockOffset: nat, f: Fragment)
    requires blockOffset <= BLOCK && blockOffset % BLOCK == |file| % BLOCK && ptr <= |data|
    requires f == FirstFragment(|file|, data[ptr..], begin)
    ensures var leftover, left := BLOCK - blockOffset, |data| - ptr;
            var offset := if leftover < HEADER then 0 else blockOffset;
            var avail := BLOCK - offset - HEADER;
            var n := if left < avail then left else avail;
            && 0 <= n <= left && n <= 0xffff && f == Fragment(KindOf(begin, left == n), data[ptr..ptr + n])
            && Next(file, f) == (if leftover < HEADER then file + Zeros(leftover) else file) + Physical(f)
            && offset + HEADER + n <= BLOCK && (offset + HEADER + n) % BLOCK == |Next(file, f)| % BLOCK
            && Room(Start(|file|)) == avail
  {
    hide Room, Start, FirstFragment, Next, Physical;
    OffsetTells(|file|, blockOffset);
    FirstFragmentIs(|file|, data[ptr..], begin);
    OffsetAfter(|file|, blockOffset, HEADER + |f.data|);
    NextIs(file, f, BLOCK - blockOffset);
    var n := |f.data|;
    assert data[ptr..][..n] == data[ptr..ptr + n];
  }

  class Writer {
    var file: Bytes
    var blockOffset: nat
    /** What has been written. */
    ghost var records: seq<Bytes>

    ghost predicate Valid()
      reads this
    {
      && file == LogFile(records) && Fits(Fragments(records))
      && blockOffset <= BLOCK && blockOffset % BLOCK == |file| % BLOCK
    }

    /** A writer for a file that holds `records` already. */
    constructor (file: Bytes, ghost records: seq<Bytes>)
      requires file == LogFile(records) && Fits(Fragments(records))
      ensures Valid() && this.file == file && this.records == records
    {
      hide LogFile, Fits, Fragments;
      this.file, this.records := file, records;
      blockOffset := |file| % BLOCK;
    }

    method EmitPhysicalRecord(kind: Byte, data: Bytes)
      requires |data| <= 0xffff && blockOffset + HEADER + |data| <= BLOCK
      modifies this
      ensures file == old(file) + Physical(Fragment(kind, data))
      ensures blockOffset == old(blockOffset) + HEADER + |data|
      ensures records == old(records)
    {
      var crc := Mask(Extended(Extended(0, Bits([kind])), Bits(data)));
      var buf := Fixed(crc as int, 4) + [|data| % 256, |data| / 256, kind];
      file := file + buf;
      file := file + data;
      assert file == old(file) + Physical(Fragment(kind, data));
      blockOffset := blockOffset + HEADER + |data|;
    }

    method AddRecord(data: Bytes)
      requires Valid()
      modifies this
      ensures Valid() && records == old(records) + [data]
    {
      hide Physical, Writing, Written, Fits, LogOf, Room, Start, Fragments, Split, LogFile, Next, FirstFragment, KindOf, Zeros;
      LogFileIs(records);
      var ptr := 0;
      var begin := true;
      ghost var fs := Fragments(records);
      ghost var done: seq<Fragment> := [];
      WriteStarts(fs, data);
      while true
        invariant ptr <= |data| && records == old(records)
        invariant Writing(fs, done, file, data, ptr, begin)
        invariant blockOffset <= BLOCK && blockOffset % BLOCK == |file| % BLOCK
        decreases |data| - ptr, Room(Start(|file|)) == 0
      {
        ghost var f := WriteStep(fs, done, file, data, ptr, begin);
        StepWrites(file, data, ptr, begin, blockOffset, f);
        RoomNext(|file|);
        var leftover := BLOCK - blockOffset;
        if leftover < HEADER {
          file := file + Zeros(leftover);
          blockOffset := 0;
        }
        var left := |data| - ptr;
        var avail := BLOCK - blockOffset - HEADER;
        var n := if left < avail then left else avail;
        var end := left == n;
        var kind := KindOf(begin, end);
        EmitPhysicalRecord(kind, data[ptr..ptr + n]);
        done := done + [f];
        ptr := ptr + n;
        begin := false;
        if ptr == |data| {
          break;
        }
      }
      AppendRecord(records, data);
      records := records + [data];
      WrittenIs(fs, file, data);
      LogFileIs(records);
    }
  }
}
