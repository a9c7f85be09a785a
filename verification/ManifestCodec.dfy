/** Version edits as bytes: decoding undoes encoding. */
module ManifestCodec {
  import opened InternalKeys
  import opened Sequences
  import opened Coding

  const COMPARATOR: nat := 1
  const LOG_NUMBER: nat := 2
  const NEXT_FILE_NUMBER: nat := 3
  const LAST_SEQUENCE: nat := 4
  const COMPACT_POINTER: nat := 5
  const DELETED_FILE: nat := 6
  const NEW_FILE: nat := 7
  const PREV_LOG_NUMBER: nat := 9

  const LEVELS: nat := 7

  datatype NewFile = NewFile(level: nat, number: nat, size: nat, smallest: Bytes, largest: Bytes)

  datatype Record = Record(
    comparator: Option<Bytes>,
    logNumber: Option<nat>,
    prevLogNumber: Option<nat>,
    nextFileNumber: Option<nat>,
    lastSequence: Option<nat>,
    compactPointers: seq<(nat, Bytes)>,
    deletedFiles: set<(nat, nat)>,
    newFiles: seq<NewFile>)

  const FRESH: Record := Record(None, None, None, None, None, [], {}, [])

  // ---- Encoding ----

  function NumberField(tag: nat, x: Option<nat>): Bytes {
    if x.Some? then Varint(tag) + Varint(x.value) else []
  }

  function ComparatorField(c: Option<Bytes>): Bytes {
    if c.Some? then Varint(COMPARATOR) + Prefixed(c.value) else []
  }

  function PointerField(p: (nat, Bytes)): Bytes {
    Varint(COMPACT_POINTER) + (Varint(p.0) + Prefixed(p.1))
  }

  function DeletedField(d: (nat, nat)): Bytes {
    Varint(DELETED_FILE) + (Varint(d.0) + Varint(d.1))
  }

  function NewFileField(f: NewFile): Bytes {
    Varint(NEW_FILE) + (Varint(f.level) + (Varint(f.number) + (Varint(f.size) + (Prefixed(f.smallest) + Prefixed(f.largest)))))
  }

  function Pointers(ps: seq<(nat, Bytes)>): Bytes {
    if ps == [] then [] else PointerField(ps[0]) + Pointers(ps[1..])
  }

  function Deleted(ds: seq<(nat, nat)>): Bytes {
    if ds == [] then [] else DeletedField(ds[0]) + Deleted(ds[1..])
  }

  function NewFiles(fs: seq<NewFile>): Bytes {
    if fs == [] then [] else NewFileField(fs[0]) + NewFiles(fs[1..])
  }

  /** The record as bytes, the deleted files in the order `ds` in which their set is walked. */
  function Encoded(r: Record, ds: seq<(nat, nat)>): Bytes {
    ComparatorField(r.comparator) +
      (NumberField(LOG_NUMBER, r.logNumber) +
         (NumberField(PREV_LOG_NUMBER, r.prevLogNumber) +
            (NumberField(NEXT_FILE_NUMBER, r.nextFileNumber) +
               (NumberField(LAST_SEQUENCE, r.lastSequence) +
                  (Pointers(r.compactPointers) + (Deleted(ds) + NewFiles(r.newFiles)))))))
  }

  method EncodeTo(r: Record, ds: seq<(nat, nat)>) returns (dst: Bytes)
    ensures dst == Encoded(r, ds)
  {
    hide Varint;
    hide Prefixed;
    hide PointerField;
    hide DeletedField;
    hide NewFileField;
    dst := [];
    if r.comparator.Some? {
      dst := dst + (Varint(COMPARATOR) + Prefixed(r.comparator.value));
    }
    dst := PutNumber(dst, LOG_NUMBER, r.logNumber);
    dst := PutNumber(dst, PREV_LOG_NUMBER, r.prevLogNumber);
    dst := PutNumber(dst, NEXT_FILE_NUMBER, r.nextFileNumber);
    dst := PutNumber(dst, LAST_SEQUENCE, r.lastSequence);
    ghost var head := dst;
    var i := 0;
    assert r.compactPointers[0..] == r.compactPointers;
    while i < |r.compactPointers|
      invariant 0 <= i <= |r.compactPointers| && head + Pointers(r.compactPointers) == dst + Pointers(r.compactPointers[i..])
    {
      assert r.compactPointers[i..][1..] == r.compactPointers[i + 1..];
      Associate(dst, PointerField(r.compactPointers[i]), Pointers(r.compactPointers[i + 1..]));
      dst := dst + PointerField(r.compactPointers[i]);
      i := i + 1;
    }
    assert dst + [] == dst;
    ghost var pointed := dst;
    i := 0;
    assert ds[0..] == ds;
    while i < |ds|
      invariant 0 <= i <= |ds| && pointed + Deleted(ds) == dst + Deleted(ds[i..])
    {
      assert ds[i..][1..] == ds[i + 1..];
      Associate(dst, DeletedField(ds[i]), Deleted(ds[i + 1..]));
      dst := dst + DeletedField(ds[i]);
      i := i + 1;
    }
    assert dst + [] == dst;
    ghost var removed := dst;
    i := 0;
    assert r.newFiles[0..] == r.newFiles;
    while i < |r.newFiles|
      invariant 0 <= i <= |r.newFiles| && removed + NewFiles(r.newFiles) == dst + NewFiles(r.newFiles[i..])
    {
      assert r.newFiles[i..][1..] == r.newFiles[i + 1..];
      Associate(dst, NewFileField(r.newFiles[i]), NewFiles(r.newFiles[i + 1..]));
      dst := dst + NewFileField(r.newFiles[i]);
      i := i + 1;
    }
    assert dst + [] == dst;
    AllParts(ComparatorField(r.comparator), NumberField(LOG_NUMBER, r.logNumber), NumberField(PREV_LOG_NUMBER, r.prevLogNumber),
             NumberField(NEXT_FILE_NUMBER, r.nextFileNumber), NumberField(LAST_SEQUENCE, r.lastSequence),
             Pointers(r.compactPointers), Deleted(ds), NewFiles(r.newFiles));
  }

  method PutNumber(dst: Bytes, tag: nat, x: Option<nat>) returns (r: Bytes)
    ensures r == dst + NumberField(tag, x)
  {
    r := dst;
    if x.Some? {
      r := r + (Varint(tag) + Varint(x.value));
    }
  }

  lemma AllParts(a: Bytes, b: Bytes, c: Bytes, d: Bytes, e: Bytes, f: Bytes, g: Bytes, h: Bytes)
    ensures [] + a + b + c + d + e + f + g + h == a + (b + (c + (d + (e + (f + (g + h))))))
  {
    Associate(g, h, []);
    assert f + (g + h) == f + g + h;
    assert e + (f + g + h) == e + f + g + h;
    assert d + (e + f + g + h) == d + e + f + g + h;
    assert c + (d + e + f + g + h) == c + d + e + f + g + h;
    assert b + (c + d + e + f + g + h) == b + c + d + e + f + g + h;
    assert a + (b + c + d + e + f + g + h) == a + b + c + d + e + f + g + h;
    assert [] + a == a;
  }

  // ---- Decoding ----

  function Varint32At(b: Bytes): (r: Option<(nat, Bytes)>)
    ensures r.Some? ==> |r.value.1| < |b|
  {
    match VarintIn(b, 5)
    case None => None
    case Some((x, n)) => Some((x % 0x1_0000_0000, b[n..]))
  }

  function Varint64At(b: Bytes): (r: Option<(nat, Bytes)>)
    ensures r.Some? ==> |r.value.1| < |b|
  {
    match VarintIn(b, 10)
    case None => None
    case Some((x, n)) => Some((x % 0x1_0000_0000_0000_0000, b[n..]))
  }

  function LevelAt(b: Bytes): (r: Option<(nat, Bytes)>)
    ensures r.Some? ==> |r.value.1| < |b|
  {
    match Varint32At(b)
    case None => None
    case Some((x, rest)) => if x < LEVELS then Some((x, rest)) else None
  }

  function PrefixedAt(b: Bytes): (r: Option<(Bytes, Bytes)>)
    ensures r.Some? ==> |r.value.1| < |b|
  {
    PrefixedIn(b)
  }

  /** The field with this tag at the front of the input, noted in the record. */
  function FieldAt(tag: nat, b: Bytes, r: Record): (s: Option<(Record, Bytes)>)
    ensures s.Some? ==> |s.value.1| < |b|
  {
    if tag == COMPARATOR then
      match PrefixedAt(b)
      case None => None
      case Some((c, rest)) => Some((r.(comparator := Some(c)), rest))
    else if tag == LOG_NUMBER || tag == PREV_LOG_NUMBER || tag == NEXT_FILE_NUMBER || tag == LAST_SEQUENCE then
      match Varint64At(b)
      case None => None
      case Some((x, rest)) => Some((Numbered(tag, x, r), rest))
    else if tag == COMPACT_POINTER then
      match LevelAt(b)
      case None => None
      case Some((level, rest)) =>
        match PrefixedAt(rest)
        case None => None
        case Some((key, rest)) => Some((r.(compactPointers := r.compactPointers + [(level, key)]), rest))
    else if tag == DELETED_FILE then
      match LevelAt(b)
      case None => None
      case Some((level, rest)) =>
        match Varint64At(rest)
        case None => None
        case Some((number, rest)) => Some((r.(deletedFiles := r.deletedFiles + {(level, number)}), rest))
    else if tag == NEW_FILE then NewFileAt(b, r)
    else None
  }

  function Numbered(tag: nat, x: nat, r: Record): Record {
    if tag == LOG_NUMBER then r.(logNumber := Some(x))
    else if tag == PREV_LOG_NUMBER then r.(prevLogNumber := Some(x))
    else if tag == NEXT_FILE_NUMBER then r.(nextFileNumber := Some(x))
    else r.(lastSequence := Some(x))
  }

  function NewFileAt(b: Bytes, r: Record): (s: Option<(Record, Bytes)>)
    ensures s.Some? ==> |s.value.1| < |b|
  {
    match LevelAt(b)
    case None => None
    case Some((level, rest)) =>
      match Varint64At(rest)
      case None => None
      case Some((number, rest)) =>
        match Varint64At(rest)
        case None => None
        case Some((size, rest)) =>
          match PrefixedAt(rest)
          case None => None
          case Some((smallest, rest)) =>
            match PrefixedAt(rest)
            case None => None
            case Some((largest, rest)) => Some((r.(newFiles := r.newFiles + [NewFile(level, number, size, smallest, largest)]), rest))
  }

  /** Fields up to the end of the input; `None` for input that is not an edit. */
  function Fields(b: Bytes, r: Record): Option<Record>
    decreases |b|
  {
    match Varint32At(b)
    case None => if b == [] then Some(r) else None
    case Some((tag, rest)) =>
      match FieldAt(tag, rest, r)
      case None => None
      case Some((r', rest')) => Fields(rest', r')
  }

  /** Clearing a record before decoding into it forgets everything but the compaction pointers. */
  function Cleared(r: Record): Record {
    FRESH.(compactPointers := r.compactPointers)
  }

  method DecodeFrom(src: Bytes, before: Record) returns (result: Option<Record>)
    ensures result == Fields(src, Cleared(before))
  {
    hide FieldAt;
    hide Varint32At;
    var input, r := src, Cleared(before);
    while true
      invariant Fields(src, Cleared(before)) == Fields(input, r)
      decreases |input|
    {
      var tag := Varint32At(input);
      if tag.None? {
        return if input == [] then Some(r) else None;
      }
      var field := FieldAt(tag.value.0, tag.value.1, r);
      if field.None? {
        return None;
      }
      r, input := field.value.0, field.value.1;
    }
  }

  // ---- Round trip ----

  lemma Back32(x: nat, rest: Bytes)
    requires x < 0x1_0000_0000
    ensures Varint32At(Varint(x) + rest) == Some((x, rest))
  {
    Pow128();
    VarintLength(x, 5);
    VarintBack(x, rest, 5);
  }

  lemma Back64(x: nat, rest: Bytes)
    requires x < 0x1_0000_0000_0000_0000
    ensures Varint64At(Varint(x) + rest) == Some((x, rest))
  {
    Pow128();
    VarintLength(x, 10);
    VarintBack(x, rest, 10);
  }

  predicate FitsNumber(x: nat) {
    x < 0x1_0000_0000_0000_0000
  }

  predicate FitsString(s: Bytes) {
    |s| < 0x1_0000_0000
  }

  predicate FitsOption(x: Option<nat>) {
    x.Some? ==> FitsNumber(x.value)
  }

  predicate FitsPointer(p: (nat, Bytes)) {
    p.0 < LEVELS && FitsString(p.1)
  }

  predicate FitsDeleted(d: (nat, nat)) {
    d.0 < LEVELS && FitsNumber(d.1)
  }

  predicate FitsFile(f: NewFile) {
    f.level < LEVELS && FitsNumber(f.number) && FitsNumber(f.size) && FitsString(f.smallest) && FitsString(f.largest)
  }

  ghost predicate FitsRecord(r: Record) {
    && (r.comparator.Some? ==> FitsString(r.comparator.value))
    && FitsOption(r.logNumber) && FitsOption(r.prevLogNumber) && FitsOption(r.nextFileNumber) && FitsOption(r.lastSequence)
    && (forall p :: p in r.compactPointers ==> FitsPointer(p))
    && (forall d :: d in r.deletedFiles ==> FitsDeleted(d))
    && (forall f :: f in r.newFiles ==> FitsFile(f))
  }

  lemma {:induction false} FieldRead(tag: nat, body: Bytes, rest: Bytes, r: Record, r': Record)
    requires tag < 0x1_0000_0000 && FieldAt(tag, body + rest, r) == Some((r', rest))
    ensures Fields(Varint(tag) + body + rest, r) == Fields(rest, r')
  {
    hide FieldAt;
    hide Varint;
    hide Varint32At;
    Back32(tag, body + rest);
    assert Varint(tag) + body + rest == Varint(tag) + (body + rest);
  }

  lemma {:induction false} ComparatorBack(c: Option<Bytes>, rest: Bytes, r: Record)
    requires (c.Some? ==> FitsString(c.value)) && r.comparator.None?
    ensures Fields(ComparatorField(c) + rest, r) == Fields(rest, r.(comparator := c))
  {
    hide Fields;
    hide Prefixed;
    hide PrefixedIn;
    hide Varint;
    if c.Some? {
      PrefixedBack(c.value, rest);
      FieldRead(COMPARATOR, Prefixed(c.value), rest, r, r.(comparator := c));
    } else {
      assert [] + rest == rest;
    }
  }

  lemma {:induction false} NumberBack(tag: nat, x: Option<nat>, rest: Bytes, r: Record)
    requires tag == LOG_NUMBER || tag == PREV_LOG_NUMBER || tag == NEXT_FILE_NUMBER || tag == LAST_SEQUENCE
    requires FitsOption(x)
    ensures Fields(NumberField(tag, x) + rest, r) == Fields(rest, if x.Some? then Numbered(tag, x.value, r) else r)
  {
    hide Fields;
    hide Varint;
    hide Varint64At;
    hide Numbered;
    if x.Some? {
      Back64(x.value, rest);
      FieldRead(tag, Varint(x.value), rest, r, Numbered(tag, x.value, r));
    } else {
      assert [] + rest == rest;
    }
  }

  lemma {:induction false} PointersBack(ps: seq<(nat, Bytes)>, rest: Bytes, r: Record)
    requires forall p :: p in ps ==> FitsPointer(p)
    ensures Fields(Pointers(ps) + rest, r) == Fields(rest, r.(compactPointers := r.compactPointers + ps))
  {
    hide Fields;
    hide Varint;
    hide Varint32At;
    hide Prefixed;
    hide PrefixedIn;
    if ps == [] {
      assert [] + rest == rest && r.compactPointers + [] == r.compactPointers;
    } else {
      var p, tail := ps[0], Pointers(ps[1..]) + rest;
      assert p in ps && FitsPointer(p);
      Back32(p.0, Prefixed(p.1) + tail);
      PrefixedBack(p.1, tail);
      var body := Varint(p.0) + Prefixed(p.1);
      assert body + tail == Varint(p.0) + (Prefixed(p.1) + tail);
      var r' := r.(compactPointers := r.compactPointers + [p]);
      FieldRead(COMPACT_POINTER, body, tail, r, r');
      PointersBack(ps[1..], rest, r');
      assert Pointers(ps) + rest == PointerField(p) + tail;
      assert r'.compactPointers + ps[1..] == r.compactPointers + ps;
    }
  }

  function Elements(ds: seq<(nat, nat)>): set<(nat, nat)> {
    set d | d in ds
  }

  lemma {:induction false} DeletedBack(ds: seq<(nat, nat)>, rest: Bytes, r: Record)
    requires forall d :: d in ds ==> FitsDeleted(d)
    ensures Fields(Deleted(ds) + rest, r) == Fields(rest, r.(deletedFiles := r.deletedFiles + Elements(ds)))
  {
    hide Fields;
    hide Varint;
    hide Varint32At;
    hide Varint64At;
    if ds == [] {
      assert [] + rest == rest && r.deletedFiles + Elements([]) == r.deletedFiles;
    } else {
      var d, tail := ds[0], Deleted(ds[1..]) + rest;
      assert d in ds && FitsDeleted(d);
      Back32(d.0, Varint(d.1) + tail);
      Back64(d.1, tail);
      var body := Varint(d.0) + Varint(d.1);
      assert body + tail == Varint(d.0) + (Varint(d.1) + tail);
      var r' := r.(deletedFiles := r.deletedFiles + {d});
      FieldRead(DELETED_FILE, body, tail, r, r');
      DeletedBack(ds[1..], rest, r');
      assert Deleted(ds) + rest == DeletedField(d) + tail;
      assert ds == [d] + ds[1..];
      assert r'.deletedFiles + Elements(ds[1..]) == r.deletedFiles + Elements(ds);
    }
  }

  lemma {:induction false} NewFileBack(f: NewFile, tail: Bytes, r: Record)
    requires FitsFile(f)
    ensures Fields(NewFileField(f) + tail, r) == Fields(tail, r.(newFiles := r.newFiles + [f]))
  {
    hide Fields;
    hide Varint;
    hide Varint32At;
    hide Varint64At;
    hide Prefixed;
    hide PrefixedIn;
    var d := Prefixed(f.largest) + tail;
    var c := Prefixed(f.smallest) + d;
    var b := Varint(f.size) + c;
    var a := Varint(f.number) + b;
    Back32(f.level, a);
    Back64(f.number, b);
    Back64(f.size, c);
    PrefixedBack(f.smallest, d);
    PrefixedBack(f.largest, tail);
    var body := Varint(f.level) + (Varint(f.number) + (Varint(f.size) + (Prefixed(f.smallest) + Prefixed(f.largest))));
    assert body + tail == Varint(f.level) + a;
    FieldRead(NEW_FILE, body, tail, r, r.(newFiles := r.newFiles + [f]));
  }

  lemma {:induction false} NewFilesBack(fs: seq<NewFile>, rest: Bytes, r: Record)
    requires forall f :: f in fs ==> FitsFile(f)
    ensures Fields(NewFiles(fs) + rest, r) == Fields(rest, r.(newFiles := r.newFiles + fs))
  {
    hide Fields;
    hide NewFileField;
    if fs == [] {
      assert [] + rest == rest && r.newFiles + [] == r.newFiles;
    } else {
      var tail, r' := NewFiles(fs[1..]) + rest, r.(newFiles := r.newFiles + [fs[0]]);
      NewFileBack(fs[0], tail, r);
      NewFilesBack(fs[1..], rest, r');
      assert NewFiles(fs) + rest == NewFileField(fs[0]) + tail;
      assert r'.newFiles + fs[1..] == r.newFiles + fs;
    }
  }

  lemma {:induction false} NothingLeft(r: Record)
    ensures Fields([], r) == Some(r)
  {
  }

  /** Decoding an encoded edit gives the edit back, behind the compaction pointers of the record decoded into. */
  lemma {:induction false} EditBack(r: Record, ds: seq<(nat, nat)>, before: Record)
    requires FitsRecord(r) && Elements(ds) == r.deletedFiles
    ensures Fields(Encoded(r, ds), Cleared(before)) == Some(r.(compactPointers := before.compactPointers + r.compactPointers))
  {
    ElementsIn(ds);
    hide Fields;
    hide Pointers;
    hide Deleted;
    hide NewFiles;
    hide NumberField;
    hide ComparatorField;
    hide FitsOption;
    hide FitsString;
    hide FitsPointer;
    hide FitsDeleted;
    hide FitsFile;
    hide Elements;
    var g := NewFiles(r.newFiles);
    var f := Deleted(ds) + g;
    var e := Pointers(r.compactPointers) + f;
    var d := NumberField(LAST_SEQUENCE, r.lastSequence) + e;
    var c := NumberField(NEXT_FILE_NUMBER, r.nextFileNumber) + d;
    var b := NumberField(PREV_LOG_NUMBER, r.prevLogNumber) + c;
    var a := NumberField(LOG_NUMBER, r.logNumber) + b;
    var r0 := Cleared(before);
    var r1 := r0.(comparator := r.comparator);
    ComparatorBack(r.comparator, a, r0);
    var r5 := NumbersBack(r, e, r1);
    PointersBack(r.compactPointers, f, r5);
    var r6 := r5.(compactPointers := before.compactPointers + r.compactPointers);
    DeletedBack(ds, g, r6);
    var r7 := r6.(deletedFiles := r.deletedFiles);
    assert {} + r.deletedFiles == r.deletedFiles;
    NewFilesBack(r.newFiles, [], r7);
    assert g + [] == g && [] + r.newFiles == r.newFiles;
    NothingLeft(r7.(newFiles := r.newFiles));
  }

  lemma {:induction false} NumbersBack(r: Record, e: Bytes, r1: Record) returns (r5: Record)
    requires FitsOption(r.logNumber) && FitsOption(r.prevLogNumber) && FitsOption(r.nextFileNumber) && FitsOption(r.lastSequence)
    requires r1.logNumber.None? && r1.prevLogNumber.None? && r1.nextFileNumber.None? && r1.lastSequence.None?
    ensures r5 == r1.(logNumber := r.logNumber, prevLogNumber := r.prevLogNumber, nextFileNumber := r.nextFileNumber, lastSequence := r.lastSequence)
    ensures var d := NumberField(LAST_SEQUENCE, r.lastSequence) + e;
            var c := NumberField(NEXT_FILE_NUMBER, r.nextFileNumber) + d;
            var b := NumberField(PREV_LOG_NUMBER, r.prevLogNumber) + c;
            Fields(NumberField(LOG_NUMBER, r.logNumber) + b, r1) == Fields(e, r5)
  {
    hide Fields;
    hide NumberField;
    hide FitsOption;
    var d := NumberField(LAST_SEQUENCE, r.lastSequence) + e;
    var c := NumberField(NEXT_FILE_NUMBER, r.nextFileNumber) + d;
    var b := NumberField(PREV_LOG_NUMBER, r.prevLogNumber) + c;
    var r2 := r1.(logNumber := r.logNumber);
    var r3 := r2.(prevLogNumber := r.prevLogNumber);
    var r4 := r3.(nextFileNumber := r.nextFileNumber);
    r5 := r4.(lastSequence := r.lastSequence);
    NumberBack(LOG_NUMBER, r.logNumber, b, r1);
    NumberBack(PREV_LOG_NUMBER, r.prevLogNumber, c, r2);
    NumberBack(NEXT_FILE_NUMBER, r.nextFileNumber, d, r3);
    NumberBack(LAST_SEQUENCE, r.lastSequence, e, r4);
  }

  lemma ElementsIn(ds: seq<(nat, nat)>)
    ensures forall d :: d in ds ==> d in Elements(ds)
  {
  }

  /** So a record decoded into has to be without compaction pointers: they are not cleared. */
  lemma {:induction false} DecodeUndoesEncode(r: Record, ds: seq<(nat, nat)>, before: Record)
    requires FitsRecord(r) && Elements(ds) == r.deletedFiles
    ensures Fields(Encoded(r, ds), Cleared(before)) == Some(r) <==> before.compactPointers == []
  {
    hide *;
    EditBack(r, ds, before);
    assert before.compactPointers + r.compactPointers == r.compactPointers <==> before.compactPointers == [] by {
      assert |before.compactPointers + r.compactPointers| == |before.compactPointers| + |r.compactPointers|;
    }
  }

  // ---- What is no edit ----

  /** A field whose tag is none of these makes the input no edit. */
  lemma UnknownTagFails(tag: nat, rest: Bytes, r: Record)
    requires tag < 0x1_0000_0000 && (tag == 0 || tag == 8 || tag > 9)
    ensures Fields(Varint(tag) + rest, r) == None
  {
    hide Varint, Varint32At;
    Back32(tag, rest);
  }

  /** Nor is there a level beyond the seventh. */
  lemma LevelFails(tag: nat, level: nat, rest: Bytes, r: Record)
    requires 5 <= tag <= 7 && 7 <= level < 0x1_0000_0000
    ensures Fields(Varint(tag) + (Varint(level) + rest), r) == None
  {
    hide Varint, Varint32At;
    Back32(tag, Varint(level) + rest);
    Back32(level, rest);
  }

  /** Bytes left over that are no tag make the input no edit, too. */
  lemma LeftoverFails(rest: Bytes, r: Record)
    requires rest != [] && forall i :: 0 <= i < |rest| ==> rest[i] >= 128
    ensures Fields(rest, r) == None
  {
    hide VarintIn;
    VarintTells(rest, 5);
  }

  // ---- Example ----

  const EVERY: Record :=
    Record(Some([0x61]), Some(10), Some(0), Some(12), Some(13), [(1, [0x6b])], {(2, 14)}, [NewFile(3, 15, 16, [0x62], [0x63])])

  /** An edit with every field set. */
  lemma EditBytes()
    ensures Encoded(EVERY, [(2, 14)])
         == [1, 1, 0x61] + ([2, 10] + ([9, 0] + ([3, 12] + ([4, 13] + ([5, 1, 1, 0x6b] + ([6, 2, 14] + [7, 3, 15, 16, 1, 0x62, 1, 0x63]))))))
  {
    assert ComparatorField(Some([0x61])) == [1, 1, 0x61];
    assert NumberField(LOG_NUMBER, Some(10)) == [2, 10] && NumberField(PREV_LOG_NUMBER, Some(0)) == [9, 0];
    assert NumberField(NEXT_FILE_NUMBER, Some(12)) == [3, 12] && NumberField(LAST_SEQUENCE, Some(13)) == [4, 13];
    ListBytes();
    hide ComparatorField, NumberField, Pointers, Deleted, NewFiles;
  }

  lemma ListBytes()
    ensures Pointers([(1, [0x6b])]) == [5, 1, 1, 0x6b]
    ensures Deleted([(2, 14)]) == [6, 2, 14]
    ensures NewFiles([NewFile(3, 15, 16, [0x62], [0x63])]) == [7, 3, 15, 16, 1, 0x62, 1, 0x63]
  {
    assert Pointers([]) == [] && Deleted([]) == [] && NewFiles([]) == [];
  }
}
