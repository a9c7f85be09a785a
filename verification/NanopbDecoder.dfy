/** The decoder: it reads a stream and refines the function from bytes to messages. */
module NanopbDecoder {
  import opened InternalKeys
  import opened Coding
  import opened NanopbSchema
  import opened NanopbEncode
  import opened NanopbDecode
  import opened NanopbIterator
  import opened NanopbInput

  /** Cuts a length-prefixed piece off the stream. */
  method MakeStringSubstream(s: IStream) returns (ok: bool, sub: IStream)
    requires s.Valid()
    modifies s
    ensures s.Valid()
    ensures ok <==> LengthedIn(old(s.Remaining())).Some?
    ensures !ok ==> s.state + s.bytesLeft == old(s.state + s.bytesLeft)
    ensures ok ==>
              && fresh(sub) && sub.Valid() && sub.source == s.source && sub.state == s.state
              && s.state + s.bytesLeft + sub.bytesLeft == old(s.state + s.bytesLeft)
              && s.state >= old(s.state) && s.bytesLeft + sub.bytesLeft < old(s.bytesLeft)
              && LengthedIn(old(s.Remaining())) == Some((sub.Remaining(), s.source[s.state + sub.bytesLeft..s.state + sub.bytesLeft + s.bytesLeft]))
  {
    hide Varint32In;
    sub := s;
    var size;
    ok, size := s.DecodeVarint32();
    if !ok {
      return false, s;
    }
    if s.bytesLeft < size {
      return false, s;
    }
    ghost var rest := s.Remaining();
    assert rest[..size] == s.source[s.state..s.state + size];
    assert rest[size..] == s.source[s.state + size..s.state + s.bytesLeft];
    sub := new IStream(s.source, s.state, size);
    s.bytesLeft := s.bytesLeft - size;
  }

  /** Drops what the substream left unread and goes on behind it. */
  method CloseStringSubstream(s: IStream, sub: IStream)
    requires s != sub && s.Valid() && sub.Valid() && sub.source == s.source && sub.state + sub.bytesLeft + s.bytesLeft <= |s.source|
    modifies s, sub
    ensures s.Valid() && s.bytesLeft == old(s.bytesLeft) && s.state == old(sub.state + sub.bytesLeft)
    ensures s.Remaining() == s.source[s.state..s.state + s.bytesLeft]
  {
    if sub.bytesLeft > 0 {
      var ok, skipped := sub.Read(sub.bytesLeft);
    }
    s.state := sub.state;
  }

  method DecodeScalar(s: IStream, l: LType) returns (ok: bool, v: Value)
    requires s.Valid() && !l.Submessage?
    modifies s
    ensures s.Valid() && s.state + s.bytesLeft == old(s.state + s.bytesLeft)
    ensures ok <==> ScalarIn(l, old(s.Remaining())).Some?
    ensures ok ==> ScalarIn(l, old(s.Remaining())) == Some((v, s.Remaining()))
  {
    hide Varint32In;
    hide Varint64In;
    hide NumberValue;
    var n;
    v := Unset;
    if l.Bool? {
      ok, n := s.DecodeVarint32();
    } else if l.Varint? || l.UVarint? || l.SVarint? {
      ok, n := s.DecodeVarint();
    } else if l.Fixed32? || l.Fixed64? {
      var b;
      ok, b := s.Read(if l.Fixed32? then 4 else 8);
      if ok {
        n := FromFixed(b);
      }
    } else {
      ok, v := DecodeData(s, l);
      return;
    }
    if ok {
      var r := NumberValue(l, n);
      if r.None? {
        return false, Unset;
      }
      v := r.value;
    }
  }

  method DecodeData(s: IStream, l: LType) returns (ok: bool, v: Value)
    requires s.Valid() && (l.BytesArray? || l.CString? || l.FixedBytes?)
    modifies s
    ensures s.Valid() && s.state + s.bytesLeft == old(s.state + s.bytesLeft)
    ensures ok <==> DataValue(Varint32In(old(s.Remaining())), l).Some?
    ensures ok ==> DataValue(Varint32In(old(s.Remaining())), l) == Some((v, s.Remaining()))
  {
    hide Varint32In;
    v := Unset;
    var size;
    ok, size := s.DecodeVarint32();
    if !ok {
      return;
    }
    if l.BytesArray? {
      if size > SIZE_MAX || size > l.max {
        return false, Unset;
      }
    } else if l.CString? {
      if size + 1 >= TWO32 || size + 1 > l.size {
        return false, Unset;
      }
    } else {
      if size > SIZE_MAX {
        return false, Unset;
      }
      if size == 0 {
        return true, Data(seq(l.length, _ => 0));
      }
      if size != l.length {
        return false, Unset;
      }
    }
    var b;
    ok, b := s.Read(size);
    if ok {
      v := if l.CString? then Text(UpToZero(b)) else Data(b);
    }
  }

  method SkipField(s: IStream, wire: nat) returns (ok: bool)
    requires s.Valid()
    modifies s
    ensures s.Valid() && s.state + s.bytesLeft == old(s.state + s.bytesLeft)
    ensures ok <==> Skipped(old(s.Remaining()), wire).Some?
    ensures ok ==> Skipped(old(s.Remaining()), wire) == Some(s.Remaining())
  {
    hide Varint32In;
    if wire == WT_VARINT {
      while true
        invariant s.Valid() && s.state + s.bytesLeft == old(s.state + s.bytesLeft)
        invariant SkipVarint(old(s.Remaining())) == SkipVarint(s.Remaining())
        decreases s.bytesLeft
      {
        var byte;
        ok, byte := s.ReadByte();
        if !ok || byte < 128 {
          return;
        }
      }
    } else if wire == WT_64BIT {
      var skipped;
      ok, skipped := s.Read(8);
    } else if wire == WT_STRING {
      var length;
      ok, length := s.DecodeVarint32();
      if ok {
        var skipped;
        ok, skipped := s.Read(length);
      }
    } else if wire == WT_32BIT {
      var skipped;
      ok, skipped := s.Read(4);
    } else {
      ok := false;
    }
  }

  // ---- Messages ----

  method DecodePacked(s: IStream, l: LType, start: seq<Value>, max: nat) returns (ok: bool, items: seq<Value>)
    requires s.Valid() && Packable(l)
    modifies s
    ensures s.Valid() && s.state + s.bytesLeft == old(s.state + s.bytesLeft)
    ensures ok <==> PackedIn(l, old(s.Remaining()), start, max).Some?
    ensures ok ==> PackedIn(l, old(s.Remaining()), start, max) == Some(items) && s.bytesLeft == 0
  {
    hide ScalarIn;
    items := start;
    while s.bytesLeft > 0 && |items| < max
      invariant s.Valid() && s.state + s.bytesLeft == old(s.state + s.bytesLeft)
      invariant PackedIn(l, old(s.Remaining()), start, max) == PackedIn(l, s.Remaining(), items, max)
      decreases s.bytesLeft
    {
      var v;
      ok, v := DecodeScalar(s, l);
      if !ok {
        return;
      }
      items := items + [v];
    }
    ok := s.bytesLeft == 0;
  }

  method DecodeValue(s: IStream, l: LType, current: Value) returns (ok: bool, v: Value)
    requires s.Valid() && GoodType(l)
    modifies s
    ensures s.Valid() && s.state + s.bytesLeft <= old(s.state + s.bytesLeft)
    ensures ok ==> s.state + s.bytesLeft == old(s.state + s.bytesLeft)
    ensures ok <==> ValueIn(l, old(s.Remaining()), current).Some?
    ensures ok ==> ValueIn(l, old(s.Remaining()), current) == Some((v, s.Remaining()))
    decreases s.bytesLeft, 0
  {
    hide LengthedIn;
    hide ScalarIn;
    hide MessageIn;
    hide GoodSchema;
    if !l.Submessage? {
      ok, v := DecodeScalar(s, l);
      return;
    }
    v := Unset;
    var sub;
    ok, sub := MakeStringSubstream(s);
    if !ok {
      return;
    }
    if !current.Message? || |current.slots| != |l.fields.fields| {
      return false, Unset;
    }
    var slots;
    ok, slots := Decode(sub, l.fields, current.slots);
    CloseStringSubstream(s, sub);
    v := Message(slots);
  }

  /** Reads one field into its slot. */
  method DecodeField(s: IStream, mt: MessageType, k: nat, wire: nat, slots: seq<Slot>) returns (ok: bool, r: seq<Slot>)
    requires s.Valid() && GoodSchema(mt) && k < |mt.fields| == |slots|
    modifies s
    ensures s.Valid() && s.state + s.bytesLeft <= old(s.state + s.bytesLeft)
    ensures ok ==> s.state + s.bytesLeft == old(s.state + s.bytesLeft)
    ensures ok <==> FieldIn(mt, k, wire, old(s.Remaining()), slots).Some?
    ensures ok ==> FieldIn(mt, k, wire, old(s.Remaining()), slots) == Some((r, s.Remaining()))
    decreases s.bytesLeft, 1
  {
    hide LengthedIn;
    hide ValueIn;
    hide PackedIn;
    assert GoodType(mt.fields[k].ltype);
    hide GoodSchema;
    r := slots;
    var f, slot := mt.fields[k], slots[k];
    if f.rule.Repeated? && wire == WT_STRING && Packable(f.ltype) {
      var sub;
      ok, sub := MakeStringSubstream(s);
      if !ok {
        return;
      }
      var items;
      ok, items := DecodePacked(sub, f.ltype, if slot.Many? then slot.items else [], f.rule.max);
      if ok {
        CloseStringSubstream(s, sub);
        r := slots[k := Many(items)];
      }
      return;
    }
    if f.rule.Repeated? && slot.Many? && |slot.items| >= f.rule.max {
      return false, slots;
    }
    var v;
    ok, v := DecodeValue(s, f.ltype, Current(f, slot));
    if ok {
      r := Placed(mt, slots, k, v);
    }
  }

  /** The required fields seen, one flag each. */
  ghost predicate Flags(flags: seq<bool>, seen: set<nat>) {
    |flags| == MAX_REQUIRED && forall j :: 0 <= j < MAX_REQUIRED ==> (flags[j] <==> j in seen)
  }

  /** Reads a message over `slots`, all fields up to the end of the stream or a zero tag. */
  method Decode(s: IStream, mt: MessageType, slots: seq<Slot>) returns (ok: bool, r: seq<Slot>)
    requires s.Valid() && GoodSchema(mt) && |slots| == |mt.fields|
    modifies s
    ensures s.Valid() && s.state + s.bytesLeft <= old(s.state + s.bytesLeft)
    ensures ok ==> s.state + s.bytesLeft == old(s.state + s.bytesLeft)
    ensures ok <==> MessageIn(mt, old(s.Remaining()), slots).Some?
    ensures ok ==> MessageIn(mt, old(s.Remaining()), slots) == Some(r)
    decreases s.bytesLeft, 2
  {
    hide Varint32In;
    hide FieldIn;
    hide Skipped;
    r := slots;
    var flags := seq(MAX_REQUIRED, _ => false);
    ghost var seen: set<nat> := {};
    var iter := new FieldIter(mt);
    while s.bytesLeft > 0
      invariant s.Valid() && s.state + s.bytesLeft == old(s.state + s.bytesLeft)
      invariant fresh(iter) && iter.Valid() && iter.fields == mt
      invariant |r| == |mt.fields| && Flags(flags, seen)
      invariant FieldsIn(mt, old(s.Remaining()), Progress(slots, {})) == FieldsIn(mt, s.Remaining(), Progress(r, seen))
      decreases s.bytesLeft
    {
      var key;
      ok, key := s.DecodeVarint32();
      if !ok {
        return;
      }
      if key == 0 {
        break;
      }
      var found := iter.Find(key / 8);
      if !found {
        ok := SkipField(s, key % 8);
        if !ok {
          return;
        }
        continue;
      }
      if mt.fields == [] {
        var bool_;
        ok, bool_ := s.DecodeVarint32();
        if !ok {
          return;
        }
        continue;
      }
      if mt.fields[iter.pos].rule.Required? && iter.requiredIndex < MAX_REQUIRED {
        flags := flags[iter.requiredIndex := true];
      }
      seen := Seen(mt, iter.pos, seen);
      ok, r := DecodeField(s, mt, iter.pos, key % 8, r);
      if !ok {
        return;
      }
    }
    ok := CheckRequired(iter, flags, seen);
  }

  /** Goes on to the last field to learn how many required ones there are, and checks their flags. */
  method CheckRequired(iter: FieldIter, flags: seq<bool>, ghost seen: set<nat>) returns (ok: bool)
    requires iter.Valid() && Flags(flags, seen)
    modifies iter
    ensures ok <==> AllSeen(iter.fields, seen)
  {
    var n := |iter.fields.fields|;
    var count: nat := iter.requiredIndex;
    var lastRequired := n == 0 || iter.fields.fields[iter.pos].rule.Required?;
    var more := iter.Next();
    while more
      invariant iter.Valid()
      invariant more ==> 0 < iter.pos < n
      invariant n == 0 ==> count == 0 && !more
      invariant !more ==> iter.pos == 0 && (n > 0 ==> count == RequiredBefore(iter.fields, n - 1) && lastRequired == iter.fields.fields[n - 1].rule.Required?)
      decreases if more then n - iter.pos else -1
    {
      count := iter.requiredIndex;
      lastRequired := iter.fields.fields[iter.pos].rule.Required?;
      more := iter.Next();
    }
    if lastRequired && n > 0 {
      count := count + 1;
    }
    if count > MAX_REQUIRED {
      count := MAX_REQUIRED;
    }
    for i := 0 to count
      invariant forall j :: 0 <= j < i ==> flags[j]
    {
      if !flags[i] {
        return false;
      }
    }
    return true;
  }
}
