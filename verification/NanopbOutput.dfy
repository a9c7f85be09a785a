/** The encoder over output streams: a stream either writes or only counts. */
module NanopbOutput {
  import opened InternalKeys
  import opened Coding
  import opened NanopbSchema
  import opened NanopbEncode
  import opened NanopbDecode
  import opened NanopbIterator
  import opened Sequences

  class OStream {
    const sizing: bool
    const maxSize: nat
    var out: Bytes
    var bytesWritten: nat

    constructor (sizing: bool, maxSize: nat)
      ensures this.sizing == sizing && this.maxSize == maxSize && out == [] && bytesWritten == 0
    {
      this.sizing, this.maxSize := sizing, maxSize;
      out, bytesWritten := [], 0;
    }

    /** There is room for `n` more bytes, or none is needed. */
    ghost predicate Room(n: nat)
      reads this
    {
      sizing || n == 0 || bytesWritten + n <= maxSize
    }

    /** What `b` adds to the stream as it was. */
    ghost predicate Wrote(wasOut: Bytes, wasWritten: nat, b: Bytes)
      reads this
    {
      Follows(wasOut, wasWritten, b, out, bytesWritten)
    }

    ghost predicate Follows(wasOut: Bytes, wasWritten: nat, b: Bytes, nowOut: Bytes, nowWritten: nat) {
      nowWritten == wasWritten + |b| && nowOut == if sizing then wasOut else wasOut + b
    }

    lemma WroteNothing()
      ensures Wrote(out, bytesWritten, [])
    {
      assert out + [] == out;
    }

    lemma WroteIs(wasOut: Bytes, wasWritten: nat, b: Bytes)
      requires Wrote(wasOut, wasWritten, b)
      ensures Follows(wasOut, wasWritten, b, out, bytesWritten) && bytesWritten == wasWritten + |b|
    {
    }

    /** What is written in two parts. */
    lemma WroteBoth(wasOut: Bytes, wasWritten: nat, a: Bytes, nowOut: Bytes, nowWritten: nat, b: Bytes)
      requires Follows(wasOut, wasWritten, a, nowOut, nowWritten) && Wrote(nowOut, nowWritten, b)
      ensures Wrote(wasOut, wasWritten, a + b)
    {
      assert wasOut + a + b == wasOut + (a + b);
    }

    method Write(b: Bytes) returns (ok: bool)
      modifies this
      ensures ok <==> old(Room(|b|))
      ensures ok ==> Wrote(old(out), old(bytesWritten), b)
      ensures !ok ==> out == old(out) && bytesWritten == old(bytesWritten)
    {
      if |b| > 0 && !sizing {
        if bytesWritten + |b| > maxSize {
          return false;
        }
        out := out + b;
      }
      bytesWritten := bytesWritten + |b|;
      assert old(out) + [] == old(out);
      return true;
    }

    method EncodeVarint(value: nat) returns (ok: bool)
      modifies this
      ensures ok <==> old(Room(|Coding.Varint(value)|))
      ensures ok ==> Wrote(old(out), old(bytesWritten), Coding.Varint(value))
    {
      hide Coding.Varint;
      VarintNext(value);
      if value <= 0x7f {
        ok := Write([value]);
        return;
      }
      var buffer: Bytes := [];
      var v: nat := value;
      while v > 0
        invariant v > 0 ==> Coding.Varint(value) == buffer + Coding.Varint(v)
        invariant v == 0 ==> Ended(buffer, Coding.Varint(value))
        invariant out == old(out) && bytesWritten == old(bytesWritten)
      {
        VarintGroup(buffer, v);
        buffer := buffer + [v % 128 + 128];
        v := v / 128;
      }
      buffer := buffer[|buffer| - 1 := buffer[|buffer| - 1] - 128];
      ok := Write(buffer);
    }
  }

  /** All groups are out, the last still marked as continued. */
  predicate Ended(buffer: Bytes, b: Bytes) {
    buffer != [] && buffer[|buffer| - 1] >= 128 && b == buffer[|buffer| - 1 := buffer[|buffer| - 1] - 128]
  }

  lemma VarintGroup(buffer: Bytes, v: nat)
    requires v > 0
    ensures v < 128 ==> Ended(buffer + [v % 128 + 128], buffer + Coding.Varint(v))
    ensures v >= 128 ==> buffer + Coding.Varint(v) == buffer + [v % 128 + 128] + Coding.Varint(v / 128)
  {
    VarintNext(v);
    hide Coding.Varint;
  }

  // ---- What the encoder is given ----

  /** The storage of a field of this type. */
  predicate Shaped(l: LType, v: Value)
    decreases l
  {
    match l
    case Bool => v.Flag?
    case Varint(w) => v.Integer? && Signed(v.i, w)
    case UVarint(w) => v.Integer? && 0 <= v.i < Range(w)
    case SVarint(w) => v.Integer? && Signed(v.i, w)
    case Fixed32 => v.Word? && v.n < TWO32
    case Fixed64 => v.Word? && v.n < TWO64
    case BytesArray(_) => v.Data?
    case CString(size) => v.Text? && |v.bytes| <= size && 0 !in v.bytes
    case Submessage(mt) => v.Message? && ShapedMessage(mt, v.slots)
    case FixedBytes(n) => v.Data? && |v.bytes| == n
  }

  predicate ShapedSlot(f: Field, s: Slot)
    decreases f
  {
    match f.rule
    case Required => s.Single? && Shaped(f.ltype, s.v)
    case Optional(hasField) => if hasField then s.Maybe? && (s.has ==> Shaped(f.ltype, s.v)) else s.Single? && Shaped(f.ltype, s.v)
    case Repeated(_) => s.Many? && forall i :: 0 <= i < |s.items| ==> Shaped(f.ltype, s.items[i])
    case OneOf(_) => s.Alternative? && (s.chosen ==> Shaped(f.ltype, s.v))
  }

  predicate ShapedMessage(mt: MessageType, slots: seq<Slot>)
    decreases mt
  {
    |slots| == |mt.fields| && forall i :: 0 <= i < |slots| ==> ShapedSlot(mt.fields[i], slots[i])
  }

  /** No count or size is beyond its field. */
  predicate Encodable(l: LType, v: Value)
    decreases l
  {
    match l
    case BytesArray(max) => v.Data? && |v.bytes| <= max
    case Submessage(mt) => v.Message? && |v.slots| == |mt.fields| && EncodableFields(mt, v.slots, 0)
    case _ => true
  }

  predicate EncodableSlot(f: Field, s: Slot)
    decreases f, 0
  {
    Present(f, s) ==>
      if f.rule.Repeated? then |s.items| <= f.rule.max && forall i :: 0 <= i < |s.items| ==> Encodable(f.ltype, s.items[i])
      else Encodable(f.ltype, s.v)
  }

  predicate EncodableFields(mt: MessageType, slots: seq<Slot>, k: nat)
    requires k <= |slots| == |mt.fields|
    decreases mt
  {
    forall i :: k <= i < |slots| ==> EncodableSlot(mt.fields[i], slots[i])
  }

  /** What a scalar's storage can hold and the encoder takes is what fits its field, or a string without a terminator. */
  lemma ScalarTaken(l: LType, v: Value)
    requires Shaped(l, v) && !l.Submessage?
    ensures Encodable(l, v) <==> FitsValue(l, v) || (l.CString? && |v.bytes| == l.size)
  {
  }

  /** Every message that fits its schema is taken. */
  lemma {:induction false} FittingTaken(mt: MessageType, slots: seq<Slot>)
    requires FitsMessage(mt, slots)
    ensures ShapedMessage(mt, slots) && EncodableFields(mt, slots, 0)
    decreases mt
  {
    forall i | 0 <= i < |slots| ensures ShapedSlot(mt.fields[i], slots[i]) && EncodableSlot(mt.fields[i], slots[i]) {
      FittingSlotTaken(mt.fields[i], slots[i]);
    }
  }

  lemma {:induction false} FittingSlotTaken(f: Field, s: Slot)
    requires FitsSlot(f, s)
    ensures ShapedSlot(f, s) && EncodableSlot(f, s)
    decreases f
  {
    if f.ltype.Submessage? {
      if s.Many? {
        forall i | 0 <= i < |s.items| ensures Shaped(f.ltype, s.items[i]) && Encodable(f.ltype, s.items[i]) {
          assert FitsValue(f.ltype, s.items[i]);
          FittingTaken(f.ltype.fields, s.items[i].slots);
        }
      } else if (s.Maybe? ==> s.has) && (s.Alternative? ==> s.chosen) {
        FittingTaken(f.ltype.fields, s.v.slots);
      }
    }
  }

  /** An array beyond its bound is not. */
  lemma LongArrayRefused(mt: MessageType, slots: seq<Slot>, k: nat)
    requires k < |slots| == |mt.fields| && mt.fields[k].rule.Repeated? && slots[k].Many? && |slots[k].items| > mt.fields[k].rule.max
    ensures !EncodableFields(mt, slots, 0)
  {
    hide Encodable;
    assert !EncodableSlot(mt.fields[k], slots[k]);
  }

  lemma {:induction false} FixedSize(l: LType, items: seq<Value>, n: nat)
    requires n <= |items| && (l.Fixed32? || l.Fixed64?) && forall i :: 0 <= i < n ==> items[i].Word?
    ensures |EncodeItems(l, items, n)| == n * (if l.Fixed32? then 4 else 8)
  {
    if n > 0 {
      FixedSize(l, items, n - 1);
    }
  }

  // ---- The encoder ----

  /** Adds to the count of a counting stream. */
  method CountOnly(s: OStream, n: nat)
    requires s.sizing
    modifies s
    ensures s.out == old(s.out) && s.bytesWritten == old(s.bytesWritten) + n
  {
    s.bytesWritten := s.bytesWritten + n;
  }

  method EncodeTag(s: OStream, number: nat, wire: nat) returns (ok: bool)
    modifies s
    ensures ok <==> old(s.Room(|FieldTag(number, wire)|))
    ensures ok ==> s.Wrote(old(s.out), old(s.bytesWritten), FieldTag(number, wire))
  {
    ok := s.EncodeVarint(number * 8 + wire);
  }

  method EncodeString(s: OStream, b: Bytes) returns (ok: bool)
    modifies s
    ensures ok <==> old(s.Room(|Lengthed(b)|))
    ensures ok ==> s.Wrote(old(s.out), old(s.bytesWritten), Lengthed(b))
  {
    hide Coding.Varint;
    ok := s.EncodeVarint(|b|);
    if ok {
      assert old(s.out) + Coding.Varint(|b|) + b == old(s.out) + (Coding.Varint(|b|) + b);
      ok := s.Write(b);
    }
  }

  method EncodeValueTo(s: OStream, l: LType, v: Value) returns (ok: bool)
    requires Shaped(l, v) && GoodType(l)
    modifies s
    ensures ok <==> Encodable(l, v) && old(s.Room(|EncodeValue(l, v)|))
    ensures ok ==> s.Wrote(old(s.out), old(s.bytesWritten), EncodeValue(l, v))
    decreases l, 0, 0
  {
    hide Coding.Varint;
    hide Lengthed;
    hide ToU64;
    hide ZigZag;
    hide EncodeMessage;
    hide GoodSchema;
    match l {
      case Bool => ok := s.EncodeVarint(if v.b then 1 else 0); BoolVarint(v.b);
      case Varint(_) => ok := s.EncodeVarint(ToU64(v.i));
      case UVarint(_) => ok := s.EncodeVarint(ToU64(v.i));
      case SVarint(_) => ok := s.EncodeVarint(ZigZag(v.i));
      case Fixed32 => ok := s.Write(Fixed(v.n, 4));
      case Fixed64 => ok := s.Write(Fixed(v.n, 8));
      case BytesArray(max) =>
        if |v.bytes| > max {
          return false;
        }
        ok := EncodeString(s, v.bytes);
      case CString(_) => ok := EncodeString(s, v.bytes);
      case FixedBytes(_) => ok := EncodeString(s, v.bytes);
      case Submessage(mt) => ok := EncodeSubmessage(s, mt, v.slots);
    }
  }

  lemma ShapedCount(mt: MessageType, slots: seq<Slot>)
    requires ShapedMessage(mt, slots)
    ensures |slots| == |mt.fields|
  {
  }

  lemma BoolVarint(b: bool)
    ensures Coding.Varint(if b then 1 else 0) == [if b then 1 else 0]
  {
  }

  /** Counts first, then writes the length and the message. */
  method EncodeSubmessage(s: OStream, mt: MessageType, slots: seq<Slot>) returns (ok: bool)
    requires ShapedMessage(mt, slots) && GoodSchema(mt)
    modifies s
    ensures ok <==> EncodableFields(mt, slots, 0) && old(s.Room(|Lengthed(EncodeMessage(mt, slots))|))
    ensures ok ==> s.Wrote(old(s.out), old(s.bytesWritten), Lengthed(EncodeMessage(mt, slots)))
    decreases mt, 1, 0
  {
    hide Coding.Varint;
    hide GoodSchema;
    hide EncodableFields;
    ShapedCount(mt, slots);
    hide ShapedMessage;
    hide EncodeMessage;
    ghost var b := EncodeMessage(mt, slots);
    var substream := new OStream(true, 0);
    ok := Encode(substream, mt, slots);
    if !ok {
      return;
    }
    var size := substream.bytesWritten;
    ok := s.EncodeVarint(size);
    if !ok {
      return;
    }
    if s.sizing {
      CountOnly(s, size);
      return;
    }
    if s.bytesWritten + size > s.maxSize {
      return false;
    }
    substream := new OStream(false, size);
    ok := Encode(substream, mt, slots);
    s.out := s.out + substream.out;
    s.bytesWritten := s.bytesWritten + substream.bytesWritten;
    if substream.bytesWritten != size {
      return false;
    }
    assert old(s.out) + Coding.Varint(size) + b == old(s.out) + (Coding.Varint(size) + b);
    assert [] + b == b;
  }

  /** The first `n` items, without tags. */
  method EncodeItemsTo(s: OStream, l: LType, items: seq<Value>) returns (ok: bool)
    requires (forall i :: 0 <= i < |items| ==> Shaped(l, items[i])) && GoodType(l) && Packable(l)
    modifies s
    ensures ok <==> old(s.Room(|EncodeItems(l, items, |items|)|))
    ensures ok ==> s.Wrote(old(s.out), old(s.bytesWritten), EncodeItems(l, items, |items|))
    decreases l, 1, 0
  {
    hide EncodeValue;
    hide EncodeItems;
    hide Shaped;
    hide GoodType;
    hide Encodable, s.Wrote, s.Follows;
    s.WroteNothing();
    NoItems(l, items);
    for i := 0 to |items|
      invariant s.Wrote(old(s.out), old(s.bytesWritten), EncodeItems(l, items, i)) && (i > 0 ==> old(s.Room(|EncodeItems(l, items, i)|)))
    {
      ghost var before := EncodeItems(l, items, i);
      ItemsNext(l, items, i);
      ItemsGrow(l, items, i + 1);
      PackableEncodes(l, items[i]);
      s.WroteIs(old(s.out), old(s.bytesWritten), before);
      ghost var o, n := s.out, s.bytesWritten;
      ok := EncodeValueTo(s, l, items[i]);
      if !ok {
        return;
      }
      s.WroteBoth(old(s.out), old(s.bytesWritten), before, o, n, EncodeValue(l, items[i]));
    }
    return true;
  }

  lemma NoItems(l: LType, items: seq<Value>)
    ensures EncodeItems(l, items, 0) == []
  {
  }

  lemma ItemsNext(l: LType, items: seq<Value>, i: nat)
    requires i < |items|
    ensures EncodeItems(l, items, i + 1) == EncodeItems(l, items, i) + EncodeValue(l, items[i])
  {
  }

  lemma NoneTagged(number: nat, l: LType, items: seq<Value>)
    ensures EncodeTagged(number, l, items, 0) == []
  {
  }

  lemma TaggedNext(number: nat, l: LType, items: seq<Value>, i: nat)
    requires i < |items|
    ensures EncodeTagged(number, l, items, i + 1) == EncodeTagged(number, l, items, i) + FieldTag(number, WireType(l)) + EncodeValue(l, items[i])
  {
  }

  lemma PackableEncodes(l: LType, v: Value)
    requires Packable(l)
    ensures Encodable(l, v)
  {
  }

  lemma {:induction false} ItemsGrow(l: LType, items: seq<Value>, n: nat)
    requires n <= |items|
    ensures |EncodeItems(l, items, n)| <= |EncodeItems(l, items, |items|)|
    decreases |items| - n
  {
    hide EncodeValue;
    if n < |items| {
      ItemsGrow(l, items, n + 1);
    }
  }

  lemma {:induction false} TaggedGrow(number: nat, l: LType, items: seq<Value>, n: nat)
    requires n <= |items|
    ensures |EncodeTagged(number, l, items, n)| <= |EncodeTagged(number, l, items, |items|)|
    decreases |items| - n
  {
    hide EncodeValue;
    hide FieldTag;
    if n < |items| {
      TaggedGrow(number, l, items, n + 1);
    }
  }

  /** An array that packs: the size is computed or counted, then the items are written. */
  method EncodePacked(s: OStream, f: Field, items: seq<Value>) returns (ok: bool)
    requires (forall i :: 0 <= i < |items| ==> Shaped(f.ltype, items[i])) && GoodType(f.ltype) && Packable(f.ltype)
    modifies s
    ensures var b := FieldTag(f.tag, WT_STRING) + Lengthed(EncodeItems(f.ltype, items, |items|));
            && (ok <==> old(s.Room(|b|)))
            && (ok ==> s.Wrote(old(s.out), old(s.bytesWritten), b))
    decreases f.ltype, 2, 0
  {
    hide EncodeItems;
    hide Coding.Varint;
    hide FieldTag;
    hide GoodType;
    ghost var tag, data := FieldTag(f.tag, WT_STRING), EncodeItems(f.ltype, items, |items|);
    ghost var total := tag + Lengthed(data);
    ok := EncodeTag(s, f.tag, WT_STRING);
    if !ok {
      return;
    }
    var size;
    if f.ltype.Fixed32? || f.ltype.Fixed64? {
      FixedSize(f.ltype, items, |items|);
      size := |items| * (if f.ltype.Fixed32? then 4 else 8);
    } else {
      var sizestream := new OStream(true, 0);
      ok := EncodeItemsTo(sizestream, f.ltype, items);
      size := sizestream.bytesWritten;
    }
    hide Shaped;
    assert size == |data|;
    ok := s.EncodeVarint(size);
    if !ok {
      return;
    }
    if s.sizing {
      CountOnly(s, size);
      return;
    }
    ok := EncodeItemsTo(s, f.ltype, items);
    assert old(s.out) + tag + Coding.Varint(size) + data == old(s.out) + total;
  }

  /** An item after its tag. */
  method EncodeItem(s: OStream, f: Field, item: Value) returns (ok: bool)
    requires Shaped(f.ltype, item) && GoodType(f.ltype)
    modifies s
    ensures ok <==> Encodable(f.ltype, item) && old(s.Room(|FieldTag(f.tag, WireType(f.ltype)) + EncodeValue(f.ltype, item)|))
    ensures ok ==> s.Wrote(old(s.out), old(s.bytesWritten), FieldTag(f.tag, WireType(f.ltype)) + EncodeValue(f.ltype, item))
    decreases f.ltype, 1, 0
  {
    hide EncodeValue, FieldTag, Shaped, Encodable, GoodType, s.Wrote, s.Follows;
    ghost var tag, value := FieldTag(f.tag, WireType(f.ltype)), EncodeValue(f.ltype, item);
    ok := EncodeTag(s, f.tag, WireType(f.ltype));
    if !ok {
      return;
    }
    s.WroteIs(old(s.out), old(s.bytesWritten), tag);
    ghost var o, n := s.out, s.bytesWritten;
    ok := EncodeValueTo(s, f.ltype, item);
    if !ok {
      return;
    }
    s.WroteBoth(old(s.out), old(s.bytesWritten), tag, o, n, value);
  }

  /** An array that does not pack: each item after its own tag. */
  method EncodeUnpacked(s: OStream, f: Field, items: seq<Value>) returns (ok: bool)
    requires (forall i :: 0 <= i < |items| ==> Shaped(f.ltype, items[i])) && GoodType(f.ltype)
    modifies s
    ensures ok <==> (forall i :: 0 <= i < |items| ==> Encodable(f.ltype, items[i])) && old(s.Room(|EncodeTagged(f.tag, f.ltype, items, |items|)|))
    ensures ok ==> s.Wrote(old(s.out), old(s.bytesWritten), EncodeTagged(f.tag, f.ltype, items, |items|))
    decreases f.ltype, 1, 1
  {
    hide EncodeValue, EncodeTagged, FieldTag, Shaped, Encodable, GoodType, s.Wrote, s.Follows;
    s.WroteNothing();
    NoneTagged(f.tag, f.ltype, items);
    for i := 0 to |items|
      invariant s.Wrote(old(s.out), old(s.bytesWritten), EncodeTagged(f.tag, f.ltype, items, i))
      invariant i > 0 ==> old(s.Room(|EncodeTagged(f.tag, f.ltype, items, i)|))
      invariant forall j :: 0 <= j < i ==> Encodable(f.ltype, items[j])
    {
      ghost var before, tag, value := EncodeTagged(f.tag, f.ltype, items, i), FieldTag(f.tag, WireType(f.ltype)), EncodeValue(f.ltype, items[i]);
      TaggedNext(f.tag, f.ltype, items, i);
      TaggedGrow(f.tag, f.ltype, items, i + 1);
      Associate(before, tag, value);
      s.WroteIs(old(s.out), old(s.bytesWritten), before);
      ghost var o, n := s.out, s.bytesWritten;
      ok := EncodeItem(s, f, items[i]);
      if !ok {
        return;
      }
      s.WroteBoth(old(s.out), old(s.bytesWritten), before, o, n, tag + value);
    }
    return true;
  }

  /** One field, if it is there. */
  method EncodeField(s: OStream, f: Field, slot: Slot) returns (ok: bool)
    requires ShapedSlot(f, slot) && GoodType(f.ltype)
    modifies s
    ensures ok <==> EncodableSlot(f, slot) && old(s.Room(|EncodeSlot(f, slot)|))
    ensures ok ==> s.Wrote(old(s.out), old(s.bytesWritten), EncodeSlot(f, slot))
    decreases f
  {
    hide EncodeValue;
    hide EncodeItems;
    hide EncodeTagged;
    hide FieldTag;
    hide Shaped;
    hide Encodable;
    hide GoodType;
    hide IsZero;
    if !Present(f, slot) {
      assert old(s.out) + [] == old(s.out);
      return true;
    }
    if f.rule.Repeated? {
      if |slot.items| > f.rule.max {
        return false;
      }
      if Packable(f.ltype) {
        forall i | 0 <= i < |slot.items| ensures Encodable(f.ltype, slot.items[i]) {
          PackableEncodes(f.ltype, slot.items[i]);
        }
        ok := EncodePacked(s, f, slot.items);
      } else {
        ok := EncodeUnpacked(s, f, slot.items);
      }
      return;
    }
    ghost var tag, e := FieldTag(f.tag, WireType(f.ltype)), EncodeValue(f.ltype, slot.v);
    ok := EncodeTag(s, f.tag, WireType(f.ltype));
    if !ok {
      return;
    }
    assert old(s.out) + tag + e == old(s.out) + (tag + e);
    ok := EncodeValueTo(s, f.ltype, slot.v);
  }

  /** The whole message, field by field. */
  method Encode(s: OStream, mt: MessageType, slots: seq<Slot>) returns (ok: bool)
    requires ShapedMessage(mt, slots) && GoodSchema(mt)
    modifies s
    ensures ok <==> EncodableFields(mt, slots, 0) && old(s.Room(|EncodeMessage(mt, slots)|))
    ensures ok ==> s.Wrote(old(s.out), old(s.bytesWritten), EncodeMessage(mt, slots))
    decreases mt, 0, 2
  {
    hide EncodeSlot, EncodableSlot, GoodType, ShapedSlot, EncodeFields, EncodableFields, RequiredBefore, s.Wrote, s.Follows;
    EncodeAll(mt, slots);
    var iter := new FieldIter(mt);
    s.WroteNothing();
    if mt.fields == [] {
      AllEncodable(mt, slots);
      return true;
    }
    ghost var done: Bytes := [];
    var more := true;
    while more
      invariant fresh(iter) && iter.Valid() && iter.fields == mt && |slots| == |mt.fields|
      invariant s.Wrote(old(s.out), old(s.bytesWritten), done) && old(s.Room(|done|))
      invariant EncodeFields(mt, slots, 0) == done + EncodeFields(mt, slots, if more then iter.pos else |slots|)
      invariant forall i :: 0 <= i < (if more then iter.pos else |slots|) ==> EncodableSlot(mt.fields[i], slots[i])
      decreases if more then |slots| - iter.pos else -1
    {
      var k := iter.pos;
      ghost var e := EncodeSlot(mt.fields[k], slots[k]);
      FieldsNext(mt, slots, k);
      Associate(done, e, EncodeFields(mt, slots, k + 1));
      s.WroteIs(old(s.out), old(s.bytesWritten), done);
      ghost var o, n := s.out, s.bytesWritten;
      ok := EncodeField(s, mt.fields[k], slots[k]);
      if !ok {
        EachEncodable(mt, slots, k);
        return;
      }
      s.WroteBoth(old(s.out), old(s.bytesWritten), done, o, n, e);
      done := done + e;
      more := iter.Next();
    }
    assert done + [] == done;
    AllEncodable(mt, slots);
    return true;
  }

  lemma AllEncodable(mt: MessageType, slots: seq<Slot>)
    requires |slots| == |mt.fields| && forall i :: 0 <= i < |slots| ==> EncodableSlot(mt.fields[i], slots[i])
    ensures EncodableFields(mt, slots, 0)
  {
  }

  lemma EachEncodable(mt: MessageType, slots: seq<Slot>, k: nat)
    requires k < |slots| == |mt.fields|
    ensures EncodableFields(mt, slots, 0) ==> EncodableSlot(mt.fields[k], slots[k])
  {
  }

  lemma EncodeAll(mt: MessageType, slots: seq<Slot>)
    requires |slots| == |mt.fields|
    ensures EncodeMessage(mt, slots) == EncodeFields(mt, slots, 0) == [] + EncodeFields(mt, slots, 0)
    ensures EncodeFields(mt, slots, |slots|) == []
  {
  }

  lemma FieldsNext(mt: MessageType, slots: seq<Slot>, k: nat)
    requires k < |slots| == |mt.fields|
    ensures EncodeFields(mt, slots, k) == EncodeSlot(mt.fields[k], slots[k]) + EncodeFields(mt, slots, k + 1)
  {
  }

  /** The size a message will take, exactly. */
  method GetEncodedSize(mt: MessageType, slots: seq<Slot>) returns (ok: bool, size: nat)
    requires ShapedMessage(mt, slots) && GoodSchema(mt)
    ensures ok <==> EncodableFields(mt, slots, 0)
    ensures ok ==> size == |EncodeMessage(mt, slots)|
  {
    var s := new OStream(true, 0);
    ok := Encode(s, mt, slots);
    size := s.bytesWritten;
  }
}
