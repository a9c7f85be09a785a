/** Whatever the bytes, a message that is decoded fits its schema. */
module NanopbSoundness {
  import opened InternalKeys
  import opened Coding
  import opened NanopbSchema
  import opened NanopbEncode
  import opened NanopbDecode
  import opened NanopbScalars
  import opened NanopbEvolution
  import opened NanopbRoundTrip

  /** Defaults that a field could hold. */
  predicate GoodDefaults(mt: MessageType)
    decreases mt
  {
    forall i :: 0 <= i < |mt.fields| ==> GoodDefault(mt.fields[i])
  }

  predicate GoodDefault(f: Field)
    decreases f
  {
    if f.ltype.Submessage? then GoodDefaults(f.ltype.fields) else f.default.Some? ==> FitsValue(f.ltype, f.default.value)
  }

  // ---- Messages that fit even where nothing is there ----

  predicate SolidValue(l: LType, v: Value)
    decreases l
  {
    if l.Submessage? then v.Message? && SolidMessage(l.fields, v.slots) else FitsValue(l, v)
  }

  /** An optional value is decoded over the one stored, present or not. */
  predicate SolidSlot(f: Field, s: Slot)
    decreases f
  {
    match f.rule
    case Required => s.Single? && SolidValue(f.ltype, s.v)
    case Optional(hasField) => (if hasField then s.Maybe? else s.Single?) && SolidValue(f.ltype, s.v)
    case Repeated(max) => s.Many? && |s.items| <= max && forall i :: 0 <= i < |s.items| ==> SolidValue(f.ltype, s.items[i])
    case OneOf(_) => s.Alternative? && (s.chosen ==> SolidValue(f.ltype, s.v))
  }

  predicate SolidMessage(mt: MessageType, m: seq<Slot>)
    decreases mt
  {
    && |m| == |mt.fields|
    && (forall i :: 0 <= i < |m| ==> SolidSlot(mt.fields[i], m[i]))
    && OneChosen(mt, m)
  }

  lemma {:induction false} SolidFits(mt: MessageType, m: seq<Slot>)
    requires SolidMessage(mt, m)
    ensures FitsMessage(mt, m)
    decreases mt
  {
    forall i | 0 <= i < |m| ensures FitsSlot(mt.fields[i], m[i]) {
      SolidSlotFits(mt.fields[i], m[i]);
    }
  }

  lemma {:induction false} SolidSlotFits(f: Field, s: Slot)
    requires SolidSlot(f, s)
    ensures FitsSlot(f, s)
    decreases f
  {
    if f.ltype.Submessage? {
      if s.Many? {
        forall i | 0 <= i < |s.items| ensures FitsValue(f.ltype, s.items[i]) {
          assert SolidValue(f.ltype, s.items[i]);
          SolidFits(f.ltype.fields, s.items[i].slots);
        }
      } else if s.Alternative? ==> s.chosen {
        SolidFits(f.ltype.fields, s.v.slots);
      }
    }
  }

  lemma {:induction false} DefaultsSolid(mt: MessageType)
    requires GoodSchema(mt) && GoodDefaults(mt)
    ensures SolidMessage(mt, Defaults(mt))
    decreases mt, 1
  {
    forall i | 0 <= i < |mt.fields| ensures SolidSlot(mt.fields[i], DefaultSlot(mt.fields[i])) {
      assert GoodField(mt.fields[i]) && GoodDefault(mt.fields[i]);
      DefaultSolid(mt.fields[i]);
    }
  }

  lemma {:induction false} DefaultSolid(f: Field)
    requires GoodField(f) && GoodDefault(f)
    ensures SolidValue(f.ltype, DefaultValue(f)) && SolidSlot(f, DefaultSlot(f))
    decreases f, 0
  {
    if f.ltype.Submessage? {
      DefaultsSolid(f.ltype.fields);
    }
  }

  // ---- Values ----

  lemma {:induction false} UpToZeroHas(b: Bytes)
    ensures 0 !in UpToZero(b) && |UpToZero(b)| <= |b|
  {
    if b != [] && b[0] != 0 {
      UpToZeroHas(b[1..]);
    }
  }

  lemma NumberSolid(l: LType, n: nat)
    requires GoodType(l) && (l.Fixed32? ==> n < TWO32) && (l.Fixed64? ==> n < TWO64)
    ensures NumberValue(l, n).Some? ==> FitsValue(l, NumberValue(l, n).value)
  {
  }

  lemma DataSolid(l: LType, r: Option<(nat, Bytes)>)
    requires GoodType(l)
    ensures DataValue(r, l).Some? ==> FitsValue(l, DataValue(r, l).value.0)
  {
    if r.Some? && |r.value.1| >= r.value.0 {
      UpToZeroHas(r.value.1[..r.value.0]);
    }
  }

  lemma ScalarSolid(l: LType, b: Bytes)
    requires GoodType(l) && !l.Submessage?
    ensures ScalarIn(l, b).Some? ==> FitsValue(l, ScalarIn(l, b).value.0)
  {
    hide Varint32In, Varint64In, NumberValue, DataValue, FitsValue;
    Pow256();
    forall n: nat | (l.Fixed32? ==> n < TWO32) && (l.Fixed64? ==> n < TWO64)
      ensures NumberValue(l, n).Some? ==> FitsValue(l, NumberValue(l, n).value)
    {
      NumberSolid(l, n);
    }
    DataSolid(l, Varint32In(b));
  }

  lemma {:induction false} PackedSolid(l: LType, b: Bytes, items: seq<Value>, max: nat)
    requires GoodType(l) && Packable(l) && |items| <= max && forall i :: 0 <= i < |items| ==> FitsValue(l, items[i])
    ensures var r := PackedIn(l, b, items, max); r.Some? ==> |r.value| <= max && forall i :: 0 <= i < |r.value| ==> FitsValue(l, r.value[i])
    decreases |b|
  {
    hide ScalarIn, FitsValue, GoodType;
    if b != [] && |items| < max {
      ScalarSolid(l, b);
      var r := ScalarIn(l, b);
      if r.Some? {
        PackedSolid(l, r.value.1, items + [r.value.0], max);
      }
    }
  }

  // ---- Messages ----

  lemma SolidAt(mt: MessageType, slots: seq<Slot>, k: nat)
    requires GoodSchema(mt) && GoodDefaults(mt) && SolidMessage(mt, slots) && k < |mt.fields|
    ensures |slots| == |mt.fields| && SolidSlot(mt.fields[k], slots[k]) && GoodField(mt.fields[k]) && GoodDefault(mt.fields[k])
  {
  }

  lemma CurrentSolid(f: Field, s: Slot)
    requires GoodField(f) && GoodDefault(f) && SolidSlot(f, s)
    ensures SolidValue(f.ltype, Current(f, s))
  {
    hide SolidValue;
    DefaultSolid(f);
  }

  /** Storing a value that fits keeps the message solid. */
  lemma PlacedSolid(mt: MessageType, slots: seq<Slot>, k: nat, v: Value)
    requires SolidMessage(mt, slots) && k < |mt.fields| && SolidValue(mt.fields[k].ltype, v)
    requires mt.fields[k].rule.Repeated? && slots[k].Many? ==> |slots[k].items| < mt.fields[k].rule.max
    ensures SolidMessage(mt, Placed(mt, slots, k, v))
  {
    hide SolidValue;
    var r := Placed(mt, slots, k, v);
    forall i | 0 <= i < |r| ensures SolidSlot(mt.fields[i], r[i]) {
      assert SolidSlot(mt.fields[i], slots[i]);
    }
  }

  lemma ItemsSolid(mt: MessageType, slots: seq<Slot>, k: nat, items: seq<Value>)
    requires SolidMessage(mt, slots) && k < |mt.fields| && mt.fields[k].rule.Repeated? && !mt.fields[k].ltype.Submessage?
    requires |items| <= mt.fields[k].rule.max && forall i :: 0 <= i < |items| ==> FitsValue(mt.fields[k].ltype, items[i])
    ensures SolidMessage(mt, slots[k := Many(items)])
  {
    hide FitsValue;
    var r := slots[k := Many(items)];
    forall i | 0 <= i < |r| ensures SolidSlot(mt.fields[i], r[i]) {
      assert SolidSlot(mt.fields[i], slots[i]);
    }
  }

  lemma {:induction false} ValueSolid(l: LType, b: Bytes, current: Value)
    requires GoodType(l) && (l.Submessage? ==> GoodDefaults(l.fields)) && SolidValue(l, current)
    ensures var r := ValueIn(l, b, current); r.Some? ==> SolidValue(l, r.value.0)
    decreases |b|, 0
  {
    hide ScalarIn, LengthedIn, MessageIn, SolidMessage, FitsValue;
    if l.Submessage? {
      var r := LengthedIn(b);
      if r.Some? && |current.slots| == |l.fields.fields| {
        MessageSolid(l.fields, r.value.0, current.slots);
      }
    } else {
      ScalarSolid(l, b);
    }
  }

  lemma {:induction false} FieldSolid(mt: MessageType, k: nat, wire: nat, b: Bytes, slots: seq<Slot>)
    requires GoodSchema(mt) && GoodDefaults(mt) && SolidMessage(mt, slots) && k < |mt.fields| == |slots|
    ensures var r := FieldIn(mt, k, wire, b, slots); r.Some? ==> SolidMessage(mt, r.value.0)
    decreases |b|, 1
  {
    SolidAt(mt, slots, k);
    var f, s := mt.fields[k], slots[k];
    CurrentSolid(f, s);
    SolidFields(f, s);
    hide SolidMessage, GoodSchema, GoodDefaults, SolidSlot, ValueIn, PackedIn, LengthedIn, Placed, SolidValue, FitsValue, Current, GoodType;
    if f.rule.Repeated? && wire == WT_STRING && Packable(f.ltype) {
      var r := LengthedIn(b);
      if r.Some? {
        PackedSolid(f.ltype, r.value.0, s.items, f.rule.max);
        var items := PackedIn(f.ltype, r.value.0, s.items, f.rule.max);
        if items.Some? {
          ItemsSolid(mt, slots, k, items.value);
        }
      }
    } else {
      ValueSolid(f.ltype, b, Current(f, s));
      var r := ValueIn(f.ltype, b, Current(f, s));
      if r.Some? && (f.rule.Repeated? ==> |s.items| < f.rule.max) {
        PlacedSolid(mt, slots, k, r.value.0);
      }
    }
  }

  lemma SolidFields(f: Field, s: Slot)
    requires GoodField(f) && GoodDefault(f) && SolidSlot(f, s)
    ensures GoodType(f.ltype) && (f.ltype.Submessage? ==> GoodDefaults(f.ltype.fields))
    ensures f.rule.Repeated? ==> s.Many? && |s.items| <= f.rule.max
    ensures s.Many? ==> f.rule.Repeated?
    ensures f.rule.Repeated? && Packable(f.ltype) ==> forall i :: 0 <= i < |s.items| ==> FitsValue(f.ltype, s.items[i])
  {
    hide FitsValue;
    if f.rule.Repeated? && Packable(f.ltype) {
      assert forall i :: 0 <= i < |s.items| ==> SolidValue(f.ltype, s.items[i]);
    }
  }

  lemma {:induction false} FieldsSolid(mt: MessageType, b: Bytes, p: Progress)
    requires GoodSchema(mt) && GoodDefaults(mt) && |p.slots| == |mt.fields| && SolidMessage(mt, p.slots)
    ensures var r := FieldsIn(mt, b, p); r.Some? ==> SolidMessage(mt, r.value.slots)
    decreases |b|, 2
  {
    hide SolidMessage, GoodSchema, GoodDefaults, FieldIn, Skipped, Varint32In, Seen;
    var key := Varint32In(b);
    if b != [] && key.Some? && key.value.0 != 0 {
      var rest, k := key.value.1, FieldIndex(mt, key.value.0 / 8);
      if key.value.0 / 8 == 0 && mt.fields == [] {
        var r := Varint32In(rest);
        if r.Some? {
          FieldsSolid(mt, r.value.1, p);
        }
      } else if k.None? {
        var r := Skipped(rest, key.value.0 % 8);
        if r.Some? {
          FieldsSolid(mt, r.value, p);
        }
      } else {
        FieldSolid(mt, k.value, key.value.0 % 8, rest, p.slots);
        var r := FieldIn(mt, k.value, key.value.0 % 8, rest, p.slots);
        if r.Some? {
          FieldsSolid(mt, r.value.1, Progress(r.value.0, Seen(mt, k.value, p.seen)));
        }
      }
    }
  }

  lemma {:induction false} MessageSolid(mt: MessageType, b: Bytes, slots: seq<Slot>)
    requires GoodSchema(mt) && GoodDefaults(mt) && |slots| == |mt.fields| && SolidMessage(mt, slots)
    ensures var r := MessageIn(mt, b, slots); r.Some? ==> SolidMessage(mt, r.value)
    decreases |b|, 3
  {
    hide SolidMessage, FieldsIn, AllSeen;
    FieldsSolid(mt, b, Progress(slots, {}));
  }

  /** Every value decoded from any bytes is in the range of its field, every string terminated within its storage, every
      array within its bound, and of every union at most one member is chosen. */
  lemma DecodedFits(mt: MessageType, b: Bytes)
    requires GoodSchema(mt) && GoodDefaults(mt)
    ensures var r := Decode(mt, b); r.Some? ==> FitsMessage(mt, r.value)
  {
    hide *;
    DefaultsSolid(mt);
    DecodeIs(mt, b);
    DefaultsLength(mt);
    MessageSolid(mt, b, Defaults(mt));
    var r := Decode(mt, b);
    if r.Some? {
      SolidFits(mt, r.value);
    }
  }

  lemma DefaultsLength(mt: MessageType)
    ensures |Defaults(mt)| == |mt.fields|
  {
  }

  /** So what was decoded can be encoded again, and then decodes to the same. */
  lemma DecodedEncodes(mt: MessageType, b: Bytes)
    requires GoodSchema(mt) && GoodDefaults(mt) && Decode(mt, b).Some?
    ensures var m := Decode(mt, b).value;
            |m| == |mt.fields| && (|EncodeMessage(mt, m)| < TWO32 ==>
              var r := Decode(mt, EncodeMessage(mt, m)); r.Some? && SameMessage(mt, m, r.value))
  {
    hide *;
    DecodedFits(mt, b);
    var m := Decode(mt, b).value;
    SlotCount(mt, m);
    if |EncodeMessage(mt, m)| < TWO32 {
      RoundTrip(mt, m);
    }
  }
}
