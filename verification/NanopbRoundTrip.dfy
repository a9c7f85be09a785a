/** Decoding undoes encoding, across versions of a schema too. */
module NanopbRoundTrip {
  import opened InternalKeys
  import opened Coding
  import opened NanopbSchema
  import opened NanopbEncode
  import opened NanopbDecode
  import opened NanopbScalars
  import opened NanopbEvolution

  /** A message written with schema `a` and read with schema `b`, where the fields both have are kin: it is read if and
      only if no required field is missing, and then gives the reader what both schemas have, and defaults elsewhere.
      What follows a zero byte behind the message is not looked at. */
  lemma SchemaEvolves(a: MessageType, b: MessageType, m: seq<Slot>, tail: Bytes)
    requires GoodSchema(a) && GoodSchema(b) && Kin(a, b) && FitsMessage(a, m) && |EncodeMessage(a, m)| < TWO32
    requires tail == [] || tail[0] == 0
    ensures var r := Decode(b, EncodeMessage(a, m) + tail);
            && (r.Some? <==> CompleteMessage(a, b, m))
            && (r.Some? ==> AgreesMessage(a, b, m, r.value))
  {
    hide *;
    SlotCount(a, m);
    var r := MessageArrives(a, b, m, tail);
    DecodeIs(b, EncodeMessage(a, m) + tail);
  }

  lemma DecodeIs(mt: MessageType, b: Bytes)
    ensures Decode(mt, b) == MessageIn(mt, b, Defaults(mt))
  {
  }

  // ---- One schema ----

  lemma {:induction false} KinSelf(mt: MessageType)
    requires GoodSchema(mt)
    ensures Kin(mt, mt)
    decreases mt
  {
    forall i, j | 0 <= i < |mt.fields| && 0 <= j < |mt.fields| && mt.fields[i].tag == mt.fields[j].tag
      ensures KinField(mt.fields[i], mt.fields[j])
    {
      assert i == j;
      assert GoodField(mt.fields[i]);
      KinTypeSelf(mt.fields[i].ltype);
    }
  }

  lemma {:induction false} KinTypeSelf(l: LType)
    requires GoodType(l)
    ensures KinType(l, l)
    decreases l
  {
    if l.Submessage? {
      KinSelf(l.fields);
    }
  }

  lemma {:induction false} CompleteSelf(mt: MessageType, m: seq<Slot>)
    requires GoodSchema(mt) && FitsMessage(mt, m)
    ensures CompleteMessage(mt, mt, m)
    decreases mt
  {
    forall i, j | 0 <= i < |mt.fields| && i < |m| && 0 <= j < |mt.fields| && mt.fields[i].tag == mt.fields[j].tag
      ensures CompleteSlot(mt.fields[i], mt.fields[j], m[i])
    {
      assert i == j;
      assert GoodField(mt.fields[i]) && FitsSlot(mt.fields[i], m[i]);
      CompleteSlotSelf(mt.fields[i], m[i]);
    }
    forall j | 0 <= j < |mt.fields| ensures Knows(mt, |mt.fields|, mt.fields[j].tag) {
    }
  }

  lemma {:induction false} CompleteSlotSelf(f: Field, s: Slot)
    requires GoodField(f) && FitsSlot(f, s)
    ensures CompleteSlot(f, f, s)
    decreases f
  {
    if f.ltype.Submessage? {
      if s.Many? {
        forall i | 0 <= i < |s.items| ensures CompleteValue(f.ltype, f.ltype, s.items[i]) {
          assert FitsValue(f.ltype, s.items[i]);
          CompleteSelf(f.ltype.fields, s.items[i].slots);
        }
      } else if Present(f, s) {
        CompleteSelf(f.ltype.fields, s.v.slots);
      }
    }
  }

  lemma {:induction false} AgreesIsSame(mt: MessageType, m: seq<Slot>, r: seq<Slot>)
    requires AgreesMessage(mt, mt, m, r)
    ensures SameMessage(mt, m, r)
    decreases mt
  {
    forall i | 0 <= i < |m| ensures SameSlot(mt.fields[i], m[i], r[i]) {
      assert AgreesSlot(mt.fields[i], mt.fields[i], m[i], r[i]);
      AgreesSlotIsSame(mt.fields[i], m[i], r[i]);
    }
  }

  lemma {:induction false} AgreesSlotIsSame(f: Field, s: Slot, t: Slot)
    requires AgreesSlot(f, f, s, t)
    ensures SameSlot(f, s, t)
    decreases f
  {
    if f.ltype.Submessage? {
      if f.rule.Repeated? {
        forall i | 0 <= i < |s.items| ensures SameValue(f.ltype, s.items[i], t.items[i]) {
          assert AgreesValue(f.ltype, f.ltype, s.items[i], t.items[i]);
          AgreesIsSame(f.ltype.fields, s.items[i].slots, t.items[i].slots);
        }
      } else if (s.Maybe? ==> s.has) && (s.Alternative? ==> s.chosen) {
        AgreesIsSame(f.ltype.fields, s.v.slots, t.v.slots);
      }
    }
  }

  /** Decoding the encoding of a message that fits its schema gives the message back, up to the contents
      of what is not there. */
  lemma RoundTrip(mt: MessageType, m: seq<Slot>)
    requires GoodSchema(mt) && FitsMessage(mt, m) && |EncodeMessage(mt, m)| < TWO32
    ensures var r := Decode(mt, EncodeMessage(mt, m)); r.Some? && SameMessage(mt, m, r.value)
  {
    hide *;
    SlotCount(mt, m);
    KinSelf(mt);
    CompleteSelf(mt, m);
    var b := EncodeMessage(mt, m);
    assert b + [] == b;
    SchemaEvolves(mt, mt, m, []);
    AgreesIsSame(mt, m, Decode(mt, b).value);
  }
}
