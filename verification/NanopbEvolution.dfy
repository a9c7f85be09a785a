/** Messages written with one schema and read with another: what both know arrives, the rest is passed over. */
module NanopbEvolution {
  import opened InternalKeys
  import opened Coding
  import opened NanopbSchema
  import opened NanopbEncode
  import opened NanopbDecode
  import opened NanopbScalars

  // ---- Schemas with a common origin ----

  /** The reader stores at least what the writer does, in the same way. */
  predicate KinType(x: LType, y: LType)
    decreases x
  {
    match x
    case Varint(w) => y.Varint? && w <= y.width
    case UVarint(w) => y.UVarint? && w <= y.width
    case SVarint(w) => y.SVarint? && w <= y.width
    case BytesArray(max) => y.BytesArray? && max <= y.max
    case CString(size) => y.CString? && size <= y.size
    case Submessage(mt) => y.Submessage? && Kin(mt, y.fields)
    case _ => x == y
  }

  predicate KinField(f: Field, g: Field)
    decreases f
  {
    && f.tag == g.tag && KinType(f.ltype, g.ltype)
    && if f.rule.Repeated? then g.rule.Repeated? && f.rule.max <= g.rule.max else f.rule == g.rule
  }

  /** Fields with the same tag have the same rule and kin types; each schema may have others, in any order. */
  predicate Kin(a: MessageType, b: MessageType)
    decreases a
  {
    forall i, j :: 0 <= i < |a.fields| && 0 <= j < |b.fields| && a.fields[i].tag == b.fields[j].tag ==> KinField(a.fields[i], b.fields[j])
  }

  /** Whether one of the first `k` fields has the tag. */
  predicate Knows(a: MessageType, k: nat, tag: nat)
    requires k <= |a.fields|
  {
    exists i :: 0 <= i < k && a.fields[i].tag == tag
  }

  // ---- What arrives ----

  predicate AgreesValue(x: LType, y: LType, v: Value, w: Value)
    decreases x
  {
    if x.Submessage? then y.Submessage? && v.Message? && w.Message? && AgreesMessage(x.fields, y.fields, v.slots, w.slots) else v == w
  }

  predicate AgreesSlot(f: Field, g: Field, s: Slot, t: Slot)
    decreases f
  {
    match f.rule
    case Required => s.Single? && t.Single? && AgreesValue(f.ltype, g.ltype, s.v, t.v)
    case Optional(hasField) =>
      if hasField then s.Maybe? && t.Maybe? && s.has == t.has && (s.has ==> AgreesValue(f.ltype, g.ltype, s.v, t.v))
      else s.Single? && t.Single? && AgreesValue(f.ltype, g.ltype, s.v, t.v)
    case Repeated(_) =>
      s.Many? && t.Many? && |s.items| == |t.items| && forall i :: 0 <= i < |s.items| ==> AgreesValue(f.ltype, g.ltype, s.items[i], t.items[i])
    case OneOf(_) => s.Alternative? && t.Alternative? && s.chosen == t.chosen && (s.chosen ==> AgreesValue(f.ltype, g.ltype, s.v, t.v))
  }

  /** What both schemas have agrees, and what only the reader has is not there. */
  predicate AgreesMessage(a: MessageType, b: MessageType, m: seq<Slot>, r: seq<Slot>)
    decreases a
  {
    && |m| == |a.fields| && |r| == |b.fields|
    && (forall i, j :: 0 <= i < |a.fields| && 0 <= j < |b.fields| && a.fields[i].tag == b.fields[j].tag ==>
          AgreesSlot(a.fields[i], b.fields[j], m[i], r[j]))
    && forall j :: 0 <= j < |b.fields| && !Knows(a, |a.fields|, b.fields[j].tag) ==> r[j] == DefaultSlot(b.fields[j])
  }

  // ---- What the reader requires ----

  /** The writer's schema has each of the first 64 required fields of the reader's. */
  predicate RequiredKnown(a: MessageType, b: MessageType) {
    forall j :: 0 <= j < |b.fields| && b.fields[j].rule.Required? && RequiredBefore(b, j) < 64 ==> Knows(a, |a.fields|, b.fields[j].tag)
  }

  predicate CompleteValue(x: LType, y: LType, v: Value)
    decreases x
  {
    x.Submessage? && y.Submessage? && v.Message? ==> CompleteMessage(x.fields, y.fields, v.slots)
  }

  predicate CompleteSlot(f: Field, g: Field, s: Slot)
    decreases f
  {
    match s
    case Many(items) => forall i :: 0 <= i < |items| ==> CompleteValue(f.ltype, g.ltype, items[i])
    case _ => Present(f, s) ==> CompleteValue(f.ltype, g.ltype, s.v)
  }

  /** No required field is missing, also in all submessages that are there and that the reader knows. */
  predicate CompleteMessage(a: MessageType, b: MessageType, m: seq<Slot>)
    decreases a
  {
    && RequiredKnown(a, b)
    && forall i, j :: 0 <= i < |a.fields| && i < |m| && 0 <= j < |b.fields| && a.fields[i].tag == b.fields[j].tag ==>
         CompleteSlot(a.fields[i], b.fields[j], m[i])
  }

  // ---- Values ----

  lemma KinScalar(x: LType, y: LType, v: Value)
    requires KinType(x, y) && GoodType(x) && GoodType(y) && !x.Submessage? && FitsValue(x, v)
    ensures !y.Submessage? && FitsValue(y, v) && EncodeValue(y, v) == EncodeValue(x, v)
  {
  }

  lemma KinWire(x: LType, y: LType)
    requires KinType(x, y)
    ensures WireType(x) == WireType(y) < 8 && Packable(x) == Packable(y) && x.Submessage? == y.Submessage?
  {
  }

  /** What is left of the bytes behind a value, as far as it is read at all. */
  ghost predicate ValueRead(y: LType, b: Bytes, rest: Bytes, current: Value, v': Option<Value>) {
    ValueIn(y, b, current) == match v' { case None => None case Some(w) => Some((w, rest)) }
  }

  lemma ValueArrives(x: LType, y: LType, v: Value, rest: Bytes, current: Value) returns (v': Option<Value>)
    requires KinType(x, y) && GoodType(x) && GoodType(y) && FitsValue(x, v) && |EncodeValue(x, v)| < TWO32
    requires y.Submessage? ==> current == Message(Defaults(y.fields))
    ensures ValueRead(y, EncodeValue(x, v) + rest, rest, current, v')
    ensures v'.Some? <==> CompleteValue(x, y, v)
    ensures v'.Some? ==> AgreesValue(x, y, v, v'.value)
    decreases x, 0, 0
  {
    hide ScalarIn;
    hide LengthedIn;
    hide MessageIn;
    hide GoodSchema;
    hide FitsMessage;
    hide CompleteMessage;
    hide AgreesMessage;
    hide Kin;
    if x.Submessage? {
      SlotCount(x.fields, v.slots);
      var b := EncodeMessage(x.fields, v.slots);
      LengthedBack(b, rest);
      assert b + [] == b;
      var m := MessageArrives(x.fields, y.fields, v.slots, []);
      v' := if m.None? then None else Some(Message(m.value));
    } else {
      KinScalar(x, y, v);
      ScalarBack(y, v, rest);
      v' := Some(v);
    }
  }

  lemma SlotCount(mt: MessageType, m: seq<Slot>)
    requires FitsMessage(mt, m)
    ensures |m| == |mt.fields|
  {
  }

  // ---- Absence ----

  /** A value left out because it is zero arrives as the reader's default. */
  lemma {:induction false} ZeroArrives(x: LType, y: LType, v: Value)
    requires KinType(x, y) && GoodType(x) && GoodType(y) && FitsValue(x, v) && IsZero(x, v)
    ensures AgreesValue(x, y, v, Zero(y))
    decreases x
  {
    match x {
      case Submessage(a) =>
        var b := y.fields;
        var d := Defaults(b);
        forall i, j | 0 <= i < |a.fields| && 0 <= j < |b.fields| && a.fields[i].tag == b.fields[j].tag
          ensures AgreesSlot(a.fields[i], b.fields[j], v.slots[i], d[j])
        {
          assert KinField(a.fields[i], b.fields[j]) && GoodField(a.fields[i]) && GoodField(b.fields[j]) && FitsSlot(a.fields[i], v.slots[i]);
          AbsenceArrives(a.fields[i], b.fields[j], v.slots[i]);
        }
      case _ =>
    }
  }

  lemma {:induction false} AbsenceArrives(f: Field, g: Field, s: Slot)
    requires KinField(f, g) && GoodField(f) && GoodField(g) && FitsSlot(f, s) && IsDefaultSlot(f, s)
    ensures AgreesSlot(f, g, s, DefaultSlot(g))
    decreases f
  {
    match f.rule {
      case Optional(hasField) =>
        if !hasField {
          ZeroArrives(f.ltype, g.ltype, s.v);
        }
      case _ =>
    }
  }

  lemma NotPresent(f: Field, s: Slot)
    requires FitsSlot(f, s) && !Present(f, s)
    ensures IsDefaultSlot(f, s) && !f.rule.Required?
    ensures forall g :: CompleteSlot(f, g, s)
    ensures EncodeSlot(f, s) == []
  {
  }

  // ---- Unknown fields ----

  lemma {:induction false} FoundFrom(mt: MessageType, k: nat, j: nat)
    requires GoodSchema(mt) && j <= k < |mt.fields|
    ensures FieldFrom(mt, mt.fields[k].tag, j) == Some(k)
    decreases k - j
  {
    if j < k {
      FoundFrom(mt, k, j + 1);
    }
  }

  lemma GoodFieldOf(mt: MessageType, k: nat)
    requires GoodSchema(mt) && k < |mt.fields|
    ensures GoodField(mt.fields[k]) && GoodType(mt.fields[k].ltype) && 0 < mt.fields[k].tag < 0x2000_0000
  {
  }

  /** A field's tag leads the decoder to the field. */
  lemma TagRead(mt: MessageType, k: nat, wire: nat, body: Bytes, p: Progress)
    requires GoodSchema(mt) && k < |mt.fields| && |p.slots| == |mt.fields| && wire < 8
    ensures FieldsIn(mt, FieldTag(mt.fields[k].tag, wire) + body, p) ==
            match FieldIn(mt, k, wire, body, p.slots)
            case None => None
            case Some((slots, rest)) => FieldsIn(mt, rest, Progress(slots, Seen(mt, k, p.seen)))
  {
    hide Varint32In;
    hide Coding.Varint;
    hide FieldIn;
    GoodFieldOf(mt, k);
    var key := mt.fields[k].tag * 8 + wire;
    Varint32Back(key, body);
    FoundFrom(mt, k, 0);
    hide GoodSchema;
    assert key / 8 == mt.fields[k].tag && key % 8 == wire;
  }

  lemma UnknownTagRead(b: MessageType, tag: nat, wire: nat, body: Bytes, p: Progress)
    requires 0 < tag < 0x2000_0000 && wire < 8 && |p.slots| == |b.fields| && !Knows(b, |b.fields|, tag)
    ensures FieldsIn(b, FieldTag(tag, wire) + body, p) ==
            match Skipped(body, wire)
            case None => None
            case Some(rest) => FieldsIn(b, rest, p)
  {
    hide Varint32In;
    hide Coding.Varint;
    hide Skipped;
    var key := tag * 8 + wire;
    Varint32Back(key, body);
    assert key / 8 == tag && key % 8 == wire;
    assert FieldIndex(b, tag).None?;
  }

  lemma {:induction false} VarintSkipped(x: nat, rest: Bytes)
    ensures SkipVarint(Coding.Varint(x) + rest) == Some(rest)
  {
    var b := Coding.Varint(x) + rest;
    if x < 128 {
      assert b[1..] == rest;
    } else {
      assert b[1..] == Coding.Varint(x / 128) + rest;
      VarintSkipped(x / 128, rest);
    }
  }

  /** Whatever a value is, its wire type tells how much to skip. */
  lemma ValueSkipped(l: LType, v: Value, rest: Bytes)
    requires GoodType(l) && FitsValue(l, v) && |EncodeValue(l, v)| < TWO32
    ensures Skipped(EncodeValue(l, v) + rest, WireType(l)) == Some(rest)
  {
    hide GoodSchema, FitsMessage, LengthedIn, EncodeMessage, SkipVarint;
    match l {
      case Bool =>
        assert [if v.b then 1 else 0] == Coding.Varint(if v.b then 1 else 0);
        VarintSkipped(if v.b then 1 else 0, rest);
      case Varint(_) => VarintSkipped(ToU64(v.i), rest);
      case UVarint(_) => VarintSkipped(ToU64(v.i), rest);
      case SVarint(_) => VarintSkipped(ZigZag(v.i), rest);
      case Fixed32 => assert (Fixed(v.n, 4) + rest)[4..] == rest;
      case Fixed64 => assert (Fixed(v.n, 8) + rest)[8..] == rest;
      case BytesArray(_) => LengthedBack(v.bytes, rest);
      case CString(_) => LengthedBack(v.bytes, rest);
      case FixedBytes(_) => LengthedBack(v.bytes, rest);
      case Submessage(mt) =>
        SlotCount(mt, v.slots);
        LengthedBack(EncodeMessage(mt, v.slots), rest);
    }
  }

  lemma {:induction false} TaggedSkipped(b: MessageType, f: Field, items: seq<Value>, n: nat, p: Progress, tail: Bytes)
    requires GoodField(f) && |p.slots| == |b.fields| && !Knows(b, |b.fields|, f.tag) && n <= |items|
    requires forall i :: 0 <= i < |items| ==> FitsValue(f.ltype, items[i])
    requires |EncodeTagged(f.tag, f.ltype, items, n)| < TWO32
    ensures FieldsIn(b, EncodeTagged(f.tag, f.ltype, items, n) + tail, p) == FieldsIn(b, tail, p)
    decreases n
  {
    hide FieldsIn, FitsValue, EncodeValue, FieldTag, Knows, GoodType;
    if n == 0 {
      assert [] + tail == tail;
    } else {
      var e, before := EncodeValue(f.ltype, items[n - 1]), EncodeTagged(f.tag, f.ltype, items, n - 1);
      var tag := FieldTag(f.tag, WireType(f.ltype));
      TaggedSkipped(b, f, items, n - 1, p, tag + (e + tail));
      assert before + tag + e + tail == before + (tag + (e + tail));
      UnknownTagRead(b, f.tag, WireType(f.ltype), e + tail, p);
      ValueSkipped(f.ltype, items[n - 1], tail);
    }
  }

  /** The bytes of a field the reader does not know, of any rule and type, change nothing. */
  lemma UnknownSkipped(b: MessageType, f: Field, s: Slot, rest: Bytes, p: Progress)
    requires GoodField(f) && FitsSlot(f, s) && |EncodeSlot(f, s)| < TWO32
    requires |p.slots| == |b.fields| && !Knows(b, |b.fields|, f.tag)
    ensures FieldsIn(b, EncodeSlot(f, s) + rest, p) == FieldsIn(b, rest, p)
  {
    hide FieldsIn, FitsValue, EncodeValue, FieldTag, Knows, GoodType, EncodeTagged, EncodeItems, LengthedIn;
    if !Present(f, s) {
      assert [] + rest == rest;
    } else if !f.rule.Repeated? {
      SingleSlotIs(f, s);
      var tag, e := FieldTag(f.tag, WireType(f.ltype)), EncodeValue(f.ltype, s.v);
      assert tag + e + rest == tag + (e + rest);
      UnknownTagRead(b, f.tag, WireType(f.ltype), e + rest, p);
      ValueSkipped(f.ltype, s.v, rest);
    } else if Packable(f.ltype) {
      var items := EncodeItems(f.ltype, s.items, |s.items|);
      var tag, e := FieldTag(f.tag, WT_STRING), Lengthed(items);
      assert tag + e + rest == tag + (e + rest);
      UnknownTagRead(b, f.tag, WT_STRING, e + rest, p);
      LengthedBack(items, rest);
    } else {
      TaggedSkipped(b, f, s.items, |s.items|, p, rest);
    }
  }

  // ---- Known fields ----

  /** The fields before `k` of the writer's are read, the others of the reader's still hold their defaults, and the
      required ones are seen exactly if they are among the fields read. */
  ghost predicate Upto(a: MessageType, b: MessageType, m: seq<Slot>, k: nat, p: Progress) {
    && |m| == |a.fields| && |p.slots| == |b.fields| && k <= |a.fields|
    && (forall i, j :: 0 <= i < k && 0 <= j < |b.fields| && a.fields[i].tag == b.fields[j].tag ==>
          AgreesSlot(a.fields[i], b.fields[j], m[i], p.slots[j]))
    && (forall j :: 0 <= j < |b.fields| && !Knows(a, k, b.fields[j].tag) ==> p.slots[j] == DefaultSlot(b.fields[j]))
    && (forall j :: 0 <= j < |b.fields| && b.fields[j].rule.Required? && RequiredBefore(b, j) < MAX_REQUIRED ==>
          (RequiredBefore(b, j) in p.seen <==> Knows(a, k, b.fields[j].tag)))
  }

  lemma {:induction false} RequiredGrows(b: MessageType, i: nat, j: nat)
    requires i < j <= |b.fields|
    ensures RequiredBefore(b, i) + (if b.fields[i].rule.Required? then 1 else 0) <= RequiredBefore(b, j)
    decreases j
  {
    if i < j - 1 {
      RequiredGrows(b, i, j - 1);
    }
  }

  /** Each number below the count is that of one required field. */
  lemma {:induction false} RequiredAt(b: MessageType, k: nat, n: nat) returns (j: nat)
    requires k <= |b.fields| && n < RequiredBefore(b, k)
    ensures j < k && b.fields[j].rule.Required? && RequiredBefore(b, j) == n
  {
    if n < RequiredBefore(b, k - 1) {
      j := RequiredAt(b, k - 1, n);
    } else {
      j := k - 1;
    }
  }

  /** What reading field `j` marks as seen. */
  lemma SeenIs(b: MessageType, j: nat, seen: set<nat>, i: nat)
    requires j < |b.fields| && i < |b.fields| && b.fields[i].rule.Required? && RequiredBefore(b, i) < MAX_REQUIRED
    ensures RequiredBefore(b, i) in Seen(b, j, seen) <==> RequiredBefore(b, i) in seen || i == j
  {
    if i < j {
      RequiredGrows(b, i, j);
    } else if j < i {
      RequiredGrows(b, j, i);
    }
  }

  lemma KnowsNext(a: MessageType, k: nat, tag: nat)
    requires k < |a.fields|
    ensures Knows(a, k + 1, tag) <==> Knows(a, k, tag) || a.fields[k].tag == tag
  {
  }

  lemma NotBefore(a: MessageType, k: nat)
    requires GoodSchema(a) && k < |a.fields|
    ensures !Knows(a, k, a.fields[k].tag)
  {
  }

  /** A slot the reader knows is read. */
  lemma Advance(a: MessageType, b: MessageType, m: seq<Slot>, k: nat, j: nat, p: Progress, s: Slot, q: Progress)
    requires GoodSchema(a) && GoodSchema(b) && Kin(a, b) && FitsMessage(a, m) && Upto(a, b, m, k, p)
    requires k < |a.fields| && j < |b.fields| && a.fields[k].tag == b.fields[j].tag && AgreesSlot(a.fields[k], b.fields[j], m[k], s)
    requires q.slots == p.slots[j := s] || (b.fields[j].rule.OneOf? && s.Alternative? && s.chosen && q.slots == Chosen(b, p.slots, j, s.v))
    requires q.seen == Seen(b, j, p.seen)
    ensures Upto(a, b, m, k + 1, q)
  {
    forall n | 0 <= n < |b.fields| && b.fields[n].rule.Required? && RequiredBefore(b, n) < MAX_REQUIRED
      ensures RequiredBefore(b, n) in q.seen <==> Knows(a, k + 1, b.fields[n].tag)
    {
      SeenIs(b, j, p.seen, n);
      KnowsNext(a, k, b.fields[n].tag);
      assert b.fields[n].tag == b.fields[j].tag ==> n == j;
    }
    hide RequiredBefore, Seen;
    forall n | 0 <= n < |b.fields| && !Knows(a, k + 1, b.fields[n].tag) ensures q.slots[n] == DefaultSlot(b.fields[n]) {
      KnowsNext(a, k, b.fields[n].tag);
      assert n != j;
    }
    forall i, n | 0 <= i < k + 1 && 0 <= n < |b.fields| && a.fields[i].tag == b.fields[n].tag
      ensures AgreesSlot(a.fields[i], b.fields[n], m[i], q.slots[n])
    {
      StillAgrees(a, b, m, k, j, p, s, q, i, n);
    }
  }

  lemma StillAgrees(a: MessageType, b: MessageType, m: seq<Slot>, k: nat, j: nat, p: Progress, s: Slot, q: Progress, i: nat, n: nat)
    requires GoodSchema(a) && GoodSchema(b) && Kin(a, b) && FitsMessage(a, m) && Upto(a, b, m, k, p)
    requires k < |a.fields| && j < |b.fields| && a.fields[k].tag == b.fields[j].tag && AgreesSlot(a.fields[k], b.fields[j], m[k], s)
    requires q.slots == p.slots[j := s] || (b.fields[j].rule.OneOf? && s.Alternative? && s.chosen && q.slots == Chosen(b, p.slots, j, s.v))
    requires i < k + 1 && n < |b.fields| && a.fields[i].tag == b.fields[n].tag
    ensures AgreesSlot(a.fields[i], b.fields[n], m[i], q.slots[n])
  {
    hide AgreesValue, RequiredBefore, FitsValue, KinType;
    if i == k {
      assert n == j;
    } else {
      assert n != j;
      assert AgreesSlot(a.fields[i], b.fields[n], m[i], p.slots[n]);
      if q.slots[n] != p.slots[n] {
        assert SameUnion(b.fields[n], b.fields[j]);
        assert KinField(a.fields[i], b.fields[n]) && KinField(a.fields[k], b.fields[j]);
        assert SameUnion(a.fields[i], a.fields[k]) && FitsSlot(a.fields[i], m[i]) && FitsSlot(a.fields[k], m[k]);
        assert OneChosen(a, m);
        assert !m[i].chosen;
      }
    }
  }

  /** A slot that is not there, or that the reader does not know. */
  lemma AdvancePast(a: MessageType, b: MessageType, m: seq<Slot>, k: nat, p: Progress)
    requires GoodSchema(a) && GoodSchema(b) && Kin(a, b) && FitsMessage(a, m) && Upto(a, b, m, k, p) && k < |a.fields|
    requires !Knows(b, |b.fields|, a.fields[k].tag) || !Present(a.fields[k], m[k])
    ensures Upto(a, b, m, k + 1, p)
  {
    hide RequiredBefore;
    forall n | 0 <= n < |b.fields| ensures Knows(a, k + 1, b.fields[n].tag) <==> Knows(a, k, b.fields[n].tag) || a.fields[k].tag == b.fields[n].tag {
      KnowsNext(a, k, b.fields[n].tag);
    }
    forall n | 0 <= n < |b.fields| && a.fields[k].tag == b.fields[n].tag
      ensures AgreesSlot(a.fields[k], b.fields[n], m[k], p.slots[n]) && !b.fields[n].rule.Required?
    {
      assert KinField(a.fields[k], b.fields[n]) && FitsSlot(a.fields[k], m[k]);
      NotBefore(a, k);
      NotPresent(a.fields[k], m[k]);
      GoodFieldOf(a, k);
      GoodFieldOf(b, n);
      AbsenceArrives(a.fields[k], b.fields[n], m[k]);
    }
  }

  lemma SingleSlotIs(f: Field, s: Slot)
    requires FitsSlot(f, s) && Present(f, s) && !f.rule.Repeated?
    ensures !s.Many? && FitsValue(f.ltype, s.v) && WireType(f.ltype) < 8
    ensures EncodeSlot(f, s) == FieldTag(f.tag, WireType(f.ltype)) + EncodeValue(f.ltype, s.v)
  {
    hide FitsValue;
    hide EncodeValue;
  }

  /** Where decoding over `p` leads after some bytes, if it leads on. */
  ghost predicate Reads(b: MessageType, bytes: Bytes, rest: Bytes, p: Progress, q: Option<Progress>) {
    && |p.slots| == |b.fields| && (q.Some? ==> |q.value.slots| == |b.fields|)
    && FieldsIn(b, bytes + rest, p) == if q.Some? then FieldsIn(b, rest, q.value) else None
  }

  /** The part of the required fields that concerns the writer's field `k`. */
  predicate CompleteAt(a: MessageType, b: MessageType, m: seq<Slot>, k: nat)
    requires k < |a.fields| && k < |m|
  {
    forall j :: 0 <= j < |b.fields| && a.fields[k].tag == b.fields[j].tag ==> CompleteSlot(a.fields[k], b.fields[j], m[k])
  }

  lemma TagReads(b: MessageType, j: nat, wire: nat, body: Bytes, rest: Bytes, p: Progress, slots: Option<seq<Slot>>)
    requires GoodSchema(b) && j < |b.fields| && |p.slots| == |b.fields| && wire < 8 && (slots.Some? ==> |slots.value| == |b.fields|)
    requires FieldIn(b, j, wire, body + rest, p.slots) == if slots.Some? then Some((slots.value, rest)) else None
    ensures Reads(b, FieldTag(b.fields[j].tag, wire) + body, rest, p,
                  if slots.Some? then Some(Progress(slots.value, Seen(b, j, p.seen))) else None)
  {
    hide GoodSchema;
    hide FieldsIn;
    hide FieldIn;
    hide FieldTag;
    TagRead(b, j, wire, body + rest, p);
    var tag := FieldTag(b.fields[j].tag, wire);
    assert tag + body + rest == tag + (body + rest);
  }

  lemma {:induction false} KinItems(x: LType, y: LType, items: seq<Value>, n: nat)
    requires KinType(x, y) && GoodType(x) && GoodType(y) && Packable(x) && n <= |items|
    requires forall i :: 0 <= i < |items| ==> FitsValue(x, items[i])
    ensures EncodeItems(y, items, n) == EncodeItems(x, items, n)
    ensures forall i :: 0 <= i < |items| ==> FitsValue(y, items[i])
    decreases n
  {
    hide KinType, FitsValue, GoodType, EncodeValue;
    forall i | 0 <= i < |items| ensures FitsValue(y, items[i]) && EncodeValue(y, items[i]) == EncodeValue(x, items[i]) {
      KinScalar(x, y, items[i]);
    }
    if n > 0 {
      KinItems(x, y, items, n - 1);
    }
  }

  /** A packed piece of an array goes behind the items there already. */
  lemma PackedRead(b: MessageType, j: nat, x: LType, items: seq<Value>, rest: Bytes, slots: seq<Slot>)
    requires GoodSchema(b) && j < |b.fields| == |slots| && GoodType(x) && KinType(x, b.fields[j].ltype) && Packable(x)
    requires b.fields[j].rule.Repeated? && slots[j].Many? && |slots[j].items| + |items| <= b.fields[j].rule.max
    requires forall i :: 0 <= i < |items| ==> FitsValue(x, items[i])
    requires |EncodeItems(x, items, |items|)| < TWO32
    ensures FieldIn(b, j, WT_STRING, Lengthed(EncodeItems(x, items, |items|)) + rest, slots)
         == Some((slots[j := Many(slots[j].items + items)], rest))
  {
    GoodFieldOf(b, j);
    KinWire(x, b.fields[j].ltype);
    KinItems(x, b.fields[j].ltype, items, |items|);
    hide GoodSchema;
    hide EncodeItems;
    hide Lengthed;
    hide LengthedIn;
    hide PackedIn;
    hide FitsValue;
    hide GoodType;
    hide KinType;
    LengthedBack(EncodeItems(x, items, |items|), rest);
    PackedAll(b.fields[j].ltype, items, slots[j].items, b.fields[j].rule.max);
  }

  /** An item behind its own tag goes behind the items there already, whether its type can be packed or not. */
  lemma ItemRead(b: MessageType, j: nat, x: LType, v: Value, rest: Bytes, p: Progress) returns (q: Option<Progress>)
    requires GoodSchema(b) && j < |b.fields| == |p.slots| && GoodType(x) && KinType(x, b.fields[j].ltype)
    requires b.fields[j].rule.Repeated? && p.slots[j].Many? && |p.slots[j].items| < b.fields[j].rule.max
    requires FitsValue(x, v) && |EncodeValue(x, v)| < TWO32
    ensures Reads(b, FieldTag(b.fields[j].tag, WireType(x)) + EncodeValue(x, v), rest, p, q)
    ensures q.Some? <==> CompleteValue(x, b.fields[j].ltype, v)
    ensures q.Some? ==> q.value.seen == p.seen && |q.value.slots| == |b.fields| && q.value.slots[j].Many?
    ensures q.Some? ==> var t := q.value.slots[j].items;
              && q.value.slots == p.slots[j := Many(t)] && |t| == |p.slots[j].items| + 1 && t[..|t| - 1] == p.slots[j].items
              && AgreesValue(x, b.fields[j].ltype, v, t[|t| - 1])
    decreases x, 0, 1
  {
    var g := b.fields[j];
    GoodFieldOf(b, j);
    KinWire(x, g.ltype);
    ItemCurrent(g);
    hide *;
    var e := EncodeValue(x, v);
    var v' := ValueArrives(x, g.ltype, v, rest, DefaultValue(g));
    var slots := if v'.Some? then Some(p.slots[j := Many(p.slots[j].items + [v'.value])]) else None;
    ItemPlaced(b, j, WireType(x), e + rest, rest, p.slots, v');
    TagReads(b, j, WireType(x), e, rest, p, slots);
    SeenUnchanged(b, j, p.seen);
    q := if slots.Some? then Some(Progress(slots.value, p.seen)) else None;
  }

  lemma ItemCurrent(g: Field)
    ensures g.ltype.Submessage? ==> DefaultValue(g) == Message(Defaults(g.ltype.fields))
  {
  }

  lemma SeenUnchanged(b: MessageType, j: nat, seen: set<nat>)
    requires j < |b.fields| && !b.fields[j].rule.Required?
    ensures Seen(b, j, seen) == seen
  {
  }

  lemma ItemPlaced(b: MessageType, j: nat, wire: nat, bytes: Bytes, rest: Bytes, slots: seq<Slot>, v: Option<Value>)
    requires j < |b.fields| == |slots| && b.fields[j].rule.Repeated? && slots[j].Many? && |slots[j].items| < b.fields[j].rule.max
    requires wire == WireType(b.fields[j].ltype) && ValueRead(b.fields[j].ltype, bytes, rest, DefaultValue(b.fields[j]), v)
    ensures FieldIn(b, j, wire, bytes, slots) ==
            if v.Some? then Some((slots[j := Many(slots[j].items + [v.value])], rest)) else None
  {
    hide ValueIn;
  }

  /** What the first `n` items of an unpacked array add to the progress. */
  ghost predicate ItemsRead(b: MessageType, j: nat, x: LType, items: seq<Value>, n: nat, p: Progress, q: Progress)
    requires j < |b.fields| && n <= |items|
  {
    && |p.slots| == |q.slots| == |b.fields| && q.seen == p.seen
    && q.slots[j].Many? && q.slots == p.slots[j := q.slots[j]] && |q.slots[j].items| == n
    && forall i :: 0 <= i < n ==> AgreesValue(x, b.fields[j].ltype, items[i], q.slots[j].items[i])
  }

  lemma ItemsReadNext(b: MessageType, j: nat, x: LType, items: seq<Value>, n: nat, p: Progress, q0: Progress, q: Progress)
    requires j < |b.fields| && n < |items| && ItemsRead(b, j, x, items, n, p, q0)
    requires q.seen == q0.seen && |q.slots| == |b.fields| && q.slots[j].Many?
    requires var t := q.slots[j].items;
             && q.slots == q0.slots[j := Many(t)] && |t| == |q0.slots[j].items| + 1 && t[..|t| - 1] == q0.slots[j].items
             && AgreesValue(x, b.fields[j].ltype, items[n], t[|t| - 1])
    ensures ItemsRead(b, j, x, items, n + 1, p, q)
  {
    var t := q.slots[j].items;
    forall i | 0 <= i < n + 1 ensures AgreesValue(x, b.fields[j].ltype, items[i], t[i]) {
      if i < n {
        assert t[i] == t[..|t| - 1][i];
      }
    }
  }

  lemma {:induction false} TaggedArrive(b: MessageType, j: nat, x: LType, items: seq<Value>, n: nat, p: Progress, tail: Bytes) returns (q: Option<Progress>)
    requires GoodSchema(b) && j < |b.fields| == |p.slots| && GoodType(x) && KinType(x, b.fields[j].ltype)
    requires b.fields[j].rule.Repeated? && n <= |items| <= b.fields[j].rule.max && p.slots[j] == Many([])
    requires forall i :: 0 <= i < |items| ==> FitsValue(x, items[i])
    requires |EncodeTagged(b.fields[j].tag, x, items, n)| < TWO32
    ensures Reads(b, EncodeTagged(b.fields[j].tag, x, items, n), tail, p, q)
    ensures q.Some? <==> forall i :: 0 <= i < n ==> CompleteValue(x, b.fields[j].ltype, items[i])
    ensures q.Some? ==> ItemsRead(b, j, x, items, n, p, q.value)
    decreases x, 0, 2 + n
  {
    hide GoodSchema, GoodType, KinType, FitsValue, EncodeValue, FieldsIn, FieldTag, AgreesValue, CompleteValue;
    if n == 0 {
      q := Some(p);
      assert [] + tail == tail;
      assert p.slots == p.slots[j := p.slots[j]];
    } else {
      var tag := b.fields[j].tag;
      var e, before := FieldTag(tag, WireType(x)) + EncodeValue(x, items[n - 1]), EncodeTagged(tag, x, items, n - 1);
      assert EncodeTagged(tag, x, items, n) == before + e;
      assert before + e + tail == before + (e + tail);
      q := TaggedArrive(b, j, x, items, n - 1, p, e + tail);
      if q.Some? {
        var q0 := q.value;
        q := ItemRead(b, j, x, items[n - 1], tail, q0);
        if q.Some? {
          ItemsReadNext(b, j, x, items, n - 1, p, q0, q.value);
        }
      }
    }
  }

  lemma SlotFacts(a: MessageType, b: MessageType, m: seq<Slot>, k: nat, j: nat, p: Progress)
    requires GoodSchema(a) && GoodSchema(b) && Kin(a, b) && FitsMessage(a, m) && Upto(a, b, m, k, p)
    requires k < |a.fields| && j < |b.fields| && a.fields[k].tag == b.fields[j].tag
    ensures |m| == |a.fields| && |p.slots| == |b.fields|
    ensures FitsSlot(a.fields[k], m[k]) && p.slots[j] == DefaultSlot(b.fields[j]) && KinField(a.fields[k], b.fields[j])
    ensures GoodField(a.fields[k]) && GoodField(b.fields[j]) && GoodType(a.fields[k].ltype) && GoodType(b.fields[j].ltype)
    ensures CompleteAt(a, b, m, k) <==> CompleteSlot(a.fields[k], b.fields[j], m[k])
  {
    hide FitsSlot, CompleteSlot, KinField, RequiredBefore;
    NotBefore(a, k);
    GoodFieldOf(a, k);
    GoodFieldOf(b, j);
    assert forall n :: 0 <= n < |b.fields| && b.fields[n].tag == b.fields[j].tag ==> n == j;
  }

  lemma PackedSlotIs(f: Field, g: Field, s: Slot)
    requires FitsSlot(f, s) && Present(f, s) && f.rule.Repeated? && KinField(f, g)
    ensures g.rule.Repeated? && g.tag == f.tag && KinType(f.ltype, g.ltype) && WT_STRING < 8
    ensures s.Many? && s == Many(s.items) && |s.items| <= g.rule.max && DefaultSlot(g) == Many([])
    ensures forall i :: 0 <= i < |s.items| ==> FitsValue(f.ltype, s.items[i])
    ensures Packable(f.ltype) ==> EncodeSlot(f, s) == FieldTag(f.tag, WT_STRING) + Lengthed(EncodeItems(f.ltype, s.items, |s.items|))
    ensures Packable(f.ltype) ==> |EncodeItems(f.ltype, s.items, |s.items|)| <= |EncodeSlot(f, s)| && CompleteSlot(f, g, s) && AgreesSlot(f, g, s, s)
    ensures !Packable(f.ltype) ==> EncodeSlot(f, s) == EncodeTagged(f.tag, f.ltype, s.items, |s.items|)
    ensures CompleteSlot(f, g, s) <==> forall i :: 0 <= i < |s.items| ==> CompleteValue(f.ltype, g.ltype, s.items[i])
    ensures forall t: Slot :: t.Many? && |t.items| == |s.items| && (forall i :: 0 <= i < |s.items| ==> AgreesValue(f.ltype, g.ltype, s.items[i], t.items[i])) ==>
              AgreesSlot(f, g, s, t)
  {
    hide FitsValue, EncodeItems, KinType, EncodeTagged;
  }

  lemma PackedArrives(a: MessageType, b: MessageType, m: seq<Slot>, k: nat, j: nat, p: Progress, rest: Bytes) returns (q: Progress)
    requires GoodSchema(a) && GoodSchema(b) && Kin(a, b) && FitsMessage(a, m) && Upto(a, b, m, k, p) && k < |a.fields| == |m|
    requires j < |b.fields| && a.fields[k].tag == b.fields[j].tag
    requires Present(a.fields[k], m[k]) && a.fields[k].rule.Repeated? && Packable(a.fields[k].ltype)
    requires |EncodeSlot(a.fields[k], m[k])| < TWO32
    ensures Reads(b, EncodeSlot(a.fields[k], m[k]), rest, p, Some(q))
    ensures CompleteAt(a, b, m, k) && Upto(a, b, m, k + 1, q)
  {
    hide *;
    var f, g, s := a.fields[k], b.fields[j], m[k];
    SlotFacts(a, b, m, k, j, p);
    PackedSlotIs(f, g, s);
    PackedRead(b, j, f.ltype, s.items, rest, p.slots);
    assert [] + s.items == s.items;
    TagReads(b, j, WT_STRING, Lengthed(EncodeItems(f.ltype, s.items, |s.items|)), rest, p, Some(p.slots[j := s]));
    q := Progress(p.slots[j := s], Seen(b, j, p.seen));
    Advance(a, b, m, k, j, p, s, q);
  }

  lemma TaggedSlotArrives(a: MessageType, b: MessageType, m: seq<Slot>, k: nat, j: nat, p: Progress, rest: Bytes) returns (q: Option<Progress>)
    requires GoodSchema(a) && GoodSchema(b) && Kin(a, b) && FitsMessage(a, m) && Upto(a, b, m, k, p) && k < |a.fields| == |m|
    requires j < |b.fields| && a.fields[k].tag == b.fields[j].tag
    requires Present(a.fields[k], m[k]) && a.fields[k].rule.Repeated? && !Packable(a.fields[k].ltype)
    requires |EncodeSlot(a.fields[k], m[k])| < TWO32
    ensures Reads(b, EncodeSlot(a.fields[k], m[k]), rest, p, q)
    ensures q.Some? <==> CompleteAt(a, b, m, k)
    ensures q.Some? ==> Upto(a, b, m, k + 1, q.value)
    decreases a, 0, 0
  {
    hide *;
    var f, g, s := a.fields[k], b.fields[j], m[k];
    SlotFacts(a, b, m, k, j, p);
    PackedSlotIs(f, g, s);
    q := TaggedArrive(b, j, f.ltype, s.items, |s.items|, p, rest);
    if q.Some? {
      ItemsReadAll(b, j, f, s, p, q.value);
      SeenUnchanged(b, j, p.seen);
      Advance(a, b, m, k, j, p, q.value.slots[j], q.value);
    }
  }

  lemma ItemsReadAll(b: MessageType, j: nat, f: Field, s: Slot, p: Progress, q: Progress)
    requires j < |b.fields| && s.Many? && f.rule.Repeated? && ItemsRead(b, j, f.ltype, s.items, |s.items|, p, q)
    ensures |p.slots| == |q.slots| == |b.fields| && q.seen == p.seen && q.slots == p.slots[j := q.slots[j]]
    ensures AgreesSlot(f, b.fields[j], s, q.slots[j])
  {
    hide AgreesValue;
  }

  lemma SingleFacts(f: Field, g: Field, s: Slot)
    requires FitsSlot(f, s) && Present(f, s) && !f.rule.Repeated? && KinField(f, g)
    ensures !g.rule.Repeated? && f.rule == g.rule && g.tag == f.tag && KinType(f.ltype, g.ltype) && !s.Many?
    ensures g.ltype.Submessage? ==> Current(g, DefaultSlot(g)) == Message(Defaults(g.ltype.fields))
    ensures CompleteSlot(f, g, s) <==> CompleteValue(f.ltype, g.ltype, s.v)
  {
    hide FitsValue, KinType;
  }

  lemma SinglePlaced(b: MessageType, j: nat, bytes: Bytes, slots: seq<Slot>, v: Option<Value>, rest: Bytes)
    requires j < |b.fields| == |slots| && !b.fields[j].rule.Repeated?
    requires ValueRead(b.fields[j].ltype, bytes, rest, Current(b.fields[j], slots[j]), v)
    ensures FieldIn(b, j, WireType(b.fields[j].ltype), bytes, slots) == if v.Some? then Some((Placed(b, slots, j, v.value), rest)) else None
  {
    hide ValueIn;
  }

  lemma StoredAgrees(f: Field, g: Field, s: Slot, d: Slot, v: Value)
    requires FitsSlot(f, s) && Present(f, s) && f.rule == g.rule && !f.rule.Repeated? && !s.Many? && AgreesValue(f.ltype, g.ltype, s.v, v)
    ensures AgreesSlot(f, g, s, Stored(g, d, v)) && (g.rule.OneOf? ==> Stored(g, d, v) == Alternative(true, v))
  {
    hide FitsValue;
    hide AgreesValue;
  }

  lemma PlacedIs(b: MessageType, slots: seq<Slot>, j: nat, v: Value)
    requires |slots| == |b.fields| && j < |slots|
    ensures Placed(b, slots, j, v) ==
            if b.fields[j].rule.OneOf? then Chosen(b, slots, j, v) else slots[j := Stored(b.fields[j], slots[j], v)]
  {
  }

  lemma SingleArrives(a: MessageType, b: MessageType, m: seq<Slot>, k: nat, j: nat, p: Progress, rest: Bytes) returns (q: Option<Progress>)
    requires GoodSchema(a) && GoodSchema(b) && Kin(a, b) && FitsMessage(a, m) && Upto(a, b, m, k, p) && k < |a.fields| == |m|
    requires j < |b.fields| && a.fields[k].tag == b.fields[j].tag
    requires Present(a.fields[k], m[k]) && !a.fields[k].rule.Repeated?
    requires |EncodeSlot(a.fields[k], m[k])| < TWO32
    ensures Reads(b, EncodeSlot(a.fields[k], m[k]), rest, p, q)
    ensures q.Some? <==> CompleteAt(a, b, m, k)
    ensures q.Some? ==> Upto(a, b, m, k + 1, q.value)
    decreases a, 0, 0
  {
    hide *;
    var f, g, s := a.fields[k], b.fields[j], m[k];
    SlotFacts(a, b, m, k, j, p);
    SingleSlotIs(f, s);
    SingleFacts(f, g, s);
    KinWire(f.ltype, g.ltype);
    var e := EncodeValue(f.ltype, s.v);
    var v := ValueArrives(f.ltype, g.ltype, s.v, rest, Current(g, p.slots[j]));
    SinglePlaced(b, j, e + rest, p.slots, v, rest);
    TagReads(b, j, WireType(f.ltype), e, rest, p, if v.Some? then Some(Placed(b, p.slots, j, v.value)) else None);
    q := None;
    if v.Some? {
      q := Some(Progress(Placed(b, p.slots, j, v.value), Seen(b, j, p.seen)));
      PlacedIs(b, p.slots, j, v.value);
      StoredAgrees(f, g, s, p.slots[j], v.value);
      Advance(a, b, m, k, j, p, Stored(g, p.slots[j], v.value), q.value);
    }
  }

  lemma SlotArrives(a: MessageType, b: MessageType, m: seq<Slot>, k: nat, p: Progress, rest: Bytes) returns (q: Option<Progress>)
    requires GoodSchema(a) && GoodSchema(b) && Kin(a, b) && FitsMessage(a, m) && Upto(a, b, m, k, p) && k < |a.fields| == |m|
    requires |EncodeSlot(a.fields[k], m[k])| < TWO32
    ensures Reads(b, EncodeSlot(a.fields[k], m[k]), rest, p, q)
    ensures q.Some? <==> CompleteAt(a, b, m, k)
    ensures q.Some? ==> Upto(a, b, m, k + 1, q.value)
    decreases a, 1, 0
  {
    hide *;
    var f, s := a.fields[k], m[k];
    if Knows(b, |b.fields|, f.tag) {
      var j := Known(b, f.tag);
      SlotFacts(a, b, m, k, j, p);
      if !Present(f, s) {
        q := Some(p);
        AdvancePast(a, b, m, k, p);
        NotPresent(f, s);
        NothingReads(b, rest, p);
      } else if !f.rule.Repeated? {
        q := SingleArrives(a, b, m, k, j, p, rest);
      } else if Packable(f.ltype) {
        var q' := PackedArrives(a, b, m, k, j, p, rest);
        q := Some(q');
      } else {
        q := TaggedSlotArrives(a, b, m, k, j, p, rest);
      }
    } else {
      UnknownFacts(a, b, m, k, p);
      UnknownSkipped(b, f, s, rest, p);
      AdvancePast(a, b, m, k, p);
      q := Some(p);
      UnknownReads(b, EncodeSlot(f, s), rest, p);
    }
  }

  lemma Known(b: MessageType, tag: nat) returns (j: nat)
    requires Knows(b, |b.fields|, tag)
    ensures j < |b.fields| && b.fields[j].tag == tag
  {
    j :| 0 <= j < |b.fields| && b.fields[j].tag == tag;
  }

  lemma NothingReads(b: MessageType, rest: Bytes, p: Progress)
    requires |p.slots| == |b.fields|
    ensures Reads(b, [], rest, p, Some(p))
  {
    hide FieldsIn;
    assert [] + rest == rest;
  }

  lemma UnknownReads(b: MessageType, bytes: Bytes, rest: Bytes, p: Progress)
    requires |p.slots| == |b.fields| && FieldsIn(b, bytes + rest, p) == FieldsIn(b, rest, p)
    ensures Reads(b, bytes, rest, p, Some(p))
  {
    hide FieldsIn;
  }

  lemma UnknownFacts(a: MessageType, b: MessageType, m: seq<Slot>, k: nat, p: Progress)
    requires GoodSchema(a) && FitsMessage(a, m) && Upto(a, b, m, k, p) && k < |a.fields| && !Knows(b, |b.fields|, a.fields[k].tag)
    ensures |p.slots| == |b.fields| && |m| == |a.fields| && FitsSlot(a.fields[k], m[k]) && GoodField(a.fields[k])
    ensures CompleteAt(a, b, m, k)
  {
    hide FitsSlot, RequiredBefore;
    GoodFieldOf(a, k);
  }

  lemma {:induction false} FieldsArrive(a: MessageType, b: MessageType, m: seq<Slot>, k: nat, p: Progress, tail: Bytes) returns (q: Option<Progress>)
    requires GoodSchema(a) && GoodSchema(b) && Kin(a, b) && FitsMessage(a, m) && Upto(a, b, m, k, p) && k <= |a.fields| == |m|
    requires |EncodeFields(a, m, k)| < TWO32 && (tail == [] || tail[0] == 0)
    ensures |p.slots| == |b.fields| && FieldsIn(b, EncodeFields(a, m, k) + tail, p) == q
    ensures q.Some? <==> forall i :: k <= i < |a.fields| ==> CompleteAt(a, b, m, i)
    ensures q.Some? ==> Upto(a, b, m, |a.fields|, q.value)
    decreases a, 2, |m| - k
  {
    hide GoodSchema, FitsMessage, Kin, Upto, EncodeSlot, CompleteAt, FieldsIn;
    UptoLength(a, b, m, k, p);
    if k == |m| {
      assert EncodeFields(a, m, k) + tail == tail;
      EndRead(b, tail, p);
      q := Some(p);
    } else {
      var e, later := EncodeSlot(a.fields[k], m[k]), EncodeFields(a, m, k + 1);
      assert e + later + tail == e + (later + tail);
      q := SlotArrives(a, b, m, k, p, later + tail);
      if q.Some? {
        q := FieldsArrive(a, b, m, k + 1, q.value, tail);
      }
    }
  }

  lemma UptoLength(a: MessageType, b: MessageType, m: seq<Slot>, k: nat, p: Progress)
    requires Upto(a, b, m, k, p)
    ensures |m| == |a.fields| && |p.slots| == |b.fields|
  {
  }

  /** The end of the bytes ends a message, and so does a zero byte, whatever follows it. */
  lemma EndRead(b: MessageType, tail: Bytes, p: Progress)
    requires |p.slots| == |b.fields| && (tail == [] || tail[0] == 0)
    ensures FieldsIn(b, tail, p) == Some(p)
  {
  }

  lemma AllSeenIff(a: MessageType, b: MessageType, m: seq<Slot>, p: Progress)
    requires Upto(a, b, m, |a.fields|, p)
    ensures AllSeen(b, p.seen) <==> RequiredKnown(a, b)
  {
    hide RequiredBefore, Knows;
    if AllSeen(b, p.seen) {
      forall j | 0 <= j < |b.fields| && b.fields[j].rule.Required? && RequiredBefore(b, j) < 64
        ensures Knows(a, |a.fields|, b.fields[j].tag)
      {
        RequiredGrows(b, j, |b.fields|);
      }
    }
    if RequiredKnown(a, b) {
      forall n | 0 <= n < RequiredBefore(b, |b.fields|) && n < MAX_REQUIRED ensures n in p.seen {
        var j := RequiredAt(b, |b.fields|, n);
      }
    }
  }

  lemma MessageArrives(a: MessageType, b: MessageType, m: seq<Slot>, tail: Bytes) returns (r: Option<seq<Slot>>)
    requires GoodSchema(a) && GoodSchema(b) && Kin(a, b) && FitsMessage(a, m) && |m| == |a.fields| && |EncodeMessage(a, m)| < TWO32
    requires tail == [] || tail[0] == 0
    ensures MessageIn(b, EncodeMessage(a, m) + tail, Defaults(b)) == r
    ensures r.Some? <==> CompleteMessage(a, b, m)
    ensures r.Some? ==> AgreesMessage(a, b, m, r.value)
    decreases a, 3, 0
  {
    hide GoodSchema, FitsMessage, Kin, EncodeFields, FieldsIn, AllSeen, CompleteMessage, AgreesMessage, CompleteAt;
    var p := Progress(Defaults(b), {});
    NothingRead(a, b, m);
    var q := FieldsArrive(a, b, m, 0, p, tail);
    r := None;
    CompleteIs(a, b, m);
    if q.Some? {
      AllSeenIff(a, b, m, q.value);
      AllRead(a, b, m, q.value);
      if AllSeen(b, q.value.seen) {
        r := Some(q.value.slots);
      }
    }
  }

  lemma NothingRead(a: MessageType, b: MessageType, m: seq<Slot>)
    requires |m| == |a.fields|
    ensures Upto(a, b, m, 0, Progress(Defaults(b), {}))
  {
  }

  lemma AllRead(a: MessageType, b: MessageType, m: seq<Slot>, p: Progress)
    requires Upto(a, b, m, |a.fields|, p)
    ensures AgreesMessage(a, b, m, p.slots)
  {
  }

  lemma CompleteIs(a: MessageType, b: MessageType, m: seq<Slot>)
    requires |m| == |a.fields|
    ensures CompleteMessage(a, b, m) <==> RequiredKnown(a, b) && forall i :: 0 <= i < |a.fields| ==> CompleteAt(a, b, m, i)
  {
    hide CompleteSlot, RequiredBefore, Knows;
    if RequiredKnown(a, b) && forall i :: 0 <= i < |a.fields| ==> CompleteAt(a, b, m, i) {
      forall i, j | 0 <= i < |a.fields| && i < |m| && 0 <= j < |b.fields| && a.fields[i].tag == b.fields[j].tag
        ensures CompleteSlot(a.fields[i], b.fields[j], m[i])
      {
        assert CompleteAt(a, b, m, i);
      }
    }
  }
}
