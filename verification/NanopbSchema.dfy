/** Field descriptors and the messages they describe. A field's storage is an abstract slot. */
module NanopbSchema {
  import opened InternalKeys

  /** The largest count or size a `pb_size_t` holds. */
  const SIZE_MAX: nat := 0xffff

  /** How a value is stored and written. A width is the size of the integer in bytes; the size of a
      string includes its terminator, the size of a bytes field does not include its length. */
  datatype LType =
    | Bool
    | Varint(width: nat)
    | UVarint(width: nat)
    | SVarint(width: nat)
    | Fixed32
    | Fixed64
    | BytesArray(max: nat)
    | CString(size: nat)
    | Submessage(fields: MessageType)
    | FixedBytes(length: nat)

  /** `hasField` tells an optional field with a presence flag from a proto3 singular one. */
  datatype Rule = Required | Optional(hasField: bool) | Repeated(max: nat) | OneOf(union: nat)

  datatype Field = Field(tag: nat, rule: Rule, ltype: LType, default: Option<Value>)

  datatype MessageType = MessageType(fields: seq<Field>)

  datatype Value =
    | Flag(b: bool)
    | Integer(i: int)
    | Word(n: nat)
    | Data(bytes: Bytes)
    | Text(bytes: Bytes)
    | Message(slots: seq<Slot>)
    | Unset

  datatype Slot =
    | Single(v: Value)
    | Maybe(has: bool, v: Value)
    | Many(items: seq<Value>)
    | Alternative(chosen: bool, v: Value)

  predicate Packable(l: LType) {
    l.Bool? || l.Varint? || l.UVarint? || l.SVarint? || l.Fixed32? || l.Fixed64?
  }

  // ---- Integers ----

  const TWO64: nat := 0x1_0000_0000_0000_0000
  const TWO32: nat := 0x1_0000_0000

  /** One more than the largest unsigned integer of `width` bytes. */
  function Range(width: nat): nat {
    if width == 1 then 0x100 else if width == 2 then 0x1_0000 else if width == 4 then TWO32 else if width == 8 then TWO64 else 0
  }

  predicate IsWidth(width: nat) {
    width == 1 || width == 2 || width == 4 || width == 8
  }

  predicate Signed(i: int, width: nat) {
    0 <= 2 * i + Range(width) < 2 * Range(width)
  }

  // ---- Well-formed schemas ----

  predicate GoodType(l: LType) {
    match l
    case Varint(w) => IsWidth(w)
    case UVarint(w) => IsWidth(w)
    case SVarint(w) => IsWidth(w)
    case BytesArray(max) => max <= SIZE_MAX
    case CString(size) => 0 < size
    case Submessage(mt) => GoodSchema(mt)
    case FixedBytes(n) => n <= SIZE_MAX
    case _ => true
  }

  predicate GoodField(f: Field) {
    && 0 < f.tag < 0x2000_0000
    && GoodType(f.ltype)
    && (f.rule == Optional(false) ==> f.default.None?)
  }

  /** Distinct nonzero tags, and no default for a field whose absence means zero. */
  predicate GoodSchema(mt: MessageType) {
    && (forall i :: 0 <= i < |mt.fields| ==> GoodField(mt.fields[i]))
    && (forall i, j :: 0 <= i < j < |mt.fields| ==> mt.fields[i].tag != mt.fields[j].tag)
  }

  // ---- Messages that fit ----

  predicate FitsValue(l: LType, v: Value)
    decreases l
  {
    match l
    case Bool => v.Flag?
    case Varint(w) => v.Integer? && Signed(v.i, w)
    case UVarint(w) => v.Integer? && 0 <= v.i < Range(w)
    case SVarint(w) => v.Integer? && Signed(v.i, w)
    case Fixed32 => v.Word? && v.n < TWO32
    case Fixed64 => v.Word? && v.n < TWO64
    case BytesArray(max) => v.Data? && |v.bytes| <= max
    case CString(size) => v.Text? && |v.bytes| < size && 0 !in v.bytes
    case Submessage(mt) => v.Message? && FitsMessage(mt, v.slots)
    case FixedBytes(n) => v.Data? && |v.bytes| == n
  }

  predicate FitsSlot(f: Field, s: Slot)
    decreases f
  {
    match f.rule
    case Required => s.Single? && FitsValue(f.ltype, s.v)
    case Optional(hasField) => if hasField then s.Maybe? && (s.has ==> FitsValue(f.ltype, s.v)) else s.Single? && FitsValue(f.ltype, s.v)
    case Repeated(max) => s.Many? && |s.items| <= max && forall i :: 0 <= i < |s.items| ==> FitsValue(f.ltype, s.items[i])
    case OneOf(_) => s.Alternative? && (s.chosen ==> FitsValue(f.ltype, s.v))
  }

  /** Two members of one union. */
  predicate SameUnion(f: Field, g: Field) {
    f.rule.OneOf? && g.rule.OneOf? && f.rule.union == g.rule.union
  }

  /** At most one member of a union is chosen. */
  predicate OneChosen(mt: MessageType, slots: seq<Slot>)
    requires |slots| == |mt.fields|
  {
    forall i, j :: 0 <= i < j < |slots| && SameUnion(mt.fields[i], mt.fields[j]) && slots[i].Alternative? && slots[j].Alternative? ==>
      !(slots[i].chosen && slots[j].chosen)
  }

  predicate FitsMessage(mt: MessageType, slots: seq<Slot>)
    decreases mt
  {
    && |slots| == |mt.fields|
    && (forall i :: 0 <= i < |slots| ==> FitsSlot(mt.fields[i], slots[i]))
    && OneChosen(mt, slots)
  }

  // ---- Defaults ----

  function Zero(l: LType): Value
    decreases l, 0
  {
    match l
    case Bool => Flag(false)
    case Varint(_) => Integer(0)
    case UVarint(_) => Integer(0)
    case SVarint(_) => Integer(0)
    case Fixed32 => Word(0)
    case Fixed64 => Word(0)
    case BytesArray(_) => Data([])
    case CString(_) => Text([])
    case Submessage(mt) => Message(Defaults(mt))
    case FixedBytes(n) => Data(seq(n, _ => 0))
  }

  function DefaultValue(f: Field): Value
    decreases f, 0
  {
    if f.ltype.Submessage? then Message(Defaults(f.ltype.fields))
    else if f.default.Some? then f.default.value
    else Zero(f.ltype)
  }

  function DefaultSlot(f: Field): Slot
    decreases f, 1
  {
    match f.rule
    case Required => Single(DefaultValue(f))
    case Optional(hasField) => if hasField then Maybe(false, DefaultValue(f)) else Single(DefaultValue(f))
    case Repeated(_) => Many([])
    case OneOf(_) => Alternative(false, Unset)
  }

  function Defaults(mt: MessageType): (r: seq<Slot>)
    ensures |r| == |mt.fields| && forall i :: 0 <= i < |r| ==> r[i] == DefaultSlot(mt.fields[i])
    decreases mt, 1
  {
    seq(|mt.fields|, i requires 0 <= i < |mt.fields| => DefaultSlot(mt.fields[i]))
  }

  // ---- Messages that mean the same ----

  predicate SameValue(l: LType, a: Value, b: Value)
    decreases l
  {
    if l.Submessage? then a.Message? && b.Message? && SameMessage(l.fields, a.slots, b.slots) else a == b
  }

  predicate SameSlot(f: Field, a: Slot, b: Slot)
    decreases f
  {
    match f.rule
    case Required => a.Single? && b.Single? && SameValue(f.ltype, a.v, b.v)
    case Optional(hasField) =>
      if hasField then a.Maybe? && b.Maybe? && a.has == b.has && (a.has ==> SameValue(f.ltype, a.v, b.v))
      else a.Single? && b.Single? && SameValue(f.ltype, a.v, b.v)
    case Repeated(_) =>
      a.Many? && b.Many? && |a.items| == |b.items| && forall i :: 0 <= i < |a.items| ==> SameValue(f.ltype, a.items[i], b.items[i])
    case OneOf(_) => a.Alternative? && b.Alternative? && a.chosen == b.chosen && (a.chosen ==> SameValue(f.ltype, a.v, b.v))
  }

  /** Equal up to the contents of what is not there. */
  predicate SameMessage(mt: MessageType, a: seq<Slot>, b: seq<Slot>)
    decreases mt
  {
    |a| == |b| == |mt.fields| && forall i :: 0 <= i < |a| ==> SameSlot(mt.fields[i], a[i], b[i])
  }
}
