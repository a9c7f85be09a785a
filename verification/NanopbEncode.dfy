/** What a message is encoded to. */
module NanopbEncode {
  import opened InternalKeys
  import opened Coding
  import opened NanopbSchema

  const WT_VARINT: nat := 0
  const WT_64BIT: nat := 1
  const WT_STRING: nat := 2
  const WT_32BIT: nat := 5

  function WireType(l: LType): nat {
    match l
    case Bool => WT_VARINT
    case Varint(_) => WT_VARINT
    case UVarint(_) => WT_VARINT
    case SVarint(_) => WT_VARINT
    case Fixed32 => WT_32BIT
    case Fixed64 => WT_64BIT
    case _ => WT_STRING
  }

  function FieldTag(number: nat, wire: nat): Bytes {
    Coding.Varint(number * 8 + wire)
  }

  function Lengthed(b: Bytes): Bytes {
    Coding.Varint(|b|) + b
  }

  /** Two's complement. */
  function ToU64(i: int): (n: nat)
    ensures n < TWO64
  {
    i % TWO64
  }

  function ZigZag(i: int): nat {
    if i < 0 then -2 * i - 1 else 2 * i
  }

  /** Absence of a proto3 singular value: zero, or a submessage in which nothing is there. */
  predicate IsDefaultSlot(f: Field, s: Slot)
    decreases f
  {
    match f.rule
    case Required => false
    case Repeated(_) => s.Many? && s.items == []
    case OneOf(_) => s.Alternative? && !s.chosen
    case Optional(hasField) => if hasField then s.Maybe? && !s.has else s.Single? && IsZero(f.ltype, s.v)
  }

  predicate IsZero(l: LType, v: Value)
    decreases l
  {
    match l
    case Bool => v == Flag(false)
    case Varint(_) => v == Integer(0)
    case UVarint(_) => v == Integer(0)
    case SVarint(_) => v == Integer(0)
    case Fixed32 => v == Word(0)
    case Fixed64 => v == Word(0)
    case BytesArray(_) => v.Data? && v.bytes == []
    case CString(_) => v.Text? && v.bytes == []
    case Submessage(mt) => v.Message? && |v.slots| == |mt.fields| && forall i :: 0 <= i < |v.slots| ==> IsDefaultSlot(mt.fields[i], v.slots[i])
    case FixedBytes(n) => n == 0
  }

  /** The bytes of a value of the kind its type stores. */
  function EncodeValue(l: LType, v: Value): Bytes
    decreases l, 0, 0
  {
    match l
    case Bool => if v.Flag? then [if v.b then 1 else 0] else []
    case Varint(_) => if v.Integer? then Coding.Varint(ToU64(v.i)) else []
    case UVarint(_) => if v.Integer? then Coding.Varint(ToU64(v.i)) else []
    case SVarint(_) => if v.Integer? then Coding.Varint(ZigZag(v.i)) else []
    case Fixed32 => if v.Word? then Fixed(v.n, 4) else []
    case Fixed64 => if v.Word? then Fixed(v.n, 8) else []
    case BytesArray(_) => if v.Data? then Lengthed(v.bytes) else []
    case CString(_) => if v.Text? then Lengthed(v.bytes) else []
    case Submessage(mt) => if v.Message? && |v.slots| == |mt.fields| then Lengthed(EncodeMessage(mt, v.slots)) else []
    case FixedBytes(_) => if v.Data? then Lengthed(v.bytes) else []
  }

  /** The first `n` items one after another. */
  function EncodeItems(l: LType, items: seq<Value>, n: nat): Bytes
    requires n <= |items|
    decreases l, 1, n
  {
    if n == 0 then [] else EncodeItems(l, items, n - 1) + EncodeValue(l, items[n - 1])
  }

  /** The first `n` items, each with its tag. */
  function EncodeTagged(number: nat, l: LType, items: seq<Value>, n: nat): Bytes
    requires n <= |items|
    decreases l, 1, n
  {
    if n == 0 then [] else EncodeTagged(number, l, items, n - 1) + FieldTag(number, WireType(l)) + EncodeValue(l, items[n - 1])
  }

  predicate Present(f: Field, s: Slot) {
    match f.rule
    case Required => s.Single?
    case Optional(hasField) => if hasField then s.Maybe? && s.has else s.Single? && !IsZero(f.ltype, s.v)
    case OneOf(_) => s.Alternative? && s.chosen
    case Repeated(_) => s.Many? && s.items != []
  }

  function EncodeSlot(f: Field, s: Slot): Bytes
    decreases f
  {
    if !Present(f, s) then []
    else if f.rule.Repeated? then
      if Packable(f.ltype) then FieldTag(f.tag, WT_STRING) + Lengthed(EncodeItems(f.ltype, s.items, |s.items|))
      else EncodeTagged(f.tag, f.ltype, s.items, |s.items|)
    else FieldTag(f.tag, WireType(f.ltype)) + EncodeValue(f.ltype, s.v)
  }

  function EncodeMessage(mt: MessageType, slots: seq<Slot>): Bytes
    requires |slots| == |mt.fields|
    decreases mt, 1, 0
  {
    EncodeFields(mt, slots, 0)
  }

  /** The fields from `k` on, in descriptor order. */
  function EncodeFields(mt: MessageType, slots: seq<Slot>, k: nat): Bytes
    requires |slots| == |mt.fields| && k <= |slots|
    decreases mt, 0, |slots| - k
  {
    if k == |slots| then [] else EncodeSlot(mt.fields[k], slots[k]) + EncodeFields(mt, slots, k + 1)
  }
}
