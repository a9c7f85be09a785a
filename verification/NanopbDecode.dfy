/** What bytes are decoded to. */
module NanopbDecode {
  import opened InternalKeys
  import opened Coding
  import opened NanopbSchema
  import opened NanopbEncode

  // ---- Integers ----

  function Power2(n: nat): (p: nat)
    ensures p > 0
  {
    if n == 0 then 1 else 2 * Power2(n - 1)
  }

  /** A byte beyond the 32 bits may only continue a sign extension. */
  predicate Overflows(result: nat, byte: Byte, bitpos: nat) {
    bitpos >= 32 && byte % 128 != 0 && (result < 0x8000_0000 || byte != (if bitpos < 63 then 0xff else 0x01))
  }

  /** Bitwise or. */
  function Or(a: nat, b: nat): nat {
    if a == 0 || b == 0 then a + b else (if a % 2 == 1 || b % 2 == 1 then 1 else 0) + 2 * Or(a / 2, b / 2)
  }

  lemma {:induction false} OrBelow(a: nat, b: nat, n: nat)
    requires a < Power2(n) && b < Power2(n)
    ensures Or(a, b) < Power2(n)
  {
    if n > 0 {
      OrBelow(a / 2, b / 2, n - 1);
    }
  }

  /** Bits in different places add up. */
  lemma {:induction false} OrAdds(a: nat, c: nat, n: nat)
    requires a < Power2(n)
    ensures Or(a, c * Power2(n)) == a + c * Power2(n)
  {
    if n > 0 {
      var b := c * Power2(n - 1);
      assert c * Power2(n) == 2 * b;
      OrAdds(a / 2, c, n - 1);
      OrDouble(a, b);
    }
  }

  lemma OrDouble(a: nat, b: nat)
    ensures Or(a, 2 * b) == a % 2 + 2 * Or(a / 2, b)
  {
  }

  lemma WordSize()
    ensures Power2(32) == TWO32
  {
    assert Power2(8) == 256 && Power2(16) == 0x1_0000 && Power2(24) == 0x100_0000;
  }

  function Accumulated(result: nat, byte: Byte, bitpos: nat): (r: nat)
    requires result < TWO32
    ensures r < TWO32
  {
    if bitpos >= 32 then result
    else
      var bits := byte % 128 * Power2(bitpos) % TWO32;
      WordSize();
      OrBelow(result, bits, 32);
      Or(result, bits)
  }

  /** The position is an 8-bit counter. */
  function Advanced(bitpos: nat): nat {
    (bitpos + 7) % 256
  }

  /** Only four bits of the fifth byte fit. */
  predicate LastTooBig(byte: Byte, bitpos: nat) {
    Advanced(bitpos) == 35 && byte / 16 % 8 != 0
  }

  /** The 32-bit varint loop after `bitpos` bits have been put together. */
  function Varint32From(b: Bytes, result: nat, bitpos: nat): (r: Option<(nat, Bytes)>)
    requires result < TWO32
    ensures r.Some? ==> |r.value.1| < |b| && r.value.0 < TWO32
  {
    if b == [] || Overflows(result, b[0], bitpos) then None
    else if b[0] >= 128 then Varint32From(b[1..], Accumulated(result, b[0], bitpos), Advanced(bitpos))
    else if LastTooBig(b[0], bitpos) then None
    else Some((Accumulated(result, b[0], bitpos), b[1..]))
  }

  function Varint32In(b: Bytes): (r: Option<(nat, Bytes)>)
    ensures r.Some? ==> |r.value.1| < |b| && r.value.0 < TWO32
  {
    if b == [] then None
    else if b[0] < 128 then Some((b[0], b[1..]))
    else Varint32From(b[1..], b[0] - 128, 7)
  }

  function Varint64In(b: Bytes): (r: Option<(nat, Bytes)>)
    ensures r.Some? ==> |r.value.1| < |b| && r.value.0 < TWO64
  {
    match VarintIn(b, 10)
    case None => None
    case Some((x, n)) => Some((x % TWO64, b[n..]))
  }

  function FixedIn(b: Bytes, width: nat): Option<(nat, Bytes)> {
    if |b| < width then None else Some((FromFixed(b[..width]), b[width..]))
  }

  /** The bytes of a length-prefixed piece and what follows it. */
  function LengthedIn(b: Bytes): (r: Option<(Bytes, Bytes)>)
    ensures r.Some? ==> |r.value.0| + |r.value.1| < |b|
  {
    match Varint32In(b)
    case None => None
    case Some((n, rest)) => if |rest| < n then None else Some((rest[..n], rest[n..]))
  }

  function AsSigned(n: nat, modulus: nat): int
    requires modulus > 0
  {
    var m := n % modulus;
    if 2 * m < modulus then m else m - modulus
  }

  function UnZigZag(n: nat): int {
    if n % 2 == 1 then -(n / 2) - 1 else n / 2
  }

  // ---- Values ----

  /** The value an integer read from the stream stands for, unless it does not fit the field. */
  function NumberValue(l: LType, n: nat): Option<Value> {
    match l
    case Bool => Some(Flag(n != 0))
    case Varint(w) =>
      var i := if w == 8 then AsSigned(n, TWO64) else AsSigned(n, TWO32);
      if Signed(i, w) then Some(Integer(i)) else None
    case UVarint(w) => if n < Range(w) then Some(Integer(n)) else None
    case SVarint(w) => if Signed(UnZigZag(n), w) then Some(Integer(UnZigZag(n))) else None
    case Fixed32 => Some(Word(n))
    case Fixed64 => Some(Word(n))
    case _ => None
  }

  function Number(l: LType, r: Option<(nat, Bytes)>): Option<(Value, Bytes)> {
    match r
    case None => None
    case Some((n, rest)) =>
      match NumberValue(l, n)
      case None => None
      case Some(v) => Some((v, rest))
  }

  function DataValue(r: Option<(nat, Bytes)>, l: LType): Option<(Value, Bytes)> {
    match r
    case None => None
    case Some((n, rest)) =>
      if l.BytesArray? then
        if n > SIZE_MAX || n > l.max || |rest| < n then None else Some((Data(rest[..n]), rest[n..]))
      else if l.CString? then
        if n + 1 >= TWO32 || n + 1 > l.size || |rest| < n then None else Some((Text(UpToZero(rest[..n])), rest[n..]))
      else if l.FixedBytes? then
        if n > SIZE_MAX then None
        else if n == 0 then Some((Data(seq(l.length, _ => 0)), rest))
        else if n != l.length || |rest| < n then None
        else Some((Data(rest[..n]), rest[n..]))
      else None
  }

  /** What a C string reads as. */
  function UpToZero(b: Bytes): Bytes {
    if b == [] || b[0] == 0 then [] else [b[0]] + UpToZero(b[1..])
  }

  /** A value of a type that is not a submessage. */
  function ScalarIn(l: LType, b: Bytes): (r: Option<(Value, Bytes)>)
    requires !l.Submessage?
    ensures r.Some? ==> |r.value.1| < |b|
  {
    match l
    case Bool => Number(l, Varint32In(b))
    case Varint(_) => Number(l, Varint64In(b))
    case UVarint(_) => Number(l, Varint64In(b))
    case SVarint(_) => Number(l, Varint64In(b))
    case Fixed32 => Number(l, FixedIn(b, 4))
    case Fixed64 => Number(l, FixedIn(b, 8))
    case _ => DataValue(Varint32In(b), l)
  }

  // ---- Messages ----

  /** The field with this tag. */
  function FieldIndex(mt: MessageType, tag: nat): (r: Option<nat>)
    ensures r.Some? ==> r.value < |mt.fields| && mt.fields[r.value].tag == tag
    ensures r.None? ==> forall i :: 0 <= i < |mt.fields| ==> mt.fields[i].tag != tag
  {
    FieldFrom(mt, tag, 0)
  }

  function FieldFrom(mt: MessageType, tag: nat, k: nat): (r: Option<nat>)
    requires k <= |mt.fields|
    ensures r.Some? ==> k <= r.value < |mt.fields| && mt.fields[r.value].tag == tag
    ensures r.None? ==> forall i :: k <= i < |mt.fields| ==> mt.fields[i].tag != tag
    decreases |mt.fields| - k
  {
    if k == |mt.fields| then None else if mt.fields[k].tag == tag then Some(k) else FieldFrom(mt, tag, k + 1)
  }

  /** What an unknown field leaves. */
  function Skipped(b: Bytes, wire: nat): (r: Option<Bytes>)
    ensures r.Some? ==> |r.value| <= |b|
  {
    if wire == WT_VARINT then SkipVarint(b)
    else if wire == WT_64BIT then (if |b| < 8 then None else Some(b[8..]))
    else if wire == WT_STRING then
      match LengthedIn(b)
      case None => None
      case Some((_, rest)) => Some(rest)
    else if wire == WT_32BIT then (if |b| < 4 then None else Some(b[4..]))
    else None
  }

  function SkipVarint(b: Bytes): (r: Option<Bytes>)
    ensures r.Some? ==> |r.value| <= |b|
  {
    if b == [] then None else if b[0] >= 128 then SkipVarint(b[1..]) else Some(b[1..])
  }

  /** Items of a packed array, until the array is full or the bytes are used up. */
  function PackedIn(l: LType, b: Bytes, items: seq<Value>, max: nat): Option<seq<Value>>
    requires Packable(l)
    decreases |b|
  {
    if b == [] then Some(items)
    else if |items| >= max then None
    else
      match ScalarIn(l, b)
      case None => None
      case Some((v, rest)) => PackedIn(l, rest, items + [v], max)
  }

  /** The message read so far, and the indices of the required fields seen. */
  datatype Progress = Progress(slots: seq<Slot>, seen: set<nat>)

  const MAX_REQUIRED: nat := 64

  /** How many required fields come before field `k`. */
  function RequiredBefore(mt: MessageType, k: nat): (n: nat)
    requires k <= |mt.fields|
    ensures n <= k
  {
    if k == 0 then 0 else RequiredBefore(mt, k - 1) + if mt.fields[k - 1].rule.Required? then 1 else 0
  }

  function Seen(mt: MessageType, k: nat, seen: set<nat>): set<nat>
    requires k < |mt.fields|
  {
    if mt.fields[k].rule.Required? && RequiredBefore(mt, k) < MAX_REQUIRED then seen + {RequiredBefore(mt, k)} else seen
  }

  /** Choosing one member of a union drops the others. */
  function Chosen(mt: MessageType, slots: seq<Slot>, k: nat, v: Value): (r: seq<Slot>)
    requires |slots| == |mt.fields| && k < |slots|
    ensures |r| == |slots|
  {
    seq(|slots|, i requires 0 <= i < |slots| =>
      if i == k then Alternative(true, v)
      else if SameUnion(mt.fields[i], mt.fields[k]) then Alternative(false, Unset)
      else slots[i])
  }

  /** A slot with a newly decoded value. */
  function Stored(f: Field, s: Slot, v: Value): Slot {
    match f.rule
    case Required => Single(v)
    case Optional(hasField) => if hasField then Maybe(true, v) else Single(v)
    case Repeated(_) => Many((if s.Many? then s.items else []) + [v])
    case OneOf(_) => Alternative(true, v)
  }

  function Placed(mt: MessageType, slots: seq<Slot>, k: nat, v: Value): (r: seq<Slot>)
    requires |slots| == |mt.fields| && k < |slots|
    ensures |r| == |slots| && r[k] == Stored(mt.fields[k], slots[k], v)
  {
    if mt.fields[k].rule.OneOf? then Chosen(mt, slots, k, v) else slots[k := Stored(mt.fields[k], slots[k], v)]
  }

  /** The value a field's bytes are decoded over. */
  function Current(f: Field, s: Slot): Value {
    match f.rule
    case Required => if s.Single? then s.v else Unset
    case Optional(_) => if s.Single? || s.Maybe? then s.v else Unset
    case Repeated(_) => DefaultValue(f)
    case OneOf(_) => if s.Alternative? && s.chosen then s.v else DefaultValue(f)
  }

  function ValueIn(l: LType, b: Bytes, current: Value): (r: Option<(Value, Bytes)>)
    ensures r.Some? ==> |r.value.1| < |b|
    decreases |b|, 0
  {
    if l.Submessage? then
      match LengthedIn(b)
      case None => None
      case Some((sub, rest)) =>
        if !current.Message? || |current.slots| != |l.fields.fields| then None
        else
          match MessageIn(l.fields, sub, current.slots)
          case None => None
          case Some(slots) => Some((Message(slots), rest))
    else ScalarIn(l, b)
  }

  /** One field, its tag already read. */
  function FieldIn(mt: MessageType, k: nat, wire: nat, b: Bytes, slots: seq<Slot>): (r: Option<(seq<Slot>, Bytes)>)
    requires k < |mt.fields| && |slots| == |mt.fields|
    ensures r.Some? ==> |r.value.0| == |mt.fields| && |r.value.1| < |b|
    decreases |b|, 1
  {
    var f, s := mt.fields[k], slots[k];
    if f.rule.Repeated? && wire == WT_STRING && Packable(f.ltype) then
      match LengthedIn(b)
      case None => None
      case Some((sub, rest)) =>
        match PackedIn(f.ltype, sub, if s.Many? then s.items else [], f.rule.max)
        case None => None
        case Some(items) => Some((slots[k := Many(items)], rest))
    else if f.rule.Repeated? && s.Many? && |s.items| >= f.rule.max then None
    else
      match ValueIn(f.ltype, b, Current(f, s))
      case None => None
      case Some((v, rest)) => Some((Placed(mt, slots, k, v), rest))
  }

  /** All fields up to the end of the bytes or a zero tag. */
  function FieldsIn(mt: MessageType, b: Bytes, p: Progress): (r: Option<Progress>)
    requires |p.slots| == |mt.fields|
    ensures r.Some? ==> |r.value.slots| == |mt.fields|
    decreases |b|, 2
  {
    if b == [] then Some(p)
    else
      match Varint32In(b)
      case None => None
      case Some((key, rest)) =>
        if key == 0 then Some(p)
        else if key / 8 == 0 && mt.fields == [] then
          // The terminator of an empty message type is found under number 0 and read like a bool.
          match Varint32In(rest)
          case None => None
          case Some((_, rest')) => FieldsIn(mt, rest', p)
        else
          match FieldIndex(mt, key / 8)
          case None =>
            (match Skipped(rest, key % 8)
             case None => None
             case Some(rest') => FieldsIn(mt, rest', p))
          case Some(k) =>
            match FieldIn(mt, k, key % 8, rest, p.slots)
            case None => None
            case Some((slots, rest')) => FieldsIn(mt, rest', Progress(slots, Seen(mt, k, p.seen)))
  }

  /** Every one of the first 64 required fields was seen. */
  predicate AllSeen(mt: MessageType, seen: set<nat>) {
    forall i :: 0 <= i < RequiredBefore(mt, |mt.fields|) && i < MAX_REQUIRED ==> i in seen
  }

  /** A message decoded over `slots`. */
  function MessageIn(mt: MessageType, b: Bytes, slots: seq<Slot>): (r: Option<seq<Slot>>)
    requires |slots| == |mt.fields|
    ensures r.Some? ==> |r.value| == |mt.fields|
    decreases |b|, 3
  {
    match FieldsIn(mt, b, Progress(slots, {}))
    case None => None
    case Some(p) => if AllSeen(mt, p.seen) then Some(p.slots) else None
  }

  function Decode(mt: MessageType, b: Bytes): Option<seq<Slot>> {
    MessageIn(mt, b, Defaults(mt))
  }
}
