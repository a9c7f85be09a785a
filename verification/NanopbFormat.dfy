/** The bytes on the wire. */
module NanopbFormat {
  import opened InternalKeys
  import opened Coding
  import opened NanopbSchema
  import opened NanopbEncode
  import opened NanopbDecode
  import opened NanopbScalars

  // ---- Which varints a 32-bit reader takes ----

  /** What is left of a number above `i` groups of seven bits is zeros and ones by the group, ending in bit 63. */
  predicate Extends(h: nat, i: nat)
    decreases 9 - i
  {
    if i >= 9 then h == 1 else h >= 128 && (h % 128 == 0 || h % 128 == 127) && Extends(h / 128, i + 1)
  }

  lemma HighStep(byte: Byte, tail: Bytes, result: nat, i: nat)
    requires 5 <= i <= 9 && result < TWO32
    ensures Varint32From([byte] + tail, result, 7 * i) ==
            if byte % 128 != 0 && (result < 0x8000_0000 || byte != (if i < 9 then 0xff else 0x01)) then None
            else if byte >= 128 then Varint32From(tail, result, 7 * (i + 1))
            else Some((result, tail))
  {
    assert ([byte] + tail)[1..] == tail;
    assert Advanced(7 * i) == 7 * (i + 1);
  }

  lemma {:induction false} HighRest(h: nat, rest: Bytes, result: nat, i: nat)
    requires 5 <= i <= 9 && result < TWO32 && 1 <= h < Pow(2, 64 - 7 * i)
    ensures Varint32From(Coding.Varint(h) + rest, result, 7 * i) ==
            if result >= 0x8000_0000 && Extends(h, i) then Some((result, rest)) else None
    decreases 9 - i
  {
    hide Varint32From;
    if h < 128 {
      HighStep(h, rest, result, i);
      if i == 9 {
        assert Pow(2, 1) == 2;
      }
    } else {
      assert i < 9 by {
        assert Pow(2, 1) == 2;
      }
      PowTwoStep(64 - 7 * (i + 1));
      assert Coding.Varint(h) + rest == [h % 128 + 128] + (Coding.Varint(h / 128) + rest);
      HighStep(h % 128 + 128, Coding.Varint(h / 128) + rest, result, i);
      HighRest(h / 128, rest, result, i + 1);
    }
  }

  lemma PowTwoStep(n: nat)
    ensures Pow(2, n + 7) == 128 * Pow(2, n)
  {
    assert Pow(2, n + 7) == 2 * Pow(2, n + 6) == 4 * Pow(2, n + 5) == 8 * Pow(2, n + 4);
    assert Pow(2, n + 4) == 2 * Pow(2, n + 3) == 4 * Pow(2, n + 2) == 8 * Pow(2, n + 1) == 16 * Pow(2, n);
  }

  /** What the 32-bit reader makes of a number. */
  function Taken(x: nat): Option<nat> {
    if x < 0x1_0000_0000 then Some(x)
    else if x % 0x1_0000_0000 >= 0x8000_0000 && Extends(x / 0x8_0000_0000, 5) then Some(x % 0x1_0000_0000)
    else None
  }

  function Behind(n: Option<nat>, rest: Bytes): Option<(nat, Bytes)> {
    match n
    case None => None
    case Some(n) => Some((n, rest))
  }

  /** The fifth byte: of its seven bits the upper three are dropped if another byte follows. */
  lemma FifthStep(h: nat, rest: Bytes, result: nat)
    requires result < 0x1000_0000 && 16 <= h < Pow(2, 36)
    ensures Varint32From(Coding.Varint(h) + rest, result, 28) == Behind(Taken(result + h * 0x1000_0000), rest)
  {
    hide Varint32From, Extends, Taken, Pow;
    FifthTaken(h, result);
    if h < 128 {
      FifthByte(h, rest, result);
    } else {
      assert Coding.Varint(h) + rest == [h % 128 + 128] + (Coding.Varint(h / 128) + rest);
      FifthByte(h % 128 + 128, Coding.Varint(h / 128) + rest, result);
      FifthRoom(h);
      HighRest(h / 128, rest, result + h % 16 * 0x1000_0000, 5);
    }
  }

  lemma FifthRoom(h: nat)
    requires 128 <= h < Pow(2, 36)
    ensures 1 <= h / 128 < Pow(2, 29) && (h % 128 + 128) % 16 == h % 16
  {
    PowTwoStep(29);
    hide Pow;
    Sixteens(h);
  }

  lemma Sixteens(h: nat)
    ensures h % 16 == h % 128 % 16 == (h % 128 + 128) % 16
  {
    var q, r := h / 128, h % 128;
    var s, t := r / 16, r % 16;
    Remainder(r, s, t);
    Remainder(h, 8 * q + s, t);
    Remainder(r + 128, s + 8, t);
  }

  lemma Remainder(x: nat, q: nat, t: nat)
    requires x == 16 * q + t && t < 16
    ensures x % 16 == t && x / 16 == q
  {
  }

  lemma FifthTaken(h: nat, result: nat)
    requires result < 0x1000_0000 && 16 <= h
    ensures var r := result + h % 16 * 0x1000_0000;
            Taken(result + h * 0x1000_0000) == if h >= 128 && r >= 0x8000_0000 && Extends(h / 128, 5) then Some(r) else None
  {
    hide Extends;
    var x := result + h * 0x1000_0000;
    FifthNumber(h, result);
    if h < 128 {
      ShortIsNot(x);
    }
  }

  lemma ShortIsNot(x: nat)
    requires x < 0x8_0000_0000
    ensures !Extends(x / 0x8_0000_0000, 5)
  {
  }

  lemma FifthNumber(h: nat, result: nat)
    requires result < 0x1000_0000
    ensures var x := result + h * 0x1000_0000;
            x % 0x1_0000_0000 == result + h % 16 * 0x1000_0000 && x / 0x8_0000_0000 == h / 128
  {
    Divided(h, 16);
    Divided(h, 128);
    var x, q, t, p, r := result + h * 0x1000_0000, h / 16, h % 16, h / 128, h % 128;
    Quotient(x, 0x1_0000_0000, q, result + t * 0x1000_0000);
    Quotient(x, 0x8_0000_0000, p, result + r * 0x1000_0000);
    Divided(x, 0x1_0000_0000);
  }

  lemma FifthByte(byte: Byte, tail: Bytes, result: nat)
    requires result < 0x1000_0000
    ensures var r := result + byte % 16 * 0x1000_0000;
            Varint32From([byte] + tail, result, 28) ==
            if byte >= 128 then Varint32From(tail, r, 35)
            else if byte >= 16 then None
            else Some((r, tail))
  {
    assert ([byte] + tail)[1..] == tail;
    FifthBits(byte, result);
    hide Accumulated, Power2;
    assert !Overflows(result, byte, 28) && Advanced(28) == 35;
  }

  lemma FifthBits(byte: Byte, result: nat)
    requires result < 0x1000_0000
    ensures Accumulated(result, byte, 28) == result + byte % 16 * 0x1000_0000
  {
    Powers();
    hide Power2, Or;
    Sixteens(byte);
    FifthNumber(byte % 128, 0);
    assert byte % 128 * Power2(28) == 0 + byte % 128 * 0x1000_0000;
    OrAdds(result, byte % 16, 28);
  }

  lemma FifthRange(h: nat, result: nat)
    requires result < 0x1000_0000 && TWO32 <= result + h * 0x1000_0000 < TWO64
    ensures 16 <= h < 0x10_0000_0000
  {
  }

  lemma LongEnough(h: nat, i: nat, result: nat)
    requires 1 <= i < 4 && result < Scale(i) && TWO32 <= result + h * Scale(i)
    ensures h >= 128 && Scale(i + 1) == 128 * Scale(i)
  {
  }

  lemma {:induction false} LowRest(h: nat, rest: Bytes, result: nat, i: nat)
    requires 1 <= i <= 4 && result < Scale(i) && TWO32 <= result + h * Scale(i) < TWO64
    ensures Varint32From(Coding.Varint(h) + rest, result, 7 * i) == Behind(Taken(result + h * Scale(i)), rest)
    decreases 4 - i
  {
    hide Varint32From, Taken, Coding.Varint;
    if i == 4 {
      PowTwoSizes();
      FifthRange(h, result);
      hide Pow;
      FifthStep(h, rest, result);
    } else {
      var s, high, low := Scale(i), h / 128, h % 128;
      Regroup(h, s);
      LongEnough(h, i, result);
      FirstGroup(h, rest);
      SmallGroup(low, s, result);
      hide Scale;
      Varint32Step(low + 128, Coding.Varint(high) + rest, result, i);
      LowRest(high, rest, result + low * s, i + 1);
    }
  }

  lemma PowTwoSizes()
    ensures Pow(2, 36) == 0x10_0000_0000
  {
    assert Pow(2, 8) == 0x100;
    PowTwoStep(1);
    PowTwoStep(8);
    PowTwoStep(15);
    PowTwoStep(22);
    PowTwoStep(29);
  }

  /** Of all 64-bit numbers the 32-bit reader takes those that fit, and those whose bit 31 and upper groups look like a
      sign extension; of those it keeps the low 32 bits, although bits 32 to 34 may be anything. */
  lemma Varint32Exact(x: nat, rest: Bytes)
    requires x < TWO64
    ensures Varint32In(Coding.Varint(x) + rest) == Behind(Taken(x), rest)
  {
    hide Extends, Varint32From;
    if x < TWO32 {
      Varint32Back(x, rest);
    } else {
      var b := Coding.Varint(x) + rest;
      assert b[1..] == Coding.Varint(x / 128) + rest;
      LowRest(x / 128, rest, x % 128, 1);
    }
  }

  // ---- Examples ----

  const NUMBER: MessageType := MessageType([Field(1, Required, LType.Varint(4), None)])

  /** The number 150 under tag 1. */
  lemma NumberBytes()
    ensures EncodeMessage(NUMBER, [Single(Integer(150))]) == [0x08, 0x96, 0x01]
  {
  }

  /** Minus one takes ten bytes, or one with zigzag. */
  lemma NegativeBytes()
    ensures EncodeValue(LType.Varint(4), Integer(-1)) == [255, 255, 255, 255, 255, 255, 255, 255, 255, 1]
    ensures EncodeValue(SVarint(4), Integer(-1)) == [1] && EncodeValue(SVarint(4), Integer(1)) == [2]
  {
    hide Coding.Varint;
    VarintNext(0xffff_ffff_ffff_ffff);
    VarintNext(0x1ff_ffff_ffff_ffff);
    VarintNext(0x3_ffff_ffff_ffff);
    VarintNext(0x7ff_ffff_ffff);
    VarintNext(0xf_ffff_ffff);
    VarintNext(0x1fff_ffff);
    VarintNext(0x3f_ffff);
    VarintNext(0x7fff);
    VarintNext(0xff);
    VarintNext(1);
    VarintNext(2);
  }

  /** Fixed-width numbers are little-endian. */
  lemma FixedBytesAre()
    ensures EncodeSlot(Field(2, Required, Fixed32, None), Single(Word(0x0403_0201))) == [0x15, 1, 2, 3, 4]
    ensures EncodeSlot(Field(3, Required, Fixed64, None), Single(Word(1))) == [0x19, 1, 0, 0, 0, 0, 0, 0, 0]
  {
    Digits();
    hide EncodeItems, EncodeTagged, EncodeMessage, Fixed;
  }

  lemma Digits()
    ensures Fixed(0x0403_0201, 4) == [1, 2, 3, 4]
    ensures Fixed(1, 8) == [1, 0, 0, 0, 0, 0, 0, 0]
  {
    FixedDigit(0x0403_0201, 4);
    FixedDigit(0x04_0302, 3);
    FixedDigit(0x0403, 2);
    FixedDigit(0x04, 1);
    FixedDigit(1, 8);
    FixedDigit(0, 7);
    FixedDigit(0, 6);
    FixedDigit(0, 5);
    FixedDigit(0, 4);
    FixedDigit(0, 3);
    FixedDigit(0, 2);
    FixedDigit(0, 1);
    assert Fixed(0, 0) == [];
    hide Fixed;
  }

  lemma FixedDigit(x: nat, width: nat)
    requires width > 0
    ensures Fixed(x, width) == [x % 256] + Fixed(x / 256, width - 1)
  {
  }

  /** Strings carry their length. */
  lemma TextBytes()
    ensures EncodeSlot(Field(2, Required, CString(8), None), Single(Text([0x68, 0x69]))) == [0x12, 2, 0x68, 0x69]
  {
    hide EncodeItems, EncodeTagged, EncodeMessage;
  }

  /** A packed array has one tag and the size of its items. */
  lemma PackedBytes()
    ensures EncodeSlot(Field(4, Repeated(8), UVarint(4), None), Many([Integer(3), Integer(270)])) == [0x22, 3, 3, 0x8e, 2]
  {
    hide EncodeTagged, EncodeMessage;
  }

  /** A message type without fields takes number 0 for a bool of its own; any other skips it by its wire type. */
  lemma NumberZero()
    ensures Decode(MessageType([]), [1, 5]) == Some([])
    ensures Decode(MessageType([Field(1, Optional(true), LType.Varint(4), None)]), [1, 5]) == None
  {
    var p := Progress([], {});
    assert FieldsIn(MessageType([]), [], p) == Some(p);
    assert Varint32In([1, 5]) == Some((1, [5])) && Varint32In([5]) == Some((5, []));
    assert FieldsIn(MessageType([]), [1, 5], p) == Some(p);
    assert Defaults(MessageType([])) == [];
    var mt := MessageType([Field(1, Optional(true), LType.Varint(4), None)]);
    assert FieldFrom(mt, 0, 1) == None;
    assert FieldIndex(mt, 0) == None && Skipped([5], 1) == None;
    assert FieldsIn(mt, [1, 5], Progress(Defaults(mt), {})) == None;
  }

  // ---- What is not written ----

  /** A field takes no bytes exactly if it is not there; a proto3 singular one, if it is zero, which bytes of a fixed
      length never are unless there are none. */
  lemma WrittenIff(f: Field, s: Slot)
    requires FitsSlot(f, s) && !f.ltype.Submessage?
    ensures EncodeSlot(f, s) == [] <==>
            match f.rule
            case Required => false
            case Optional(hasField) => if hasField then !s.has else s.v == Zero(f.ltype) && (f.ltype.FixedBytes? ==> f.ltype.length == 0)
            case OneOf(_) => !s.chosen
            case Repeated(_) => s.items == []
  {
    hide Coding.Varint, EncodeItems, FitsValue, EncodeValue;
    if s.Single? {
      ZeroIs(f, s);
    }
    if f.rule.Repeated? && s.items != [] {
      assert FieldTag(f.tag, WT_STRING) != [] && FieldTag(f.tag, WireType(f.ltype)) != [];
    }
  }

  lemma ZeroIs(f: Field, s: Slot)
    requires FitsSlot(f, s) && !f.ltype.Submessage? && s.Single?
    ensures IsZero(f.ltype, s.v) <==> s.v == Zero(f.ltype) && (f.ltype.FixedBytes? ==> f.ltype.length == 0)
  {
  }
}
