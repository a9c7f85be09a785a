/** Integers, strings and packed arrays read back. */
module NanopbScalars {
  import opened InternalKeys
  import opened Coding
  import opened NanopbSchema
  import opened NanopbEncode
  import opened NanopbDecode

  // ---- Integers ----

  lemma Powers()
    ensures Power2(7) == 0x80 && Power2(14) == 0x4000 && Power2(21) == 0x20_0000 && Power2(28) == 0x1000_0000
  {
    assert Power2(3) == 8 && Power2(5) == 32;
    assert Power2(10) == 1024 && Power2(12) == 4096;
    assert Power2(17) == 0x2_0000 && Power2(19) == 0x8_0000;
    assert Power2(24) == 0x100_0000 && Power2(26) == 0x400_0000;
  }

  /** The scale at which the `i`th byte is added. */
  function Scale(i: nat): nat {
    if i == 1 then 0x80 else if i == 2 then 0x4000 else if i == 3 then 0x20_0000 else 0x1000_0000
  }

  /** One round of the 32-bit loop. */
  lemma Varint32Step(byte: Byte, tail: Bytes, result: nat, i: nat)
    requires 1 <= i <= 4 && result < Scale(i) && result + byte % 128 * Scale(i) < TWO32
    ensures Varint32From([byte] + tail, result, 7 * i) ==
            if byte >= 128 then Varint32From(tail, result + byte % 128 * Scale(i), 7 * (i + 1))
            else if LastTooBig(byte, 7 * i) then None
            else Some((result + byte % 128 * Scale(i), tail))
  {
    Powers();
    hide Power2;
    hide LastTooBig;
    hide Or;
    SmallMod(byte % 128 * Scale(i));
    OrAdds(result, byte % 128, 7 * i);
    assert Accumulated(result, byte, 7 * i) == result + byte % 128 * Scale(i);
    assert !Overflows(result, byte, 7 * i) && Advanced(7 * i) == 7 * (i + 1);
    hide Accumulated;
    hide Overflows;
    hide Advanced;
    assert ([byte] + tail)[1..] == tail;
  }

  lemma SmallMod(n: nat)
    requires n < TWO32
    ensures n % TWO32 == n
  {
  }

  /** One group of seven bits split off. */
  lemma Regroup(x: nat, s: nat)
    ensures x * s == x / 128 * (128 * s) + x % 128 * s
  {
    var high, low := x / 128, x % 128;
    assert x == 128 * high + low;
    assert (128 * high + low) * s == (128 * high) * s + low * s;
    assert (128 * high) * s == high * (128 * s);
  }

  lemma FirstGroup(h: nat, rest: Bytes)
    requires h >= 128
    ensures Coding.Varint(h) + rest == [h % 128 + 128] + (Coding.Varint(h / 128) + rest)
  {
  }

  lemma SmallGroup(low: nat, s: nat, result: nat)
    requires low < 128 && result < s <= 0x20_0000
    ensures (low + 128) % 128 == low && result + low * s < 128 * s < TWO32
  {
    AtLeast(s, low, 127);
    Halved(low);
  }

  lemma Halved(low: nat)
    requires low < 128
    ensures (low + 128) % 128 == low
  {
  }

  lemma LastScale(x: nat, i: nat, result: nat)
    requires 1 <= i <= 4 && x >= 128 && result + x * Scale(i) < TWO32
    ensures i < 4 && Scale(i + 1) == 128 * Scale(i)
  {
  }

  lemma ShortGroup(x: nat, i: nat, result: nat)
    requires x < 128 && 1 <= i <= 4 && result + x * Scale(i) < TWO32
    ensures Coding.Varint(x) == [x] && x % 128 == x && !LastTooBig(x, 7 * i)
  {
  }

  lemma {:induction false} Varint32Rest(x: nat, rest: Bytes, result: nat, i: nat)
    requires 1 <= i <= 4 && result < Scale(i) && result + x * Scale(i) < TWO32
    ensures Varint32From(Coding.Varint(x) + rest, result, 7 * i) == Some((result + x * Scale(i), rest))
    decreases 4 - i
  {
    hide Varint32From, Coding.Varint, LastTooBig;
    if x < 128 {
      ShortGroup(x, i, result);
      hide Scale;
      Varint32Step(x, rest, result, i);
    } else {
      var s := Scale(i);
      var high, low := x / 128, x % 128;
      Regroup(x, s);
      LastScale(x, i, result);
      FirstGroup(x, rest);
      SmallGroup(low, s, result);
      hide Scale;
      Varint32Step(low + 128, Coding.Varint(high) + rest, result, i);
      Varint32Rest(high, rest, result + low * s, i + 1);
    }
  }

  lemma Varint32Back(x: nat, rest: Bytes)
    requires x < TWO32
    ensures Varint32In(Coding.Varint(x) + rest) == Some((x, rest))
  {
    var b := Coding.Varint(x) + rest;
    if x < 128 {
      assert b[1..] == rest;
    } else {
      assert b[1..] == Coding.Varint(x / 128) + rest;
      Varint32Rest(x / 128, rest, x % 128, 1);
    }
  }

  lemma Varint64Back(x: nat, rest: Bytes)
    requires x < TWO64
    ensures Varint64In(Coding.Varint(x) + rest) == Some((x, rest))
  {
    Pow128();
    VarintLength(x, 10);
    VarintBack(x, rest, 10);
  }

  lemma FixedInBack(n: nat, width: nat, rest: Bytes)
    requires n < Pow(256, width)
    ensures FixedIn(Fixed(n, width) + rest, width) == Some((n, rest))
  {
    FixedBack(n, width);
    assert (Fixed(n, width) + rest)[..width] == Fixed(n, width);
    assert (Fixed(n, width) + rest)[width..] == rest;
  }

  lemma SignedBack(i: int, width: nat)
    requires IsWidth(width) && Signed(i, width)
    ensures NumberValue(LType.Varint(width), ToU64(i)) == Some(Integer(i))
    ensures ZigZag(i) < TWO64 && NumberValue(SVarint(width), ZigZag(i)) == Some(Integer(i))
  {
    TwosComplement(i);
    ZigZagBack(i);
    hide ToU64, ZigZag, UnZigZag;
  }

  lemma ZigZagBack(i: int)
    ensures UnZigZag(ZigZag(i)) == i && (-0x8000_0000_0000_0000 <= i < 0x8000_0000_0000_0000 ==> ZigZag(i) < TWO64)
  {
    if i < 0 {
      Halves(-2 * i - 1, -i - 1, 1);
    } else {
      Halves(2 * i, i, 0);
    }
  }

  lemma Halves(n: nat, h: nat, r: nat)
    requires n == 2 * h + r && r < 2
    ensures n / 2 == h && n % 2 == r
  {
  }

  lemma TwosComplement(i: int)
    requires -0x8000_0000_0000_0000 <= i < 0x8000_0000_0000_0000
    ensures ToU64(i) == (if i < 0 then i + TWO64 else i) && AsSigned(ToU64(i), TWO64) == i
    ensures -0x8000_0000 <= i < 0x8000_0000 ==> AsSigned(ToU64(i), TWO32) == i
  {
    if -0x8000_0000 <= i < 0x8000_0000 {
      LowHalf(i);
    }
  }

  lemma LowHalf(i: int)
    requires -0x8000_0000 <= i < 0x8000_0000
    ensures (if i < 0 then i + TWO64 else i) % TWO32 == if i < 0 then i + TWO32 else i
  {
  }

  lemma LengthedBack(b: Bytes, rest: Bytes)
    requires |b| < TWO32
    ensures LengthedIn(Lengthed(b) + rest) == Some((b, rest))
  {
    Varint32Back(|b|, b + rest);
    assert Lengthed(b) + rest == Coding.Varint(|b|) + (b + rest);
    assert (b + rest)[..|b|] == b && (b + rest)[|b|..] == rest;
  }

  lemma {:induction false} NoZero(b: Bytes)
    requires 0 !in b
    ensures UpToZero(b) == b
  {
    if b != [] {
      assert b[0] in b;
      NoZero(b[1..]);
    }
  }

  /** A value that is not a submessage comes back as it was. */
  lemma {:induction false} ScalarBack(l: LType, v: Value, rest: Bytes)
    requires GoodType(l) && !l.Submessage? && FitsValue(l, v) && |EncodeValue(l, v)| < TWO32
    ensures ScalarIn(l, EncodeValue(l, v) + rest) == Some((v, rest))
  {
    hide Varint32In;
    hide Varint64In;
    hide FixedIn;
    hide Coding.Varint;
    hide NumberValue;
    hide ToU64;
    hide ZigZag;
    hide Fixed;
    hide UpToZero;
    match l {
      case Bool => BoolBack(v.b, rest);
      case Varint(w) =>
        SignedBack(v.i, w);
        Varint64Back(ToU64(v.i), rest);
      case UVarint(w) =>
        UnsignedBack(v.i, w);
        Varint64Back(v.i, rest);
      case SVarint(w) =>
        SignedBack(v.i, w);
        Varint64Back(ZigZag(v.i), rest);
      case Fixed32 =>
        Pow256();
        WordBack(v.n);
        FixedInBack(v.n, 4, rest);
      case Fixed64 =>
        Pow256();
        WordBack(v.n);
        FixedInBack(v.n, 8, rest);
      case BytesArray(_) => LengthRead(v.bytes, rest);
      case CString(_) =>
        LengthRead(v.bytes, rest);
        NoZero(v.bytes);
      case FixedBytes(n) =>
        LengthRead(v.bytes, rest);
        assert n == 0 ==> v.bytes == seq(n, _ => 0);
      case Submessage(_) => assert false;
    }
  }

  lemma LengthRead(b: Bytes, rest: Bytes)
    requires |Lengthed(b)| < TWO32
    ensures Varint32In(Lengthed(b) + rest) == Some((|b|, b + rest))
    ensures (b + rest)[..|b|] == b && (b + rest)[|b|..] == rest
  {
    hide Varint32In;
    Varint32Back(|b|, b + rest);
    assert Lengthed(b) + rest == Coding.Varint(|b|) + (b + rest);
  }

  lemma UnsignedBack(n: nat, width: nat)
    requires IsWidth(width) && n < Range(width)
    ensures n < TWO64 && ToU64(n) == n && NumberValue(UVarint(width), n) == Some(Integer(n))
  {
  }

  lemma WordBack(n: nat)
    ensures NumberValue(Fixed32, n) == Some(Word(n)) && NumberValue(Fixed64, n) == Some(Word(n))
  {
  }

  lemma BoolBack(b: bool, rest: Bytes)
    ensures var n := if b then 1 else 0;
            NumberValue(Bool, n) == Some(Flag(b)) && Varint32In([n] + rest) == Some((n, rest))
  {
    var n := if b then 1 else 0;
    assert ([n] + rest)[1..] == rest;
  }

  // ---- Packed arrays ----

  /** The first `n` items, read behind those there already. */
  lemma {:induction false} PackedBack(l: LType, items: seq<Value>, n: nat, before: seq<Value>, max: nat, tail: Bytes)
    requires GoodType(l) && Packable(l) && n <= |items| && |before| + |items| <= max
    requires forall i :: 0 <= i < |items| ==> FitsValue(l, items[i])
    requires |EncodeItems(l, items, n)| < TWO32
    ensures PackedIn(l, EncodeItems(l, items, n) + tail, before, max) == PackedIn(l, tail, before + items[..n], max)
  {
    hide ScalarIn;
    hide GoodType;
    hide FitsValue;
    hide EncodeValue;
    if n == 0 {
      assert [] + tail == tail && before + items[..0] == before;
    } else {
      var e, part := EncodeValue(l, items[n - 1]), EncodeItems(l, items, n - 1);
      ScalarBack(l, items[n - 1], tail);
      PackedBack(l, items, n - 1, before, max, e + tail);
      assert part + e + tail == part + (e + tail);
      assert before + items[..n] == before + items[..n - 1] + [items[n - 1]];
    }
  }

  lemma PackedAll(l: LType, items: seq<Value>, before: seq<Value>, max: nat)
    requires GoodType(l) && Packable(l) && |before| + |items| <= max
    requires forall i :: 0 <= i < |items| ==> FitsValue(l, items[i])
    requires |EncodeItems(l, items, |items|)| < TWO32
    ensures PackedIn(l, EncodeItems(l, items, |items|), before, max) == Some(before + items)
  {
    hide EncodeItems;
    hide ScalarIn;
    PackedBack(l, items, |items|, before, max, []);
    assert EncodeItems(l, items, |items|) + [] == EncodeItems(l, items, |items|);
    assert items[..|items|] == items;
  }
}
