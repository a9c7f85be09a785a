/** The decoder over input streams. */
module NanopbInput {
  import opened InternalKeys
  import opened Coding
  import opened NanopbSchema
  import opened NanopbDecode

  class IStream {
    /** The buffer being read, how far it is read, and how many bytes this stream may still read. */
    const source: Bytes
    var state: nat
    var bytesLeft: nat

    ghost predicate Valid()
      reads this
    {
      state + bytesLeft <= |source|
    }

    ghost function Remaining(): (r: Bytes)
      requires Valid()
      reads this
      ensures |r| == bytesLeft
    {
      source[state..state + bytesLeft]
    }

    constructor (source: Bytes, state: nat, bytesLeft: nat)
      requires state + bytesLeft <= |source|
      ensures Valid() && this.source == source && this.state == state && this.bytesLeft == bytesLeft
    {
      this.source, this.state, this.bytesLeft := source, state, bytesLeft;
    }

    /** Where the stream ends does not move by reading. */
    method Read(count: nat) returns (ok: bool, b: Bytes)
      requires Valid()
      modifies this
      ensures Valid() && state + bytesLeft == old(state + bytesLeft)
      ensures ok <==> count <= old(bytesLeft)
      ensures ok ==> b == old(Remaining())[..count] && Remaining() == old(Remaining())[count..]
    {
      if count == 0 {
        return true, [];
      }
      if bytesLeft < count {
        return false, [];
      }
      b := source[state..state + count];
      state := state + count;
      bytesLeft := bytesLeft - count;
      return true, b;
    }

    method ReadByte() returns (ok: bool, byte: Byte)
      requires Valid()
      modifies this
      ensures Valid() && state + bytesLeft == old(state + bytesLeft)
      ensures ok <==> old(bytesLeft) > 0
      ensures ok ==> byte == old(Remaining())[0] && Remaining() == old(Remaining())[1..]
    {
      if bytesLeft == 0 {
        return false, 0;
      }
      byte := source[state];
      state := state + 1;
      bytesLeft := bytesLeft - 1;
      return true, byte;
    }

    method DecodeVarint32() returns (ok: bool, dest: nat)
      requires Valid()
      modifies this
      ensures Valid() && state + bytesLeft == old(state + bytesLeft)
      ensures ok <==> Varint32In(old(Remaining())).Some?
      ensures ok ==> Varint32In(old(Remaining())) == Some((dest, Remaining()))
    {
      hide Varint32From;
      var byte;
      ok, byte := ReadByte();
      if !ok {
        return false, 0;
      }
      if byte < 128 {
        return true, byte;
      }
      var result, bitpos := byte - 128, 7;
      while true
        invariant Valid() && state + bytesLeft == old(state + bytesLeft) && 0 <= result < TWO32 && 0 <= bitpos
        invariant Varint32In(old(Remaining())) == Varint32From(Remaining(), result, bitpos)
        decreases bytesLeft
      {
        Varint32Next(Remaining(), result, bitpos);
        ok, byte := ReadByte();
        if !ok {
          return false, 0;
        }
        if bitpos >= 32 {
          var signExtension := if bitpos < 63 then 0xff else 0x01;
          if byte % 128 != 0 && (result < 0x8000_0000 || byte != signExtension) {
            return false, 0;
          }
        } else {
          assert Accumulated(result, byte, bitpos) == Or(result, byte % 128 * Power2(bitpos) % TWO32);
          result := Or(result, byte % 128 * Power2(bitpos) % TWO32);
        }
        var next := (bitpos + 7) % 256;
        if byte < 128 {
          if next == 35 && byte / 16 % 8 != 0 {
            return false, 0;
          }
          return true, result;
        }
        bitpos := next;
      }
    }

    method DecodeVarint() returns (ok: bool, dest: nat)
      requires Valid()
      modifies this
      ensures Valid() && state + bytesLeft == old(state + bytesLeft)
      ensures ok <==> Varint64In(old(Remaining())).Some?
      ensures ok ==> Varint64In(old(Remaining())) == Some((dest, Remaining()))
    {
      hide Resumed;
      hide VarintIn;
      ghost var input := Remaining();
      ghost var full: nat := 0;
      VarintStarts(input);
      var result, bitpos, scale: nat := 0, 0, 1;
      ghost var p: nat := 0;
      while true
        invariant Valid() && state + bytesLeft == old(state + bytesLeft)
        invariant p <= 10 && p <= |input| && bitpos == 7 * p && Remaining() == input[p..]
        invariant result == full % TWO64
        invariant Resumed(VarintIn(input, 10), full, scale, p, VarintIn(input[p..], 10 - p))
        decreases bytesLeft
      {
        VarintEnds(input, full, scale, p);
        if bitpos >= 64 {
          return false, 0;
        }
        var byte;
        ok, byte := ReadByte();
        if !ok {
          return false, 0;
        }
        var part := byte % 128 * scale;
        VarintStep(input, full, scale, p, part);
        ModAdd(full, part);
        result := (result + part) % TWO64;
        full := full + part;
        bitpos := bitpos + 7;
        p := p + 1;
        if byte < 128 {
          return true, result;
        }
        scale := scale * 128;
      }
    }
  }

  lemma Varint32Next(b: Bytes, result: nat, bitpos: nat)
    requires result < TWO32
    ensures Varint32From(b, result, bitpos) ==
            if b == [] || Overflows(result, b[0], bitpos) then None
            else if b[0] >= 128 then Varint32From(b[1..], Accumulated(result, b[0], bitpos), Advanced(bitpos))
            else if LastTooBig(b[0], bitpos) then None
            else Some((Accumulated(result, b[0], bitpos), b[1..]))
  {
  }

  lemma VarintStarts(input: Bytes)
    ensures Resumed(VarintIn(input, 10), 0, 1, 0, VarintIn(input[0..], 10))
  {
    assert input[0..] == input;
  }

  lemma VarintStep(input: Bytes, full: nat, scale: nat, p: nat, part: nat)
    requires p < 10 && p < |input| && part == input[p] % 128 * scale
    requires Resumed(VarintIn(input, 10), full, scale, p, VarintIn(input[p..], 10 - p))
    ensures input[p] < 128 ==> Varint64In(input) == Some(((full + part) % TWO64, input[p + 1..]))
    ensures input[p] >= 128 ==> Resumed(VarintIn(input, 10), full + part, scale * 128, p + 1, VarintIn(input[p + 1..], 10 - (p + 1)))
  {
    hide VarintIn;
    hide Resumed;
    Resume(VarintIn(input, 10), input, 10, full, scale, p);
  }

  lemma VarintEnds(input: Bytes, full: nat, scale: nat, p: nat)
    requires p <= 10 && p <= |input| && Resumed(VarintIn(input, 10), full, scale, p, VarintIn(input[p..], 10 - p))
    ensures p == 10 || p == |input| ==> Varint64In(input).None?
  {
  }

  lemma ModAdd(a: nat, b: nat)
    ensures (a % TWO64 + b) % TWO64 == (a + b) % TWO64
  {
    var m := TWO64;
    assert a == a / m * m + a % m;
    assert (a + b) == (a % m + b) + a / m * m;
    ModPlus(a % m + b, a / m);
  }

  lemma {:induction false} ModPlus(a: nat, k: nat)
    ensures (a + k * TWO64) % TWO64 == a % TWO64
    decreases k
  {
    if k > 0 {
      ModPlus(a, k - 1);
      assert a + k * TWO64 == (a + (k - 1) * TWO64) + TWO64;
    }
  }
}
