/** Fixed-width and variable-length integers, and length-prefixed strings. */
module Coding {
  import opened InternalKeys

  // ---- Fixed width ----

  function Pow(base: nat, n: nat): (p: nat)
    requires base > 0
    ensures p > 0
  {
    if n == 0 then 1 else base * Pow(base, n - 1)
  }

  /** `width` bytes, least significant first. */
  function Fixed(x: nat, width: nat): (r: Bytes)
    ensures |r| == width
  {
    if width == 0 then [] else [x % 256] + Fixed(x / 256, width - 1)
  }

  function FromFixed(b: Bytes): (x: nat)
    ensures x < Pow(256, |b|)
  {
    if b == [] then 0
    else
      assert b[0] + 256 * FromFixed(b[1..]) <= 255 + 256 * (Pow(256, |b| - 1) - 1);
      b[0] + 256 * FromFixed(b[1..])
  }

  lemma {:induction false} FixedBack(x: nat, width: nat)
    requires x < Pow(256, width)
    ensures FromFixed(Fixed(x, width)) == x
  {
    if width > 0 {
      assert x / 256 < Pow(256, width - 1);
      FixedBack(x / 256, width - 1);
      assert Fixed(x, width)[1..] == Fixed(x / 256, width - 1);
    }
  }

  /** The bytes are the digits of the number in base 256, least significant first. */
  lemma {:induction false} FixedDigits(x: nat, width: nat, i: nat)
    requires i < width
    ensures Fixed(x, width)[i] == x / Pow(256, i) % 256
  {
    if i > 0 {
      FixedDigits(x / 256, width - 1, i - 1);
      DivDiv(x, 256, Pow(256, i - 1));
    } else {
      assert Pow(256, 0) == 1;
    }
  }

  lemma DivDiv(x: nat, a: nat, b: nat)
    requires a > 0 && b > 0
    ensures a * b > 0 && x / a / b == x / (a * b)
  {
    var y := x / a;
    var q, r := y / b, y % b;
    Divided(x, a);
    Divided(y, b);
    Distributed(a, b, q, r);
    RoomFor(a, b, r);
    Quotient(x, a * b, q, a * r + x % a);
  }

  lemma Divided(x: nat, d: nat)
    requires d > 0
    ensures x == d * (x / d) + x % d && x % d < d
  {
  }

  lemma Distributed(a: nat, b: nat, q: nat, r: nat)
    ensures a * (b * q + r) == (a * b) * q + a * r
  {
    assert a * (b * q) == (a * b) * q;
  }

  lemma RoomFor(a: nat, b: nat, r: nat)
    requires a > 0 && r < b
    ensures a * r + a <= a * b
  {
    assert a * (r + 1) == a * r + a;
    AtLeast(a, r + 1, b);
  }

  lemma AtLeast(a: nat, r: nat, b: nat)
    requires r <= b
    ensures a * r <= a * b
  {
    assert a * b == a * r + a * (b - r);
  }

  lemma Quotient(x: nat, d: nat, q: nat, r: nat)
    requires d > 0 && r < d && x == d * q + r
    ensures x / d == q
  {
    var k := q - x / d;
    assert x == d * (x / d) + x % d;
    assert d * q == d * (x / d) + d * k;
    assert d * -k == -(d * k);
    if k >= 1 {
      AtLeastOnce(d, k);
    } else if k <= -1 {
      AtLeastOnce(d, -k);
    }
  }

  lemma AtLeastOnce(d: nat, k: int)
    requires k >= 1
    ensures d * k >= d
  {
  }

  /** Any bytes are those of the number they stand for. */
  lemma {:induction false} FixedOfBytes(b: Bytes)
    ensures Fixed(FromFixed(b), |b|) == b
  {
    if b != [] {
      FixedOfBytes(b[1..]);
      FixedStep(b[0], FromFixed(b[1..]), |b|);
    }
  }

  lemma FixedStep(d: Byte, x: nat, width: nat)
    requires width > 0
    ensures Fixed(d + 256 * x, width) == [d] + Fixed(x, width - 1)
  {
    assert (d + 256 * x) % 256 == d && (d + 256 * x) / 256 == x;
  }

  lemma Pow256()
    ensures Pow(256, 4) == 0x1_0000_0000 && Pow(256, 8) == 0x1_0000_0000_0000_0000
  {
    assert Pow(256, 1) == 256 && Pow(256, 2) == 65536 && Pow(256, 3) == 0x100_0000;
    assert Pow(256, 5) == 0x100_0000_0000 && Pow(256, 6) == 0x1_0000_0000_0000 && Pow(256, 7) == 0x100_0000_0000_0000;
  }

  // ---- Variable length ----

  /** Seven bits a byte, least significant first; the top bit says that more follow. */
  function Varint(x: nat): (r: Bytes)
    ensures |r| > 0
  {
    if x < 128 then [x] else [x % 128 + 128] + Varint(x / 128)
  }

  /** The value and length of a varint of at most `limit` bytes at the front of `b`. */
  function VarintIn(b: Bytes, limit: nat): (r: Option<(nat, nat)>)
    ensures r.Some? ==> 0 < r.value.1 <= |b| && r.value.1 <= limit
  {
    if limit == 0 || b == [] then None
    else if b[0] < 128 then Some((b[0], 1))
    else
      match VarintIn(b[1..], limit - 1)
      case None => None
      case Some(r) => Some((b[0] - 128 + 128 * r.0, r.1 + 1))
  }

  lemma {:induction false} VarintBack(x: nat, rest: Bytes, limit: nat)
    requires |Varint(x)| <= limit
    ensures VarintIn(Varint(x) + rest, limit) == Some((x, |Varint(x)|))
  {
    var b := Varint(x) + rest;
    if x >= 128 {
      VarintBack(x / 128, rest, limit - 1);
      assert b[1..] == Varint(x / 128) + rest;
    }
  }

  /** Seven bits of the number in each byte, least significant first; only the last byte is below 128. */
  lemma {:induction false} VarintDigits(x: nat, i: nat)
    requires i < |Varint(x)|
    ensures Varint(x)[i] == x / Pow(128, i) % 128 + (if i + 1 < |Varint(x)| then 128 else 0)
    ensures i + 1 == |Varint(x)| ==> x / Pow(128, i) == x / Pow(128, i) % 128 && (i > 0 ==> Varint(x)[i] > 0)
  {
    if i > 0 {
      VarintDigits(x / 128, i - 1);
      DivDiv(x, 128, Pow(128, i - 1));
    } else {
      assert Pow(128, 0) == 1;
    }
  }

  /** The first `n` bytes are a varint of `x`. */
  predicate IsVarint(b: Bytes, x: nat, n: nat) {
    && 0 < n <= |b| && (forall i :: 0 <= i < n - 1 ==> b[i] >= 128) && b[n - 1] < 128
    && x < Pow(128, n) && forall i :: 0 <= i < n ==> x / Pow(128, i) % 128 == b[i] % 128
  }

  /** What the decoder takes for a varint: up to the first byte below 128, if that is within the limit. */
  lemma {:induction false} VarintTells(b: Bytes, limit: nat)
    ensures match VarintIn(b, limit)
            case None => forall i :: 0 <= i < |b| && i < limit ==> b[i] >= 128
            case Some((x, n)) => n <= limit && IsVarint(b, x, n)
  {
    hide IsVarint;
    if limit > 0 && b != [] {
      if b[0] < 128 {
        ShortIsVarint(b);
      } else {
        var rest := b[1..];
        VarintTells(rest, limit - 1);
        match VarintIn(rest, limit - 1) {
          case None =>
            forall i | 0 <= i < |b| && i < limit ensures b[i] >= 128 {
              assert i > 0 ==> rest[i - 1] == b[i];
            }
          case Some((x, n)) => VarintGrows(b, x, n);
        }
      }
    }
  }

  lemma ShortIsVarint(b: Bytes)
    requires b != [] && b[0] < 128
    ensures IsVarint(b, b[0], 1)
  {
    assert Pow(128, 0) == 1 && Pow(128, 1) == 128;
  }

  lemma VarintGrows(b: Bytes, x: nat, n: nat)
    requires b != [] && b[0] >= 128 && IsVarint(b[1..], x, n)
    ensures IsVarint(b, b[0] - 128 + 128 * x, n + 1)
  {
    var y, rest := b[0] - 128 + 128 * x, b[1..];
    assert y / 128 == x && y % 128 == b[0] - 128;
    assert Pow(128, n + 1) == 128 * Pow(128, n);
    assert b[n] == rest[n - 1];
    forall i | 0 <= i < n ensures b[i] >= 128 {
      assert i > 0 ==> b[i] == rest[i - 1];
    }
    forall i | 0 <= i < n + 1 ensures y / Pow(128, i) % 128 == b[i] % 128 {
      VarintDigit(b, x, n, i);
    }
  }

  lemma VarintDigit(b: Bytes, x: nat, n: nat, i: nat)
    requires b != [] && b[0] >= 128 && IsVarint(b[1..], x, n) && i < n + 1
    ensures (b[0] - 128 + 128 * x) / Pow(128, i) % 128 == b[i] % 128
  {
    var y := b[0] - 128 + 128 * x;
    assert y / 128 == x && y % 128 == b[0] - 128;
    if i == 0 {
      assert Pow(128, 0) == 1;
    } else {
      DivDiv(y, 128, Pow(128, i - 1));
      assert b[1..][i - 1] == b[i];
    }
  }

  lemma {:induction false} VarintLength(x: nat, n: nat)
    requires n > 0 && x < Pow(128, n)
    ensures |Varint(x)| <= n
  {
    if x >= 128 {
      assert n > 1 by {
        assert Pow(128, 1) == 128;
      }
      assert x / 128 < Pow(128, n - 1);
      VarintLength(x / 128, n - 1);
    }
  }

  lemma Pow128()
    ensures Pow(128, 5) >= 0x1_0000_0000 && Pow(128, 10) >= 0x1_0000_0000_0000_0000
  {
    assert Pow(128, 1) == 128 && Pow(128, 2) == 0x4000 && Pow(128, 3) == 0x20_0000 && Pow(128, 4) == 0x1000_0000;
    assert Pow(128, 5) == 0x8_0000_0000;
    assert Pow(128, 6) == 0x400_0000_0000 && Pow(128, 7) == 0x2_0000_0000_0000 && Pow(128, 8) == 0x100_0000_0000_0000;
    assert Pow(128, 9) == 0x8000_0000_0000_0000;
  }

  method EncodeVarint64(value: nat) returns (b: Bytes)
    ensures b == Varint(value)
  {
    b := [];
    var v := value;
    while v >= 128
      invariant Varint(value) == b + Varint(v)
    {
      assert b + Varint(v) == (b + [v % 128 + 128]) + Varint(v / 128);
      b := b + [v % 128 + 128];
      v := v / 128;
    }
    b := b + [v];
  }

  lemma VarintNext(x: nat)
    ensures Varint(x) == if x < 128 then [x] else [x % 128 + 128] + Varint(x / 128)
  {
  }

  lemma Quotients(v: nat)
    ensures v / 128 / 128 == v / 0x4000 && v / 0x4000 / 128 == v / 0x20_0000 && v / 0x20_0000 / 128 == v / 0x1000_0000
  {
  }

  method EncodeVarint32(v: nat) returns (b: Bytes)
    requires v < 0x1_0000_0000
    ensures b == Varint(v)
  {
    hide Varint;
    Quotients(v);
    VarintNext(v);
    VarintNext(v / 128);
    VarintNext(v / 0x4000);
    VarintNext(v / 0x20_0000);
    VarintNext(v / 0x1000_0000);
    if v < 0x80 {
      b := [v];
    } else if v < 0x4000 {
      b := [v % 128 + 128, v / 128];
    } else if v < 0x20_0000 {
      b := [v % 128 + 128, v / 128 % 128 + 128, v / 0x4000];
    } else if v < 0x1000_0000 {
      b := [v % 128 + 128, v / 128 % 128 + 128, v / 0x4000 % 128 + 128, v / 0x20_0000];
    } else {
      b := [v % 128 + 128, v / 128 % 128 + 128, v / 0x4000 % 128 + 128, v / 0x20_0000 % 128 + 128, v / 0x1000_0000];
    }
  }

  /** The loop of both varint readers: `limit` bytes at most. The accumulator is kept whole here and cut
      to 32 or 64 bits, `modulus`, at the end. */
  method GetVarint(input: Bytes, limit: nat, modulus: nat) returns (r: Option<(nat, nat)>)
    requires modulus > 0
    ensures var v := VarintIn(input, limit);
            r == if v.None? then None else Some((v.value.0 % modulus, v.value.1))
  {
    hide VarintIn;
    hide Resumed;
    var result: nat, scale: nat, p := 0, 1, 0;
    ResumeStarts(input, limit);
    while p < limit && p < |input|
      invariant p <= limit && p <= |input|
      invariant Resumed(VarintIn(input, limit), result, scale, p, VarintIn(input[p..], limit - p))
    {
      var byte := input[p];
      Resume(VarintIn(input, limit), input, limit, result, scale, p);
      p := p + 1;
      result := result + byte % 128 * scale;
      if byte < 128 {
        return Some((result % modulus, p));
      }
      scale := scale * 128;
    }
    ResumeEnds(input, limit, result, scale, p);
    return None;
  }

  lemma ResumeStarts(input: Bytes, limit: nat)
    ensures Resumed(VarintIn(input, limit), 0, 1, 0, VarintIn(input[0..], limit))
  {
    assert input[0..] == input;
  }

  lemma ResumeEnds(input: Bytes, limit: nat, result: nat, scale: nat, p: nat)
    requires p <= limit && p <= |input| && Resumed(VarintIn(input, limit), result, scale, p, VarintIn(input[p..], limit - p))
    ensures p == limit || p == |input| ==> VarintIn(input, limit).None?
  {
  }

  /** What is still to be read completes what has been read. */
  predicate Resumed(whole: Option<(nat, nat)>, result: nat, scale: nat, p: nat, rest: Option<(nat, nat)>) {
    whole == match rest
             case None => None
             case Some(v) => Some((result + scale * v.0, p + v.1))
  }

  lemma Resume(whole: Option<(nat, nat)>, input: Bytes, limit: nat, result: nat, scale: nat, p: nat)
    requires p < limit && p < |input| && Resumed(whole, result, scale, p, VarintIn(input[p..], limit - p))
    ensures input[p] < 128 ==> whole == Some((result + input[p] % 128 * scale, p + 1))
    ensures input[p] >= 128 ==>
              Resumed(whole, result + input[p] % 128 * scale, scale * 128, p + 1, VarintIn(input[p + 1..], limit - (p + 1)))
  {
    assert input[p..][1..] == input[p + 1..];
    var rest := VarintIn(input[p + 1..], limit - (p + 1));
    VarintInIs(input[p..], limit - p);
    hide VarintIn;
    if input[p] < 128 {
      assert scale * input[p] == input[p] * scale;
    } else if rest.Some? {
      Scaled(input[p] - 128, rest.value.0, scale);
    }
  }

  lemma VarintInIs(b: Bytes, limit: nat)
    requires b != [] && limit > 0
    ensures VarintIn(b, limit) ==
            if b[0] < 128 then Some((b[0], 1))
            else
              match VarintIn(b[1..], limit - 1)
              case None => None
              case Some(r) => Some((b[0] - 128 + 128 * r.0, r.1 + 1))
  {
  }

  lemma Scaled(a: nat, x: nat, scale: nat)
    ensures scale * (a + 128 * x) == a * scale + scale * 128 * x
  {
  }

  // ---- Length-prefixed strings ----

  function Prefixed(s: Bytes): Bytes {
    Varint(|s|) + s
  }

  /** The string at the front of `b`, and what follows it. */
  function PrefixedIn(b: Bytes): Option<(Bytes, Bytes)> {
    match VarintIn(b, 5)
    case None => None
    case Some((x, n)) =>
      var len := x % 0x1_0000_0000;
      if |b| - n >= len then Some((b[n..n + len], b[n + len..])) else None
  }

  /** A varint cut short is none. */
  lemma {:induction false} VarintCut(x: nat, n: nat, limit: nat)
    requires n < |Varint(x)|
    ensures VarintIn(Varint(x)[..n], limit).None?
  {
    if n > 0 {
      VarintCut(x / 128, n - 1, if limit > 0 then limit - 1 else 0);
      assert Varint(x)[..n][1..] == Varint(x / 128)[..n - 1];
    }
  }

  /** Nor is a prefixed string cut short one. */
  lemma PrefixedCut(s: Bytes, n: nat)
    requires |s| < 0x1_0000_0000 && n < |Prefixed(s)|
    ensures PrefixedIn(Prefixed(s)[..n]).None?
  {
    var k := |Varint(|s|)|;
    if n < k {
      VarintCut(|s|, n, 5);
      assert Prefixed(s)[..n] == Varint(|s|)[..n];
    } else {
      Pow128();
      VarintLength(|s|, 5);
      VarintBack(|s|, s[..n - k], 5);
      assert Prefixed(s)[..n] == Varint(|s|) + s[..n - k];
    }
  }

  lemma PrefixedBack(s: Bytes, rest: Bytes)
    requires |s| < 0x1_0000_0000
    ensures PrefixedIn(Prefixed(s) + rest) == Some((s, rest))
  {
    Pow128();
    VarintLength(|s|, 5);
    VarintBack(|s|, s + rest, 5);
    var b, n := Prefixed(s) + rest, |Varint(|s|)|;
    assert b == Varint(|s|) + (s + rest);
    assert b[n..n + |s|] == s && b[n + |s|..] == rest;
  }
}
