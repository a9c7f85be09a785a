/** The checksum CRC-32C: the byte-at-a-time definition and the strided loop that computes it. */
module Crc32c {

  // ---- The definition ----

  function Xor(x: bv32, y: bv32): bv32 {
    x ^ y
  }

  function Half(x: bv32): bv32 {
    x >> 1
  }

  predicate Odd(x: bv32) {
    x & 1 == 1
  }

  /** The Castagnoli polynomial, bits reflected (section 12.1 of RFC 3720). */
  const POLYNOMIAL: bv32 := 0x82f6_3b78

  /** One step of the shift register. */
  function BitStep(x: bv32): bv32 {
    if Odd(x) then Xor(Half(x), POLYNOMIAL) else Half(x)
  }

  function TwoSteps(x: bv32): bv32 {
    BitStep(BitStep(x))
  }

  function FourSteps(x: bv32): bv32 {
    TwoSteps(TwoSteps(x))
  }

  /** Eight steps: the register after a zero byte. */
  function ByteShift(x: bv32): bv32 {
    FourSteps(FourSteps(x))
  }

  function Widen(b: bv8): bv32 {
    b as bv32
  }

  /** The register after the bytes of `data`. */
  function Fold(l: bv32, data: seq<bv8>): bv32 {
    if data == [] then l
    else ByteShift(Xor(Fold(l, data[..|data| - 1]), Widen(data[|data| - 1])))
  }

  function Flip(x: bv32): bv32 {
    x ^ 0xffff_ffff
  }

  lemma FlipTwice(x: bv32)
    ensures Flip(Flip(x)) == x
  {
  }

  /** The checksum of a string with checksum `crc` extended by `data`. */
  function Extended(crc: bv32, data: seq<bv8>): bv32 {
    Flip(Fold(Flip(crc), data))
  }

  lemma {:induction false} FoldConcat(l: bv32, a: seq<bv8>, b: seq<bv8>)
    ensures Fold(l, a + b) == Fold(Fold(l, a), b)
  {
    hide ByteShift;
    if b == [] {
      assert a + b == a;
    } else {
      var n := |b| - 1;
      assert (a + b)[..|a + b| - 1] == a + b[..n];
      FoldConcat(l, a, b[..n]);
    }
  }

  /** Checksums extend over concatenation. */
  lemma ExtendedConcat(crc: bv32, a: seq<bv8>, b: seq<bv8>)
    ensures Extended(Extended(crc, a), b) == Extended(crc, a + b)
  {
    hide Flip;
    hide Fold;
    FlipTwice(Fold(Flip(crc), a));
    FoldConcat(Flip(crc), a, b);
  }

  // ---- Linearity ----

  lemma XorAssoc(x: bv32, y: bv32, z: bv32)
    ensures Xor(Xor(x, y), z) == Xor(x, Xor(y, z))
  {
  }

  lemma XorComm(x: bv32, y: bv32)
    ensures Xor(x, y) == Xor(y, x)
  {
  }

  lemma XorZero(x: bv32)
    ensures Xor(x, 0) == x && Xor(0, x) == x && Xor(x, x) == 0
  {
  }

  /** Pairs may be regrouped. */
  lemma XorPairs(a: bv32, b: bv32, c: bv32, d: bv32)
    ensures Xor(Xor(a, b), Xor(c, d)) == Xor(Xor(a, c), Xor(b, d))
  {
    hide Xor;
    XorAssoc(a, b, Xor(c, d));
    XorAssoc(b, c, d);
    XorComm(b, c);
    XorAssoc(c, b, d);
    XorAssoc(a, c, Xor(b, d));
  }

  lemma HalfLinear(x: bv32, y: bv32)
    ensures Half(Xor(x, y)) == Xor(Half(x), Half(y))
  {
  }

  lemma OddLinear(x: bv32, y: bv32)
    ensures Odd(Xor(x, y)) <==> Odd(x) != Odd(y)
  {
  }

  lemma BitStepLinear(x: bv32, y: bv32)
    ensures BitStep(Xor(x, y)) == Xor(BitStep(x), BitStep(y))
  {
    hide Xor;
    hide Half;
    hide Odd;
    var p, q := if Odd(x) then POLYNOMIAL else 0, if Odd(y) then POLYNOMIAL else 0;
    HalfLinear(x, y);
    OddLinear(x, y);
    XorZero(Half(x));
    XorZero(Half(y));
    XorZero(Half(Xor(x, y)));
    XorZero(POLYNOMIAL);
    XorZero(0);
    XorPairs(Half(x), Half(y), p, q);
  }

  lemma FourStepsLinear(x: bv32, y: bv32)
    ensures FourSteps(Xor(x, y)) == Xor(FourSteps(x), FourSteps(y))
  {
    hide BitStep;
    hide Xor;
    BitStepLinear(x, y);
    BitStepLinear(BitStep(x), BitStep(y));
    BitStepLinear(TwoSteps(x), TwoSteps(y));
    BitStepLinear(BitStep(TwoSteps(x)), BitStep(TwoSteps(y)));
  }

  lemma ByteShiftLinear(x: bv32, y: bv32)
    ensures ByteShift(Xor(x, y)) == Xor(ByteShift(x), ByteShift(y))
  {
    hide FourSteps;
    hide Xor;
    FourStepsLinear(x, y);
    FourStepsLinear(FourSteps(x), FourSteps(y));
  }

  /** `n` zero bytes. */
  function Shift(x: bv32, n: nat): bv32 {
    if n == 0 then x else ByteShift(Shift(x, n - 1))
  }

  lemma {:induction false} ShiftLinear(x: bv32, y: bv32, n: nat)
    ensures Shift(Xor(x, y), n) == Xor(Shift(x, n), Shift(y, n))
  {
    hide ByteShift;
    hide Xor;
    if n > 0 {
      ShiftLinear(x, y, n - 1);
      ByteShiftLinear(Shift(x, n - 1), Shift(y, n - 1));
    }
  }

  lemma {:induction false} ShiftTwice(x: bv32, m: nat, n: nat)
    ensures Shift(Shift(x, m), n) == Shift(x, m + n)
  {
    hide ByteShift;
    if n > 0 {
      ShiftTwice(x, m, n - 1);
    }
  }

  lemma DoubleStep(x: bv32)
    requires x <= 0x7fff_ffff
    ensures BitStep(x << 1) == x
  {
  }

  lemma ShiftLefts(x: bv32)
    ensures (x << 1) << 1 == x << 2 && (x << 2) << 2 == x << 4 && (x << 4) << 4 == x << 8
    ensures x <= 0x3fff_ffff ==> x << 1 <= 0x7fff_ffff
    ensures x <= 0xfff_ffff ==> x << 2 <= 0x3fff_ffff
    ensures x <= 0xff_ffff ==> x << 4 <= 0xfff_ffff
  {
  }

  lemma TwoStepsDown(x: bv32)
    requires x <= 0x3fff_ffff
    ensures TwoSteps(x << 2) == x
  {
    hide BitStep;
    ShiftLefts(x);
    DoubleStep(x << 1);
    DoubleStep(x);
  }

  lemma FourStepsDown(x: bv32)
    requires x <= 0xfff_ffff
    ensures FourSteps(x << 4) == x
  {
    hide TwoSteps;
    ShiftLefts(x);
    TwoStepsDown(x << 2);
    TwoStepsDown(x);
  }

  /** Bytes above the lowest only move down. */
  lemma ShiftDown(x: bv32)
    requires x <= 0xff_ffff
    ensures ByteShift(x << 8) == x
  {
    hide FourSteps;
    ShiftLefts(x);
    FourStepsDown(x << 4);
    FourStepsDown(x);
  }

  // ---- Table steps ----

  /** The byte table holds the register after its index and a zero byte. */
  function ByteTable(i: bv32): bv32 {
    ByteShift(i)
  }

  /** The literal byte table at the powers of two, which by linearity fix the rest. */
  lemma ByteTableBasis()
    ensures ByteTable(0x01) == 0xf26b_8303 && ByteTable(0x02) == 0xe13b_70f7
    ensures ByteTable(0x04) == 0xc79a_971f && ByteTable(0x08) == 0x8ad9_58cf
    ensures ByteTable(0x10) == 0x105e_c76f && ByteTable(0x20) == 0x20bd_8ede
    ensures ByteTable(0x40) == 0x417b_1dbc && ByteTable(0x80) == 0x82f6_3b78
  {
  }

  /** The stride tables hold sixteen zero bytes of a register with only one byte set. */
  function StrideTable0(i: bv32): bv32 {
    Shift(i << 24, 16)
  }

  function StrideTable1(i: bv32): bv32 {
    Shift(i << 16, 16)
  }

  function StrideTable2(i: bv32): bv32 {
    Shift(i << 8, 16)
  }

  function StrideTable3(i: bv32): bv32 {
    Shift(i, 16)
  }

  /** One byte through the byte table. */
  function Step1(l: bv32, b: bv8): bv32 {
    Xor(ByteTable(Xor(l & 0xff, Widen(b))), l >> 8)
  }

  /** One lane word through the stride tables. */
  function Step4(lane: bv32, word: bv32): bv32 {
    Xor(Xor(Xor(Xor(word, StrideTable3(lane & 0xff)), StrideTable2((lane >> 8) & 0xff)),
            StrideTable1((lane >> 16) & 0xff)), StrideTable0(lane >> 24))
  }

  function Word(b0: bv8, b1: bv8, b2: bv8, b3: bv8): bv32 {
    Widen(b0) | (Widen(b1) << 8) | (Widen(b2) << 16) | (Widen(b3) << 24)
  }

  lemma SplitLow(x: bv32)
    ensures Xor(x & 0xff, (x >> 8) << 8) == x && x >> 8 <= 0xff_ffff
  {
  }

  lemma ByteShiftSplit(x: bv32)
    ensures ByteShift(x) == Xor(ByteShift(x & 0xff), x >> 8)
  {
    hide ByteShift;
    SplitLow(x);
    ByteShiftLinear(x & 0xff, (x >> 8) << 8);
    ShiftDown(x >> 8);
  }

  lemma Step1Is(l: bv32, b: bv8)
    ensures Step1(l, b) == ByteShift(Xor(l, Widen(b)))
  {
    hide ByteShift;
    hide Xor;
    hide Widen;
    ByteShiftSplit(l);
    ByteShiftLinear(l & 0xff, Widen(b));
    ByteShiftLinear(l, Widen(b));
    var low, high, x := ByteShift(l & 0xff), l >> 8, ByteShift(Widen(b));
    XorAssoc(low, high, x);
    XorComm(high, x);
    XorAssoc(low, x, high);
  }

  /** The four bytes of a register. */
  lemma SplitBytes(x: bv32)
    ensures x == Xor(Xor(Xor(x & 0xff, ((x >> 8) & 0xff) << 8), ((x >> 16) & 0xff) << 16), (x >> 24) << 24)
  {
  }

  lemma Step4Is(lane: bv32, word: bv32)
    ensures Step4(lane, word) == Xor(word, Shift(lane, 16))
  {
    SplitBytes(lane);
    hide Shift;
    hide Xor;
    var a, b, c, d := lane & 0xff, ((lane >> 8) & 0xff) << 8, ((lane >> 16) & 0xff) << 16, (lane >> 24) << 24;
    ShiftLinear(a, b, 16);
    ShiftLinear(Xor(a, b), c, 16);
    ShiftLinear(Xor(Xor(a, b), c), d, 16);
    var a', b', c', d' := Shift(a, 16), Shift(b, 16), Shift(c, 16), Shift(d, 16);
    XorAssoc(word, a', b');
    XorAssoc(word, Xor(a', b'), c');
    XorAssoc(word, Xor(Xor(a', b'), c'), d');
  }

  // ---- Words ----

  /** The register after the word `w`. */
  function AddWord(l: bv32, w: bv32): bv32 {
    Shift(Xor(l, w), 4)
  }

  function Raised(x: bv32): bv32 {
    x << 8
  }

  predicate Small(x: bv32) {
    x <= 0xff_ffff
  }

  lemma AddByte(l: bv32, b: bv32, w: bv32)
    requires Small(w)
    ensures ByteShift(Xor(l, Xor(b, Raised(w)))) == Xor(ByteShift(Xor(l, b)), w)
  {
    hide Xor;
    hide ByteShift;
    XorAssoc(l, b, Raised(w));
    ByteShiftLinear(Xor(l, b), Raised(w));
    ShiftDown(w);
  }

  lemma WordParts(b0: bv8, b1: bv8, b2: bv8, b3: bv8)
    ensures var w2 := Xor(Widen(b2), Raised(Widen(b3)));
            var w1 := Xor(Widen(b1), Raised(w2));
            Word(b0, b1, b2, b3) == Xor(Widen(b0), Raised(w1)) && Small(w1) && Small(w2) && Small(Widen(b3))
  {
  }

  lemma ShiftFour(x: bv32)
    ensures Shift(x, 4) == ByteShift(ByteShift(ByteShift(ByteShift(x))))
  {
    hide ByteShift;
    assert Shift(x, 1) == ByteShift(Shift(x, 0));
    assert Shift(x, 2) == ByteShift(Shift(x, 1));
    assert Shift(x, 3) == ByteShift(Shift(x, 2));
  }

  lemma AddWordBytes(l: bv32, b0: bv8, b1: bv8, b2: bv8, b3: bv8)
    ensures AddWord(l, Word(b0, b1, b2, b3)) == Fold(l, [b0, b1, b2, b3])
  {
    WordParts(b0, b1, b2, b3);
    hide Word;
    hide Xor;
    hide Widen;
    hide ByteShift;
    hide Fold;
    hide Raised;
    hide Small;
    var w2 := Xor(Widen(b2), Raised(Widen(b3)));
    var w1 := Xor(Widen(b1), Raised(w2));
    var l1 := ByteShift(Xor(l, Widen(b0)));
    var l2 := ByteShift(Xor(l1, Widen(b1)));
    AddByte(l, Widen(b0), w1);
    AddByte(l1, Widen(b1), w2);
    AddByte(l2, Widen(b2), Widen(b3));
    ShiftFour(Xor(l, Word(b0, b1, b2, b3)));
    FoldFour(l, b0, b1, b2, b3);
  }

  lemma FoldLast(l: bv32, a: seq<bv8>, b: bv8)
    ensures Fold(l, a + [b]) == ByteShift(Xor(Fold(l, a), Widen(b)))
  {
    assert (a + [b])[..|a + [b]| - 1] == a;
  }

  lemma FoldEmpty(l: bv32)
    ensures Fold(l, []) == l
  {
  }

  lemma FoldFour(l: bv32, b0: bv8, b1: bv8, b2: bv8, b3: bv8)
    ensures Fold(l, [b0, b1, b2, b3]) ==
            ByteShift(Xor(ByteShift(Xor(ByteShift(Xor(ByteShift(Xor(l, Widen(b0))), Widen(b1))), Widen(b2))), Widen(b3)))
  {
    hide ByteShift;
    hide Xor;
    hide Widen;
    hide Fold;
    FoldEmpty(l);
    FoldLast(l, [], b0);
    FoldLast(l, [b0], b1);
    FoldLast(l, [b0, b1], b2);
    FoldLast(l, [b0, b1, b2], b3);
    Appended(b0, b1, b2, b3);
  }

  lemma Appended<T>(b0: T, b1: T, b2: T, b3: T)
    ensures [] + [b0] == [b0] && [b0] + [b1] == [b0, b1] && [b0, b1] + [b2] == [b0, b1, b2]
    ensures [b0, b1, b2] + [b3] == [b0, b1, b2, b3]
  {
  }

  // ---- Lanes ----

  /** What four lanes stand for. */
  function Combined(c0: bv32, c1: bv32, c2: bv32, c3: bv32): bv32 {
    AddWord(AddWord(AddWord(AddWord(0, c0), c1), c2), c3)
  }

  lemma AddWordLinear(l: bv32, m: bv32, w: bv32)
    ensures AddWord(Xor(l, m), w) == Xor(AddWord(l, w), Shift(m, 4))
  {
    hide Xor;
    hide Shift;
    XorAssoc(l, m, w);
    XorComm(m, w);
    XorAssoc(l, w, m);
    ShiftLinear(Xor(l, w), m, 4);
  }

  /** Feeding a word to the oldest lane and rotating is feeding it to the whole. */
  lemma Rotated(c0: bv32, c1: bv32, c2: bv32, c3: bv32, w: bv32)
    ensures Combined(c1, c2, c3, Xor(w, Shift(c0, 16))) == AddWord(Combined(c0, c1, c2, c3), w)
  {
    hide Xor;
    hide Shift;
    var r1, r2, r := AddWord(0, c1), AddWord(AddWord(0, c1), c2), AddWord(AddWord(AddWord(0, c1), c2), c3);
    var s4, s8, s12, s16 := Shift(c0, 4), Shift(c0, 8), Shift(c0, 12), Shift(c0, 16);
    XorZero(c0);
    XorZero(s4);
    AddWordLinear(0, s4, c1);
    ShiftTwice(c0, 4, 4);
    AddWordLinear(r1, s8, c2);
    ShiftTwice(c0, 8, 4);
    AddWordLinear(r2, s12, c3);
    ShiftTwice(c0, 12, 4);
    XorAssoc(r, s16, w);
    XorComm(s16, w);
  }

  // ---- The loop ----

  /** The four bytes at `p`, least significant first. */
  function WordAt(data: seq<bv8>, p: nat): bv32
    requires p + 4 <= |data|
  {
    Word(data[p], data[p + 1], data[p + 2], data[p + 3])
  }

  lemma FoldWord(l: bv32, data: seq<bv8>, p: nat)
    requires p + 4 <= |data|
    ensures AddWord(Fold(l, data[..p]), WordAt(data, p)) == Fold(l, data[..p + 4])
  {
    hide Fold;
    hide Word;
    AddWordBytes(Fold(l, data[..p]), data[p], data[p + 1], data[p + 2], data[p + 3]);
    FoldConcat(l, data[..p], data[p..p + 4]);
    assert data[p..p + 4] == [data[p], data[p + 1], data[p + 2], data[p + 3]];
    assert data[..p + 4] == data[..p] + data[p..p + 4];
  }

  lemma FoldByte(l: bv32, data: seq<bv8>, p: nat)
    requires p < |data|
    ensures Step1(Fold(l, data[..p]), data[p]) == Fold(l, data[..p + 1])
  {
    hide ByteShift;
    hide Step1;
    Step1Is(Fold(l, data[..p]), data[p]);
    assert data[..p + 1][..p] == data[..p];
  }

  lemma FoldNothing(l: bv32, data: seq<bv8>)
    ensures Fold(l, data[..0]) == l
  {
  }

  lemma CombinedIs(c0: bv32, c1: bv32, c2: bv32, c3: bv32)
    ensures Combined(c0, c1, c2, c3) == AddWord(AddWord(AddWord(AddWord(0, c0), c1), c2), c3)
  {
  }

  /** The lanes after the first sixteen bytes. */
  lemma LanesLoaded(l: bv32, data: seq<bv8>, p: nat)
    requires p + 16 <= |data|
    ensures Combined(Xor(WordAt(data, p), Fold(l, data[..p])), WordAt(data, p + 4), WordAt(data, p + 8), WordAt(data, p + 12))
         == Fold(l, data[..p + 16])
  {
    hide Fold;
    hide Word;
    hide Xor;
    hide Shift;
    XorComm(WordAt(data, p), Fold(l, data[..p]));
    XorZero(Xor(WordAt(data, p), Fold(l, data[..p])));
    FoldWord(l, data, p);
    FoldWord(l, data, p + 4);
    FoldWord(l, data, p + 8);
    FoldWord(l, data, p + 12);
  }

  /** The oldest lane takes the next word and becomes the youngest. */
  lemma LaneFed(l: bv32, data: seq<bv8>, p: nat, c0: bv32, c1: bv32, c2: bv32, c3: bv32)
    requires p + 4 <= |data| && Combined(c0, c1, c2, c3) == Fold(l, data[..p])
    ensures Combined(c1, c2, c3, Step4(c0, WordAt(data, p))) == Fold(l, data[..p + 4])
  {
    hide Fold;
    hide Word;
    hide Xor;
    hide Shift;
    hide Combined;
    hide Step4;
    Step4Is(c0, WordAt(data, p));
    Rotated(c0, c1, c2, c3, WordAt(data, p));
    FoldWord(l, data, p);
  }

  method CombineWord(l: bv32, word: bv32) returns (w: bv32)
    ensures w == AddWord(l, word)
  {
    hide ByteShift;
    w := Xor(word, l);
    for i := 0 to 4
      invariant w == Shift(Xor(word, l), i)
    {
      ByteShiftSplit(w);
      w := Xor(w >> 8, ByteTable(w & 0xff));
    }
  }

  /** The checksum of `data`, which lies in memory from `address`. */
  method Extend(crc: bv32, data: seq<bv8>, address: nat) returns (r: bv32)
    ensures r == Extended(crc, data)
  {
    hide Fold;
    hide Step1;
    hide Step4;
    hide Xor;
    hide Shift;
    hide Combined;
    hide Word;
    ghost var start := Flip(crc);
    var p, e := 0, |data|;
    var l := Flip(crc);
    FoldNothing(start, data);
    var x := (address + 3) / 4 * 4 - address;
    if x <= e {
      while p != x
        invariant 0 <= p <= x && l == Fold(start, data[..p])
      {
        FoldByte(start, data, p);
        l := Step1(l, data[p]);
        p := p + 1;
      }
    }
    if e - p >= 16 {
      var crc0 := Xor(WordAt(data, p), l);
      var crc1 := WordAt(data, p + 4);
      var crc2 := WordAt(data, p + 8);
      var crc3 := WordAt(data, p + 12);
      LanesLoaded(start, data, p);
      p := p + 16;
      while e - p >= 16
        invariant 0 <= p <= e && Combined(crc0, crc1, crc2, crc3) == Fold(start, data[..p])
      {
        LaneFed(start, data, p, crc0, crc1, crc2, crc3);
        crc0 := Step4(crc0, WordAt(data, p));
        LaneFed(start, data, p + 4, crc1, crc2, crc3, crc0);
        crc1 := Step4(crc1, WordAt(data, p + 4));
        LaneFed(start, data, p + 8, crc2, crc3, crc0, crc1);
        crc2 := Step4(crc2, WordAt(data, p + 8));
        LaneFed(start, data, p + 12, crc3, crc0, crc1, crc2);
        crc3 := Step4(crc3, WordAt(data, p + 12));
        p := p + 16;
      }
      while e - p >= 4
        invariant 0 <= p <= e && Combined(crc0, crc1, crc2, crc3) == Fold(start, data[..p])
      {
        LaneFed(start, data, p, crc0, crc1, crc2, crc3);
        crc0 := Step4(crc0, WordAt(data, p));
        var tmp := crc0;
        crc0 := crc1;
        crc1 := crc2;
        crc2 := crc3;
        crc3 := tmp;
        p := p + 4;
      }
      CombinedIs(crc0, crc1, crc2, crc3);
      l := 0;
      l := CombineWord(l, crc0);
      l := CombineWord(l, crc1);
      l := CombineWord(l, crc2);
      l := CombineWord(l, crc3);
    }
    while p != e
      invariant 0 <= p <= e && l == Fold(start, data[..p])
    {
      FoldByte(start, data, p);
      l := Step1(l, data[p]);
      p := p + 1;
    }
    assert data[..e] == data;
    r := Flip(l);
  }

  // ---- Stored checksums ----

  const MASK_DELTA: bv32 := 0xa282_ead8

  function RotateRight15(x: bv32): bv32 {
    (x >> 15) | (x << 17)
  }

  function RotateRight17(x: bv32): bv32 {
    (x >> 17) | (x << 15)
  }

  function Mask(crc: bv32): bv32 {
    RotateRight15(crc) + MASK_DELTA
  }

  function Unmask(masked: bv32): bv32 {
    RotateRight17(masked - MASK_DELTA)
  }

  lemma RotatedBack(x: bv32)
    ensures RotateRight17(RotateRight15(x)) == x
  {
  }

  lemma DeltaBack(x: bv32)
    ensures (x + MASK_DELTA) - MASK_DELTA == x
  {
  }

  /** Masking loses nothing. */
  lemma UnmaskMask(crc: bv32)
    ensures Unmask(Mask(crc)) == crc
  {
    hide RotateRight15;
    hide RotateRight17;
    RotatedBack(crc);
    DeltaBack(RotateRight15(crc));
  }

  /** Every word is the mask of one checksum. */
  lemma MaskUnmask(masked: bv32)
    ensures Mask(Unmask(masked)) == masked
  {
    hide RotateRight15, RotateRight17;
    RotatedBackwards(masked - MASK_DELTA);
    DeltaBackwards(masked);
  }

  lemma RotatedBackwards(x: bv32)
    ensures RotateRight15(RotateRight17(x)) == x
  {
  }

  lemma DeltaBackwards(x: bv32)
    ensures (x - MASK_DELTA) + MASK_DELTA == x
  {
  }

  // ---- Check values ----

  /** The register after one byte more. */
  lemma RegisterNext(data: seq<bv8>, n: nat, l: bv32, r: bv32)
    requires n < |data| && Fold(0xffff_ffff, data[..n]) == l && ByteShift(Xor(l, Widen(data[n]))) == r
    ensures Fold(0xffff_ffff, data[..n + 1]) == r
  {
    hide ByteShift, Widen, Xor;
    assert data[..n + 1][..n] == data[..n];
  }

  const LETTER: seq<bv8> := [0x61]
  const BUFFER: seq<bv8> := [0x54, 0x65, 0x73, 0x74, 0x43, 0x52, 0x43, 0x42, 0x75, 0x66, 0x66, 0x65, 0x72]

  /** The checksum of "a". */
  lemma LetterValue()
    ensures Extended(0, LETTER) == 0xc1d0_4330
  {
    assert LETTER[..0] == [];
    assert Fold(0xffff_ffff, []) == 0xffff_ffff;
  }

  lemma BufferFrom0()
    requires Fold(0xffff_ffff, BUFFER[..0]) == 0xffff_ffff
    ensures Fold(0xffff_ffff, BUFFER[..3]) == 0x09fe_7e98
  {
    hide Fold;
    RegisterNext(BUFFER, 0, 0xffff_ffff, 0x3b3d_e162);
    RegisterNext(BUFFER, 1, 0x3b3d_e162, 0xd4f1_590a);
    RegisterNext(BUFFER, 2, 0xd4f1_590a, 0x09fe_7e98);
  }

  lemma BufferFrom3()
    requires Fold(0xffff_ffff, BUFFER[..3]) == 0x09fe_7e98
    ensures Fold(0xffff_ffff, BUFFER[..6]) == 0x64f3_c4be
  {
    hide Fold;
    RegisterNext(BUFFER, 3, 0x09fe_7e98, 0xae7a_99b4);
    RegisterNext(BUFFER, 4, 0xae7a_99b4, 0x270a_7107);
    RegisterNext(BUFFER, 5, 0x270a_7107, 0x64f3_c4be);
  }

  lemma BufferFrom6()
    requires Fold(0xffff_ffff, BUFFER[..6]) == 0x64f3_c4be
    ensures Fold(0xffff_ffff, BUFFER[..9]) == 0xe831_0e9a
  {
    hide Fold;
    RegisterNext(BUFFER, 6, 0x64f3_c4be, 0x4c22_d062);
    RegisterNext(BUFFER, 7, 0x4c22_d062, 0x20f1_ac0e);
    RegisterNext(BUFFER, 8, 0x20f1_ac0e, 0xe831_0e9a);
  }

  lemma BufferFrom9()
    requires Fold(0xffff_ffff, BUFFER[..9]) == 0xe831_0e9a
    ensures Fold(0xffff_ffff, BUFFER[..13]) == 0x2343_a605
  {
    hide Fold;
    RegisterNext(BUFFER, 9, 0xe831_0e9a, 0xbec5_91ab);
    RegisterNext(BUFFER, 10, 0xbec5_91ab, 0x7c1b_af86);
    RegisterNext(BUFFER, 11, 0x7c1b_af86, 0xf01c_4041);
    RegisterNext(BUFFER, 12, 0xf01c_4041, 0x2343_a605);
  }

  /** The checksum of "TestCRCBuffer", by which the source tests for hardware support. */
  lemma BufferValue()
    ensures Extended(0, BUFFER) == 0xdcbc_59fa
  {
    hide Fold;
    FoldNothing(0xffff_ffff, BUFFER);
    BufferFrom0();
    BufferFrom3();
    BufferFrom6();
    BufferFrom9();
    assert BUFFER[..13] == BUFFER;
    assert Flip(0) == 0xffff_ffff;
  }

  /** A masked checksum. */
  lemma MaskValue()
    ensures Mask(0xdcbc_59fa) == 0x5678_a450
  {
  }
}
