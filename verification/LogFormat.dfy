/** The log file: records cut into checksummed fragments that never cross a block. */
module LogFormat {
  import opened InternalKeys
  import opened Crc32c
  import opened Coding

  const BLOCK: nat := 32768
  const HEADER: nat := 7

  const FULL: Byte := 1
  const FIRST: Byte := 2
  const MIDDLE: Byte := 3
  const LAST: Byte := 4

  datatype Fragment = Fragment(kind: Byte, data: Bytes)

  // ---- Bytes ----

  function Bits(data: Bytes): (r: seq<bv8>)
    ensures |r| == |data|
  {
    seq(|data|, i requires 0 <= i < |data| => data[i] as bv8)
  }

  lemma BitsConcat(a: Bytes, b: Bytes)
    ensures Bits(a + b) == Bits(a) + Bits(b)
  {
  }

  lemma StoredBack(x: bv32)
    ensures FromFixed(Fixed(x as int, 4)) == x as int
  {
    Pow256();
    FixedBack(x as int, 4);
  }

  function Zeros(n: nat): Bytes {
    seq(n, _ => 0)
  }

  // ---- Fragments ----

  /** The checksum stored for a fragment covers its type and its data. */
  function Checksum(kind: Byte, data: Bytes): bv32 {
    Extended(Extended(0, Bits([kind])), Bits(data))
  }

  function Header(f: Fragment): (r: Bytes)
    requires |f.data| <= 0xffff
    ensures |r| == HEADER
  {
    Fixed(Mask(Checksum(f.kind, f.data)) as int, 4) + [|f.data| % 256, |f.data| / 256, f.kind]
  }

  function Physical(f: Fragment): (r: Bytes)
    requires |f.data| <= 0xffff
    ensures |r| == HEADER + |f.data|
  {
    Header(f) + f.data
  }

  /** Where a fragment begins when what precedes it ends at `p`: too short a trailer is filled. */
  function Start(p: nat): (s: nat)
    ensures p <= s < p + HEADER
    ensures s % BLOCK + HEADER <= BLOCK
    ensures s != p ==> s % BLOCK == 0
  {
    if BLOCK - p % BLOCK < HEADER then p / BLOCK * BLOCK + BLOCK else p
  }

  /** Room for data in a fragment that begins at `s`. */
  function Room(s: nat): (r: nat)
    requires s % BLOCK + HEADER <= BLOCK
    ensures r <= 0xffff
  {
    BLOCK - s % BLOCK - HEADER
  }

  /** The file made of fragments laid out in order. */
  function LogOf(fs: seq<Fragment>): Bytes {
    if fs == [] then [] else Laid(LogOf(fs[..|fs| - 1]), fs[|fs| - 1])
  }

  /** One more fragment, after the trailer is filled. */
  function Laid(file: Bytes, f: Fragment): Bytes {
    file + Zeros(Start(|file|) - |file|) + (if |f.data| <= 0xffff then Physical(f) else [])
  }

  /** Every fragment fits the rest of the block it begins in. */
  ghost predicate Fits(fs: seq<Fragment>) {
    fs == [] || (Fits(fs[..|fs| - 1]) && FitsAt(|LogOf(fs[..|fs| - 1])|, fs[|fs| - 1]))
  }

  ghost predicate FitsAt(p: nat, f: Fragment) {
    1 <= f.kind <= 4 && |f.data| <= Room(Start(p))
  }

  /** The first fragment of what is left of a record when what precedes it ends at `p`. */
  function FirstFragment(p: nat, data: Bytes, begin: bool): (f: Fragment)
    ensures 1 <= f.kind <= 4
    ensures |f.data| <= Room(Start(p)) && |f.data| <= |data| && f.data == data[..|f.data|]
    ensures |f.data| < |data| ==> |f.data| == Room(Start(p))
  {
    var room := Room(Start(p));
    var n := if |data| < room then |data| else room;
    var end := |data| == n;
    var kind := if begin && end then FULL else if begin then FIRST else if end then LAST else MIDDLE;
    Fragment(kind, data[..n])
  }

  /** The fragments of a record whose predecessor ends at `p`. */
  function Split(p: nat, data: Bytes, begin: bool): (r: seq<Fragment>)
    decreases |data|, Room(Start(p)) == 0
  {
    var f := FirstFragment(p, data, begin);
    [f] + (if |f.data| == |data| then [] else Split(Start(p) + HEADER + |f.data|, data[|f.data|..], false))
  }

  /** The fragments of a list of records. */
  function Fragments(rs: seq<Bytes>): seq<Fragment> {
    if rs == [] then []
    else
      var fs := Fragments(rs[..|rs| - 1]);
      fs + Split(|LogOf(fs)|, rs[|rs| - 1], true)
  }

  function LogFile(rs: seq<Bytes>): Bytes {
    LogOf(Fragments(rs))
  }

  // ---- Layout ----

  lemma {:induction false} LogPrefix(fs: seq<Fragment>, k: nat)
    requires k <= |fs|
    ensures |LogOf(fs[..k])| <= |LogOf(fs)| && LogOf(fs)[..|LogOf(fs[..k])|] == LogOf(fs[..k])
  {
    hide Physical;
    hide Start;
    if k < |fs| {
      var init := fs[..|fs| - 1];
      LogPrefix(init, k);
      assert init[..k] == fs[..k];
      assert LogOf(fs)[..|LogOf(init)|] == LogOf(init);
      assert LogOf(fs)[..|LogOf(fs[..k])|] == LogOf(init)[..|LogOf(fs[..k])|];
    } else {
      assert fs[..k] == fs;
    }
  }

  lemma {:induction false} FitsFrom(fs: seq<Fragment>, k: nat)
    requires Fits(fs) && k < |fs|
    ensures FitsAt(|LogOf(fs[..k])|, fs[k])
  {
    hide LogOf;
    hide FitsAt;
    if k < |fs| - 1 {
      FitsFrom(fs[..|fs| - 1], k);
      assert fs[..|fs| - 1][..k] == fs[..k];
    }
  }

  lemma LogNext(fs: seq<Fragment>, k: nat)
    requires k < |fs|
    ensures LogOf(fs[..k + 1]) == Laid(LogOf(fs[..k]), fs[k])
  {
    assert fs[..k + 1][..k] == fs[..k];
  }

  /** Where fragment `k` lies in the file, and what is there. */
  lemma FragmentAt(fs: seq<Fragment>, k: nat)
    requires Fits(fs) && k < |fs|
    ensures var s := Start(|LogOf(fs[..k])|);
            && |LogOf(fs[..k + 1])| == s + HEADER + |fs[k].data| <= |LogOf(fs)|
            && s % BLOCK + HEADER + |fs[k].data| <= BLOCK
            && LogOf(fs)[s..s + HEADER + |fs[k].data|] == Physical(fs[k])
  {
    hide LogOf;
    hide Laid;
    hide Start;
    hide Physical;
    hide Fits;
    LogNext(fs, k);
    LogPrefix(fs, k + 1);
    FitsFrom(fs, k);
    LaidAt(LogOf(fs[..k]), fs[k]);
    PrefixSlice(LogOf(fs), LogOf(fs[..k + 1]), Start(|LogOf(fs[..k])|));
  }

  lemma PrefixSlice(b: Bytes, part: Bytes, s: nat)
    requires |part| <= |b| && b[..|part|] == part && s <= |part|
    ensures b[s..|part|] == part[s..|part|]
  {
  }

  lemma LaidAt(file: Bytes, f: Fragment)
    requires |f.data| <= 0xffff
    ensures var s := Start(|file|);
            |Laid(file, f)| == s + HEADER + |f.data| && Laid(file, f)[s..s + HEADER + |f.data|] == Physical(f)
  {
  }
}
