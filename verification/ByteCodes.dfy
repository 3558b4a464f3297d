/** Byte-level number formats: big-endian words, variable-length integers, 64-bit wrap-around. */
module ByteCodes {

  type U8 = x: nat | x < 256

  const TWO63 := 0x8000_0000_0000_0000
  const TWO64 := 0x1_0000_0000_0000_0000

  function Pow256(n: nat): (p: nat)
    ensures p > 0
  {
    if n == 0 then 1 else 256 * Pow256(n - 1)
  }

  // ---------------------------------------------------------------- big-endian

  /** The low `n` bytes of a number, most significant first. */
  function BigEndian(x: nat, n: nat): (s: seq<U8>)
    ensures |s| == n
  {
    if n == 0 then [] else BigEndian(x / 256, n - 1) + [x % 256]
  }

  function FromBigEndian(s: seq<U8>): nat {
    if s == [] then 0 else 256 * FromBigEndian(s[..|s| - 1]) + s[|s| - 1]
  }

  lemma {:induction false} BigEndianBack(x: nat, n: nat)
    requires x < Pow256(n)
    ensures FromBigEndian(BigEndian(x, n)) == x
  {
    if n > 0 {
      BigEndianBack(x / 256, n - 1);
      var p := BigEndian(x / 256, n - 1);
      assert (p + [x % 256])[..n - 1] == p;
    }
  }

  lemma {:induction false} FromBigEndianBound(s: seq<U8>)
    ensures FromBigEndian(s) < Pow256(|s|)
  {
    if s != [] {
      FromBigEndianBound(s[..|s| - 1]);
    }
  }

  lemma {:induction false} EightBytes()
    ensures Pow256(8) == TWO64
  {
    assert Pow256(2) == 0x1_0000;
    assert Pow256(4) == 0x1_0000_0000;
    assert Pow256(6) == 0x1_0000_0000_0000;
  }

  /** A 64-bit number as eight bytes. */
  function U64(x: nat): (s: seq<U8>)
    requires x < TWO64
    ensures |s| == 8
  {
    BigEndian(x, 8)
  }

  lemma {:induction false} U64Back(x: nat)
    requires x < TWO64
    ensures FromBigEndian(U64(x)) == x
  {
    hide BigEndian, FromBigEndian, Pow256;
    EightBytes();
    BigEndianBack(x, 8);
  }

  lemma {:induction false} U64Bound(s: seq<U8>)
    requires |s| == 8
    ensures FromBigEndian(s) < TWO64
  {
    hide FromBigEndian, Pow256;
    EightBytes();
    FromBigEndianBound(s);
  }

  // ---------------------------------------------------------------- variable length

  /** Seven bits per byte, least significant group first, the high bit meaning "more follows". */
  function PutUvarint(x: nat): (s: seq<U8>)
    ensures |s| > 0
  {
    if x < 128 then [x] else [x % 128 + 128] + PutUvarint(x / 128)
  }

  datatype Varint = Varint(value: nat, length: nat) | Bad

  /** The number at the front of `s`, of any size. */
  function ReadGroups(s: seq<U8>): Varint {
    if s == [] then Bad
    else if s[0] < 128 then Varint(s[0], 1)
    else match ReadGroups(s[1..])
         case Bad => Bad
         case Varint(v, n) => Varint(s[0] - 128 + 128 * v, n + 1)
  }

  /** As ReadGroups, refusing what does not fit 64 bits or ten bytes. */
  function Uvarint(s: seq<U8>): Varint {
    match ReadGroups(s)
    case Bad => Bad
    case Varint(v, n) => if v < TWO64 && n <= 10 then Varint(v, n) else Bad
  }

  lemma {:induction false} GroupsBack(x: nat, rest: seq<U8>)
    ensures ReadGroups(PutUvarint(x) + rest) == Varint(x, |PutUvarint(x)|)
  {
    if x >= 128 {
      GroupsBack(x / 128, rest);
      assert (PutUvarint(x) + rest)[1..] == PutUvarint(x / 128) + rest;
    }
  }

  lemma {:induction false} UvarintLength(x: nat, n: nat, bound: nat)
    requires x < bound && n > 0
    requires bound == Pow128(n)
    ensures |PutUvarint(x)| <= n
  {
    if x >= 128 {
      UvarintLength(x / 128, n - 1, Pow128(n - 1));
    }
  }

  function Pow128(n: nat): nat {
    if n == 0 then 1 else 128 * Pow128(n - 1)
  }

  lemma {:induction false} TenGroups()
    ensures TWO64 <= Pow128(10)
  {
    assert Pow128(2) == 0x4000;
    assert Pow128(4) == 0x1000_0000;
    assert Pow128(6) == 0x400_0000_0000;
    assert Pow128(8) == 0x100_0000_0000_0000;
  }

  /** Every 64-bit number is read back, whatever follows it. */
  lemma {:induction false} UvarintBack(x: nat, rest: seq<U8>)
    requires x < TWO64
    ensures Uvarint(PutUvarint(x) + rest) == Varint(x, |PutUvarint(x)|)
  {
    hide PutUvarint, ReadGroups, Pow128;
    GroupsBack(x, rest);
    TenGroups();
    UvarintLength(x, 10, Pow128(10));
  }

  lemma {:induction false} GroupsLength(s: seq<U8>)
    ensures ReadGroups(s).Varint? ==> 1 <= ReadGroups(s).length <= |s|
  {
    if s != [] && s[0] >= 128 {
      GroupsLength(s[1..]);
    }
  }

  // ---------------------------------------------------------------- wrap-around

  /** A whole number as a 64-bit signed one. */
  function Wrap(x: int): (r: int)
    ensures -TWO63 <= r < TWO63
  {
    (x + TWO63) % TWO64 - TWO63
  }

  predicate IsInt64(x: int) {
    -TWO63 <= x < TWO63
  }

  lemma {:induction false} WrapSame(x: int)
    requires IsInt64(x)
    ensures Wrap(x) == x
  {
  }

  /** Wrapping early or late makes no difference to a sum. */
  lemma {:induction false} WrapAdd(x: int, y: int)
    ensures Wrap(Wrap(x) + y) == Wrap(x + y)
  {
  }

  // ---------------------------------------------------------------- zigzag

  /** (x << 1) ^ (x >> 63) in 64 bits: the sign moves to the lowest bit. */
  function ZigZagEncode(x: int): (v: nat)
    requires IsInt64(x)
    ensures v < TWO64
  {
    var shifted := (2 * x) % TWO64;
    if x < 0 then TWO64 - 1 - shifted else shifted
  }

  /** (v >> 1) ^ -(v & 1) in 64 bits, as a signed number. */
  function ZigZagDecode(v: nat): (x: int)
    requires v < TWO64
    ensures IsInt64(x)
  {
    var half := v / 2;
    var bits := if v % 2 == 1 then TWO64 - 1 - half else half;
    if bits >= TWO63 then bits - TWO64 else bits
  }

  /** The small numbers of either sign come first. */
  lemma {:induction false} ZigZagOf(x: int)
    requires IsInt64(x)
    ensures ZigZagEncode(x) == if x < 0 then -2 * x - 1 else 2 * x
  {
    if x < 0 {
      Reduced(2 * x + TWO64, -1);
    } else {
      Reduced(2 * x, 0);
    }
  }

  lemma {:induction false} Reduced(r: int, k: int)
    requires 0 <= r < TWO64
    ensures (r + k * TWO64) % TWO64 == r
  {
  }

  lemma {:induction false} ZigZagBack(x: int)
    requires IsInt64(x)
    ensures ZigZagDecode(ZigZagEncode(x)) == x
  {
    hide ZigZagEncode;
    ZigZagOf(x);
    var v := ZigZagEncode(x);
    if x < 0 {
      assert v == 2 * (-x - 1) + 1;
    }
  }

  lemma {:induction false} ZigZagOnto(v: nat)
    requires v < TWO64
    ensures ZigZagEncode(ZigZagDecode(v)) == v
  {
    hide ZigZagEncode;
    var x := ZigZagDecode(v);
    ZigZagOf(x);
    assert v == 2 * (v / 2) + v % 2;
    assert x == if v % 2 == 1 then -(v / 2) - 1 else v / 2;
  }
}
