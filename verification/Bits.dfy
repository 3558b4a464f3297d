/**
 Fixed-width bit strings, most significant bit first: 64-bit words with the shift and
 logic operations the codecs use, bytes, and their concatenation into bit streams.
 */
module Bits {
  import opened Sequences

  type Word = w: seq<bool> | |w| == 64 witness seq(64, _ => false)
  type Byte = b: seq<bool> | |b| == 8 witness seq(8, _ => false)

  function Zeros(n: nat): (z: seq<bool>)
    ensures |z| == n && forall i :: 0 <= i < n ==> !z[i]
  {
    seq(n, _ => false)
  }

  function Shl(w: Word, k: nat): Word {
    if k >= 64 then Zeros(64) else w[k..] + Zeros(k)
  }

  function Shr(w: Word, k: nat): Word {
    if k >= 64 then Zeros(64) else Zeros(k) + w[..64 - k]
  }

  function Or(a: Word, b: Word): Word {
    seq(64, i requires 0 <= i < 64 => a[i] || b[i])
  }

  function Xor(a: Word, b: Word): Word {
    seq(64, i requires 0 <= i < 64 => a[i] != b[i])
  }

  /** A byte converted to a 64-bit word. */
  function Widen(b: Byte): Word {
    Zeros(56) + b
  }

  lemma {:induction false} XorBack(a: Word, b: Word)
    ensures Xor(a, Xor(b, a)) == b
  {
  }

  lemma {:induction false} XorZero(a: Word, b: Word)
    ensures Xor(b, a) == Zeros(64) <==> a == b
  {
    if Xor(b, a) == Zeros(64) {
      forall i | 0 <= i < 64 ensures a[i] == b[i] {
        assert !Xor(b, a)[i];
      }
    }
  }

  // ---------------------------------------------------------------- numbers

  function Pow2(n: nat): (p: nat)
    ensures p > 0
  {
    if n == 0 then 1 else 2 * Pow2(n - 1)
  }

  /** The number a bit string stands for. */
  function ToNat(s: seq<bool>): nat {
    if s == [] then 0 else 2 * ToNat(s[..|s| - 1]) + if s[|s| - 1] then 1 else 0
  }

  /** The low `n` bits of a number. */
  function FromNat(x: nat, n: nat): (s: seq<bool>)
    ensures |s| == n
  {
    if n == 0 then [] else FromNat(x / 2, n - 1) + [x % 2 == 1]
  }

  /** Writing the low bits of a number and reading them back gives it modulo 2^n. */
  lemma {:induction false} ToFromNat(x: nat, n: nat)
    ensures ToNat(FromNat(x, n)) == x % Pow2(n)
  {
    if n > 0 {
      ToFromNat(x / 2, n - 1);
      var p := FromNat(x / 2, n - 1);
      assert (p + [x % 2 == 1])[..n - 1] == p;
      HalfMod(x, Pow2(n - 1));
    }
  }

  lemma {:induction false} HalfMod(x: nat, m: nat)
    requires m > 0
    ensures x % (2 * m) == 2 * ((x / 2) % m) + x % 2
  {
    var q, r := (x / 2) / m, (x / 2) % m;
    assert x == 2 * (q * m + r) + x % 2;
    assert x == q * (2 * m) + (2 * r + x % 2);
    DivModUnique(x, 2 * m, q, 2 * r + x % 2);
  }

  lemma {:induction false} DivModUnique(x: int, d: int, q: int, r: int)
    requires d > 0 && x == q * d + r && 0 <= r < d
    ensures x / d == q && x % d == r
  {
    var q', r' := x / d, x % d;
    if q > q' {
      AtLeast(q, q', d);
    } else if q < q' {
      AtLeast(q', q, d);
    }
  }

  lemma {:induction false} AtLeast(a: int, b: int, d: int)
    requires d > 0 && a > b
    ensures a * d >= b * d + d
    decreases a - b
  {
    if a > b + 1 {
      AtLeast(a - 1, b, d);
      assert a * d == (a - 1) * d + d;
    } else {
      assert a * d == b * d + d;
    }
  }

  lemma {:induction false} ToNatSnoc(s: seq<bool>, x: bool)
    ensures ToNat(s + [x]) == 2 * ToNat(s) + if x then 1 else 0
  {
    assert (s + [x])[..|s|] == s;
  }

  lemma {:induction false} ToNatBound(s: seq<bool>)
    ensures ToNat(s) < Pow2(|s|)
  {
    if s != [] {
      ToNatBound(s[..|s| - 1]);
    }
  }

  // ---------------------------------------------------------------- streams

  /** The bits of a byte string. */
  ghost function Stream(data: seq<Byte>): (s: seq<bool>)
    ensures |s| == 8 * |data|
  {
    if data == [] then [] else data[0] + Stream(data[1..])
  }

  lemma {:induction false} StreamAppend(a: seq<Byte>, b: seq<Byte>)
    ensures Stream(a + b) == Stream(a) + Stream(b)
  {
    if a == [] {
      assert a + b == b;
    } else {
      StreamAppend(a[1..], b);
      assert (a + b)[1..] == a[1..] + b && (a + b)[0] == a[0];
      Regrouped(a[0], Stream(a[1..]), Stream(b));
    }
  }

  /** The first `k` bits, with zeros past the end. */
  function Padded(s: seq<bool>, k: nat): (r: seq<bool>)
    ensures |r| == k
  {
    if |s| >= k then s[..k] else s + Zeros(k - |s|)
  }

  function Drop(s: seq<bool>, k: nat): seq<bool> {
    if |s| >= k then s[k..] else []
  }

  /** Whole bytes of a bit string, the last one filled up with zeros. */
  function Pack(s: seq<bool>): (data: seq<Byte>)
    decreases |s|
  {
    if s == [] then [] else [Padded(s, 8)] + Pack(Drop(s, 8))
  }

  /** Packing keeps every bit and adds fewer than eight zeros. */
  lemma {:induction false} PackStream(s: seq<bool>)
    ensures |s| <= |Stream(Pack(s))| < |s| + 8
    ensures Stream(Pack(s)) == s + Zeros(|Stream(Pack(s))| - |s|)
    decreases |s|
  {
    if |s| > 8 {
      PackStream(s[8..]);
      assert Pack(s)[0] == s[..8] && Pack(s)[1..] == Pack(s[8..]);
      assert s == s[..8] + s[8..];
    } else if s != [] {
      assert Drop(s, 8) == [] && Pack(s) == [Padded(s, 8)];
      assert Pack(s)[1..] == [];
    }
  }

  /** The string filled up with zeros to whole bytes. */
  function Filled(s: seq<bool>): (r: seq<bool>)
    ensures |r| % 8 == 0 && s <= r
  {
    s + Zeros((8 - |s| % 8) % 8)
  }

  /** The whole bytes of a bit string. */
  function Whole(s: seq<bool>): seq<Byte> {
    Pack(s[..|s| - |s| % 8])
  }

  lemma {:induction false} PackAppend(a: seq<bool>, b: seq<bool>)
    requires |a| % 8 == 0
    ensures Pack(a + b) == Pack(a) + Pack(b)
    decreases |a|
  {
    if a == [] {
      assert a + b == b;
    } else {
      hide Pack;
      PackAppend(a[8..], b);
      PackNext(a);
      PackNext(a + b);
      assert (a + b)[8..] == a[8..] + b && (a + b)[..8] == a[..8];
    }
  }

  lemma {:induction false} PackNext(s: seq<bool>)
    requires |s| >= 8
    ensures Pack(s) == [s[..8]] + Pack(s[8..])
  {
  }

  lemma {:induction false} FilledNext(s: seq<bool>)
    requires |s| >= 8
    ensures Filled(s)[..8] == s[..8] && Filled(s)[8..] == Filled(s[8..])
  {
    Tail(s, Zeros((8 - |s| % 8) % 8));
    assert |s[8..]| % 8 == |s| % 8;
  }

  lemma {:induction false} Tail(s: seq<bool>, z: seq<bool>)
    requires |s| >= 8
    ensures (s + z)[..8] == s[..8] && (s + z)[8..] == s[8..] + z
  {
  }

  lemma {:induction false} PackFilled(s: seq<bool>)
    ensures Pack(Filled(s)) == Pack(s)
    decreases |s|
  {
    if |s| >= 8 {
      hide Pack, Filled;
      PackFilled(s[8..]);
      FilledNext(s);
      PackNext(s);
      PackNext(Filled(s));
    } else if s != [] {
      PackShort(s);
    }
  }

  lemma {:induction false} PackShort(s: seq<bool>)
    requires 0 < |s| < 8
    ensures Pack(Filled(s)) == Pack(s)
  {
    assert Filled(s) == Padded(s, 8);
    PackNext(Filled(s));
    assert Padded(s, 8)[..8] == Padded(s, 8) && Padded(s, 8)[8..] == [];
  }

  /** A string of whole bytes stays in front. */
  lemma {:induction false} WholePrefix(a: seq<bool>, s: seq<bool>)
    requires |a| % 8 == 0 && a <= s
    ensures Pack(a) <= Whole(s) && (a == s ==> Whole(s) == Pack(a))
  {
    hide Pack;
    var n := |s| - |s| % 8;
    assert |a| <= n;
    assert s[..n] == a + s[|a|..n];
    PackAppend(a, s[|a|..n]);
    assert a == s ==> s[..n] == a;
  }
}
