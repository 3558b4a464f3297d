/** The boolean encoding: eight values to a byte, the first one in the highest bit. */
module Booleans {
  import opened ByteCodes
  import opened Bits

  /** Bit `pos` of a number, counted from the lowest. */
  predicate Bit(v: nat, pos: nat) {
    if pos == 0 then v % 2 == 1 else Bit(v / 2, pos - 1)
  }

  lemma {:induction false} ByteBound(s: seq<bool>)
    requires |s| <= 8
    ensures ToNat(s) < 256
  {
    ToNatBound(s);
    assert Pow2(2) == 4 && Pow2(4) == 16 && Pow2(6) == 64 && Pow2(8) == 256;
    assert Pow2(1) == 2 && Pow2(3) == 8 && Pow2(5) == 32 && Pow2(7) == 128 && Pow2(0) == 1;
  }

  lemma {:induction false} NumBit(s: seq<bool>, k: nat)
    requires k < |s|
    ensures Bit(ToNat(s), |s| - 1 - k) == s[k]
  {
    hide ToNat;
    var p, x := s[..|s| - 1], s[|s| - 1];
    assert s == p + [x];
    ToNatSnoc(p, x);
    if k < |s| - 1 {
      NumBit(p, k);
      BitUp(ToNat(p), if x then 1 else 0, |s| - 2 - k);
    }
  }

  lemma {:induction false} BitUp(a: nat, x: nat, pos: nat)
    requires x <= 1
    ensures Bit(2 * a + x, pos + 1) == Bit(a, pos)
  {
    assert (2 * a + x) / 2 == a;
  }

  /** The bytes hold the values, one bit each. */
  ghost predicate Packed(bs: seq<U8>, vs: seq<bool>) {
    |vs| <= 8 * |bs| && forall k :: 0 <= k < |vs| ==> Bit(bs[k / 8], 7 - k % 8) == vs[k]
  }

  lemma {:induction false} PackedByte(bs: seq<U8>, vs: seq<bool>, cur: seq<bool>, b: U8, m: nat)
    requires Packed(bs, vs) && |vs| == 8 * |bs| && |cur| == 8 && b == ToNat(cur) && m <= 8
    ensures Packed(bs + [b], vs + cur[..m])
  {
    hide Bit, ToNat;
    var all, ws := bs + [b], vs + cur[..m];
    forall k | 0 <= k < |ws| ensures Bit(all[k / 8], 7 - k % 8) == ws[k] {
      if k < |vs| {
        assert k / 8 < |bs|;
      } else {
        assert k / 8 == |bs| && k % 8 == k - |vs|;
        NumBit(cur, k - |vs|);
      }
    }
  }

  class BooleanEncoder {
    var bytes: seq<U8>
    var b: U8
    var i: nat
    var n: nat

    /** The values written: those in full bytes, then those in the current one. */
    ghost var full: seq<bool>
    ghost var current: seq<bool>

    ghost predicate Valid()
      reads this
    {
      && i == |current| <= 8 && n == |full| + |current|
      && |full| == 8 * |bytes| && Packed(bytes, full) && b == ToNat(current)
    }

    constructor ()
      ensures Valid() && full + current == []
    {
      bytes, b, i, n := [], 0, 0, 0;
      full, current := [], [];
    }

    /** Pads the current byte with zeros and appends it. */
    method Flush()
      requires Valid()
      modifies this
      ensures bytes != [] && i == 0 && b == 0 && n == old(n)
      ensures Packed(bytes, old(full) + old(current)) && |bytes| == |old(bytes)| + 1
    {
      hide Packed, ToNat, Bit;
      ghost var m := |current|;
      while i < 8
        invariant i == |current| <= 8 && m <= i && current[..m] == old(current) && b == ToNat(current)
        invariant bytes == old(bytes) && n == old(n)
      {
        ToNatSnoc(current, false);
        ByteBound(current + [false]);
        b := (b * 2) % 256;
        current := current + [false];
        i := i + 1;
      }
      PackedByte(bytes, old(full), current, b, m);
      bytes := bytes + [b];
      b, i := 0, 0;
    }

    method Write(v: bool)
      requires Valid()
      modifies this
      ensures Valid() && full + current == old(full + current) + [v]
    {
      hide Packed, ToNat, Bit;
      if i >= 8 {
        ghost var was := full + current;
        Flush();
        full, current := was, [];
        NoBits();
      }
      ToNatSnoc(current, v);
      ByteBound(current + [v]);
      b := (b * 2) % 256;
      if v {
        b := b + 1;
      }
      current := current + [v];
      assert full + current == full + current[..|current| - 1] + [v];
      i := i + 1;
      n := n + 1;
    }

    /** The encoding: a tag, the count, the packed values. */
    method Bytes() returns (out: seq<U8>)
      requires Valid()
      modifies this
      ensures exists packed :: out == [16] + PutUvarint(old(n)) + packed && Packed(packed, old(full + current))
    {
      hide Packed, PutUvarint;
      Flush();
      out := [16] + PutUvarint(n) + bytes;
    }
  }

  lemma {:induction false} NoBits()
    ensures ToNat([]) == 0
  {
  }

  class BooleanDecoder {
    var b: seq<U8>
    var i: int
    var n: int
    var failed: bool

    constructor ()
      ensures b == [] && i == 0 && n == 0 && !failed
    {
      b, i, n, failed := [], 0, 0, false;
    }

    method SetBytes(src: seq<U8>)
      modifies this
      ensures src == [] ==> b == old(b) && i == old(i) && n == old(n) && failed == old(failed)
      ensures src != [] && Uvarint(src[1..]).Bad? ==> failed
      ensures src != [] && Uvarint(src[1..]).Varint? ==>
                var c := Uvarint(src[1..]);
                && failed == old(failed) && i == -1 && c.length <= |src[1..]| && b == src[1..][c.length..]
                && n == if Wrap(c.value) <= 8 * |b| then Wrap(c.value) else 8 * |b|
    {
      hide PutUvarint, Wrap;
      if |src| == 0 {
        return;
      }
      var c := Uvarint(src[1..]);
      if c.Bad? {
        failed := true;
        return;
      }
      UvarintWithin(src[1..]);
      b := src[1..][c.length..];
      i := -1;
      n := Wrap(c.value);
      if 8 * |b| < n {
        n := 8 * |b|;
      }
    }

    method Next() returns (more: bool)
      modifies this`i
      ensures failed ==> !more && i == old(i)
      ensures !failed ==> i == old(i) + 1 && (more <==> i < n)
    {
      if failed {
        return false;
      }
      i := i + 1;
      return i < n;
    }

    /** The current value: the bit that a mask selects from its byte. */
    method Read() returns (v: bool)
      requires 0 <= i < n <= 8 * |b|
      ensures v == Bit(b[i / 8], 7 - i % 8)
    {
      var idx := i / 8;
      var pos := 7 - i % 8;
      v := Bit(b[idx], pos);
    }
  }

  lemma {:induction false} UvarintWithin(s: seq<U8>)
    ensures Uvarint(s).Varint? ==> Uvarint(s).length <= |s|
  {
    hide ReadGroups;
    GroupsLength(s);
  }

  /** Encoding and decoding gives the values back. */
  method EncodeThenDecode(vs: seq<bool>) returns (out: seq<bool>, failed: bool)
    requires |vs| < TWO63
    ensures out == vs && !failed
  {
    hide Packed, PutUvarint, Uvarint, ToNat, Bit;
    var e := new BooleanEncoder();
    for k := 0 to |vs|
      invariant e.Valid() && fresh(e) && e.full + e.current == vs[..k]
    {
      e.Write(vs[k]);
      assert vs[..k + 1] == vs[..k] + [vs[k]];
    }
    assert vs[..|vs|] == vs;
    var bytes := e.Bytes();
    ghost var packed :| bytes == [16] + PutUvarint(|vs|) + packed && Packed(packed, vs);
    assert bytes[1..] == PutUvarint(|vs|) + packed;
    UvarintBack(|vs|, packed);
    PackedSize(packed, vs);
    var d := new BooleanDecoder();
    WrapSame(|vs|);
    d.SetBytes(bytes);
    assert d.b == packed;
    out, failed := DecodeAll(d, vs);
  }

  /** A count of 2^63 or more turns negative, and nothing is read. */
  method NothingRead(d: BooleanDecoder, src: seq<U8>) returns (more: bool)
    requires !d.failed && src != [] && Uvarint(src[1..]).Varint? && TWO63 <= Uvarint(src[1..]).value < TWO64
    modifies d
    ensures !more && !d.failed
  {
    hide Uvarint;
    d.SetBytes(src);
    more := d.Next();
  }

  lemma {:induction false} PackedSize(bs: seq<U8>, vs: seq<bool>)
    requires Packed(bs, vs)
    ensures |vs| <= 8 * |bs|
  {
  }

  lemma {:induction false} PackedAt(bs: seq<U8>, vs: seq<bool>, k: nat)
    requires Packed(bs, vs) && k < |vs|
    ensures k / 8 < |bs| && Bit(bs[k / 8], 7 - k % 8) == vs[k]
  {
  }

  method DecodeAll(d: BooleanDecoder, ghost vs: seq<bool>) returns (out: seq<bool>, failed: bool)
    requires d.i == -1 && d.n == |vs| && !d.failed && Packed(d.b, vs)
    modifies d
    ensures out == vs && !failed
  {
    hide Packed, Bit;
    PackedSize(d.b, vs);
    out := [];
    var more := d.Next();
    while more
      invariant 0 <= d.i <= |vs| && out == vs[..d.i] && (more <==> d.i < |vs|)
      invariant d.n == |vs| && !d.failed && d.b == old(d.b)
      decreases |vs| - d.i
    {
      PackedAt(d.b, vs, d.i);
      var v := d.Read();
      out := out + [v];
      more := d.Next();
    }
    failed := d.failed;
  }
}
