/**
 The bit reader of the float decoder: a 64-bit buffer in front of a byte slice, read as
 one bit string from the most significant bit on.
 */
module BitReaders {
  import opened Sequences
  import opened Bits

  class BitReader {
    var data: seq<Byte>
    var v: Word
    var n: nat

    /** Unused low bits of the buffer are zero, and an empty buffer means no data is left. */
    ghost predicate Valid()
      reads this
    {
      n <= 64 && v[n..] == Zeros(64 - n) && (n == 0 ==> data == [])
    }

    /** The bits not read yet. */
    ghost function Rest(): seq<bool>
      requires Valid()
      reads this
    {
      v[..n] + Stream(data)
    }

    constructor (data: seq<Byte>)
      ensures Valid() && Rest() == Stream(data)
    {
      this.data := data;
      v := Zeros(64);
      n := 0;
      new;
      ReadBuf();
    }

    method Reset(data: seq<Byte>)
      modifies this
      ensures Valid() && Rest() == Stream(data)
    {
      this.data := data;
      v, n := Zeros(64), 0;
      ReadBuf();
    }

    predicate CanReadBitFast()
      reads this
    {
      n > 1
    }

    method ReadBitFast() returns (bit: bool)
      requires Valid() && CanReadBitFast()
      modifies this
      ensures Valid()
      ensures old(Rest()) == [bit] + Rest()
    {
      ghost var w := v;
      bit := v[0];
      v := Shl(v, 1);
      n := n - 1;
      assert v[..n] == w[1..n + 1] && v[n..] == w[n + 1..] + Zeros(1);
      assert w[..n + 1] == [bit] + w[1..n + 1];
    }

    method ReadBit() returns (bit: bool, eof: bool)
      requires Valid()
      modifies this
      ensures Valid()
      ensures eof <==> old(Rest()) == []
      ensures eof ==> Rest() == []
      ensures !eof ==> old(Rest()) == [bit] + Rest()
    {
      var r;
      ghost var s := Rest();
      r, eof := ReadBits(1);
      bit := r != Zeros(64);
      if !eof {
        assert r[63] == s[0];
        assert bit ==> exists i :: 0 <= i < 64 && r[i] != Zeros(64)[i];
        assert s == [s[0]] + s[1..];
      }
    }

    /** Reads the next `nbits` bits as a number, zero-padded past the end of the data. */
    method ReadBits(nbits: nat) returns (r: Word, eof: bool)
      requires Valid() && 1 <= nbits <= 64
      modifies this
      ensures Valid()
      ensures eof <==> old(Rest()) == []
      ensures eof ==> Rest() == [] && r == Zeros(64)
      ensures !eof ==> r == Zeros(64 - nbits) + Padded(old(Rest()), nbits) && Rest() == Drop(old(Rest()), nbits)
    {
      if n == 0 {
        return Zeros(64), true;
      }
      if nbits <= n {
        r := ReadBuffered(nbits);
        return r, false;
      }
      r := ReadAcross(nbits);
      return r, false;
    }

    /** The bits are all in the buffer. */
    method ReadBuffered(nbits: nat) returns (r: Word)
      requires Valid() && 1 <= nbits <= n
      modifies this
      ensures Valid()
      ensures r == Zeros(64 - nbits) + Padded(old(Rest()), nbits) && Rest() == Drop(old(Rest()), nbits)
    {
      ghost var w, s := v, Rest();
      assert s[..nbits] == w[..nbits];
      assert s[nbits..] == w[nbits..n] + Stream(data);
      if nbits == 64 {
        r := v;
        v, n := Zeros(64), 0;
        ReadBuf();
        return;
      }
      r := Shr(v, 64 - nbits);
      Skip(nbits);
    }

    /** The bits start in the buffer and continue in the data. */
    method ReadAcross(nbits: nat) returns (r: Word)
      requires Valid() && 0 < n < nbits <= 64
      modifies this
      ensures Valid()
      ensures r == Zeros(64 - nbits) + Padded(old(Rest()), nbits) && Rest() == Drop(old(Rest()), nbits)
    {
      var acc, got := v, n;
      ghost var tail := Stream(data);
      v, n := Zeros(64), 0;
      ReadBuf();
      JoinBuffers(acc, got, v, n, tail, Stream(data), nbits);
      acc := Or(acc, Shr(v, got));
      r := Shr(acc, 64 - nbits);

      var bufN := nbits - got;
      if bufN > n {
        bufN := n;
      }
      Skip(bufN);
    }

    /** Drops bits of the buffer, refilling it when it runs empty. */
    method Skip(k: nat)
      requires k <= n <= 64 && v[n..] == Zeros(64 - n) && (k < n ==> Valid()) && (n == 0 ==> data == [])
      modifies this
      ensures Valid() && Rest() == old(v[k..n] + Stream(data))
    {
      hide Stream;
      ghost var w := v;
      v := Shl(v, k);
      n := n - k;
      ShlSlices(w, k, n + k);
      if n == 0 {
        assert v[..0] == [] && v == v[0..];
        ReadBuf();
      }
    }

    /** Refills the empty buffer with up to eight bytes. */
    method ReadBuf()
      requires n == 0 && v == Zeros(64)
      modifies this
      ensures Valid() && (n < 64 ==> data == [])
      ensures Rest() == Stream(old(data))
    {
      var byteN := 8 - n / 8;
      if byteN > |data| {
        byteN := |data|;
      }
      if byteN == 8 {
        v := EightBytes(data);
        n := 64;
        StreamAppend(data[..8], data[8..]);
        assert data == data[..8] + data[8..];
        data := data[8..];
        return;
      }
      v := AppendBytes(data);
      n := 8 * |data|;
      assert data[..|data|] == data;
      EmptyStream();
      data := data[byteN..];
    }
  }

  /** `v` holds the first `i` bytes of `d` in its high bits. */
  ghost predicate Loaded(v: Word, d: seq<Byte>, i: nat) {
    i <= |d| && i <= 8 && v == Stream(d[..i]) + Zeros(64 - 8 * i)
  }

  lemma {:induction false} LoadedNone(d: seq<Byte>)
    ensures Loaded(Zeros(64), d, 0)
  {
    assert d[..0] == [];
    EmptyStream();
    hide Stream;
    assert [] + Zeros(64) == Zeros(64);
  }

  /** Fewer than eight bytes, or-ed in one below the other. */
  method AppendBytes(d: seq<Byte>) returns (v: Word)
    requires |d| < 8
    ensures Loaded(v, d, |d|)
  {
    hide *;
    v := Zeros(64);
    LoadedNone(d);
    var n := 0;
    for i := 0 to |d|
      invariant n == 8 * i && Loaded(v, d, i)
    {
      n := n + 8;
      AppendOne(v, d, i);
      v := Or(v, Shl(Widen(d[i]), 64 - n));
    }
  }

  lemma {:induction false} ShlSlices(w: Word, k: nat, n: nat)
    requires k <= n <= 64 && w[n..] == Zeros(64 - n)
    ensures Shl(w, k)[..n - k] == w[k..n]
    ensures Shl(w, k)[n - k..] == Zeros(64 - (n - k))
  {
    if k < 64 {
      assert Shl(w, k)[n - k..] == w[n..] + Zeros(k);
    }
  }

  lemma {:induction false} SingleStream(b: Byte)
    ensures Stream([b]) == b
  {
    assert [b][1..] == [];
  }

  /** Or-ing a byte in below the bits collected so far appends it. */
  lemma {:induction false} AppendByte(s: seq<bool>, b: Byte)
    requires |s| <= 56
    ensures Or(s + Zeros(64 - |s|), Shl(Widen(b), 56 - |s|)) == s + b + Zeros(56 - |s|)
  {
  }

  lemma {:induction false} AppendOne(v: Word, d: seq<Byte>, i: nat)
    requires i < |d| && i < 8 && Loaded(v, d, i)
    ensures Loaded(Or(v, Shl(Widen(d[i]), 56 - 8 * i)), d, i + 1)
  {
    hide Or, Shl, Widen;
    AppendByte(Stream(d[..i]), d[i]);
    StreamAppend(d[..i], [d[i]]);
    assert d[..i] + [d[i]] == d[..i + 1];
    SingleStream(d[i]);
  }

  lemma {:induction false} EmptyStream()
    ensures Stream([]) == []
  {
  }

  /** Or-ing a byte in above the low bits collected so far prepends it. */
  lemma {:induction false} PrependByte(s: seq<bool>, b: Byte)
    requires |s| <= 56
    ensures Or(Zeros(64 - |s|) + s, Shl(Widen(b), |s|)) == Zeros(56 - |s|) + b + s
  {
  }

  /** The unrolled eight-byte load. */
  function LoadEight(d: seq<Byte>): Word
    requires |d| >= 8
  {
    Or(Or(Or(Or(Or(Or(Or(Widen(d[7]), Shl(Widen(d[6]), 8)), Shl(Widen(d[5]), 16)), Shl(Widen(d[4]), 24)),
      Shl(Widen(d[3]), 32)), Shl(Widen(d[2]), 40)), Shl(Widen(d[1]), 48)), Shl(Widen(d[0]), 56))
  }

  method EightBytes(d: seq<Byte>) returns (w: Word)
    requires |d| >= 8
    ensures w == Stream(d[..8])
  {
    w := LoadEight(d);
    LoadEightStream(d);
  }

  lemma {:induction false} LoadFour(d: seq<Byte>)
    requires |d| >= 8
    ensures Or(Or(Or(Widen(d[7]), Shl(Widen(d[6]), 8)), Shl(Widen(d[5]), 16)), Shl(Widen(d[4]), 24)) ==
            Zeros(32) + Stream(d[4..8])
  {
    LoadOne(d, 7);
    assert d[8..8] == [] && Widen(d[7]) == Zeros(56) + Stream(d[7..8]);
    hide Or, Shl, Widen, Stream, Zeros;
    LoadOne(d, 6);
    LoadOne(d, 5);
    LoadOne(d, 4);
  }

  lemma {:induction false} LoadEightStream(d: seq<Byte>)
    requires |d| >= 8
    ensures LoadEight(d) == Stream(d[..8])
  {
    hide Or, Shl, Widen, Stream, Zeros;
    LoadFour(d);
    LoadOne(d, 3);
    LoadOne(d, 2);
    LoadOne(d, 1);
    LoadOne(d, 0);
    assert Zeros(0) == [] && d[0..8] == d[..8];
  }

  lemma {:induction false} StreamHead(d: seq<Byte>, i: nat)
    requires i < 8 <= |d|
    ensures Stream(d[i..8]) == d[i] + Stream(d[i + 1..8])
  {
    assert d[i..8][1..] == d[i + 1..8] && d[i..8][0] == d[i];
  }

  /** One term of the load: byte `i` goes in front of the bytes behind it. */
  lemma {:induction false} LoadOne(d: seq<Byte>, i: nat)
    requires i < 8 <= |d|
    ensures Stream(d[i..8]) == d[i] + Stream(d[i + 1..8])
    ensures Or(Zeros(8 * i + 8) + Stream(d[i + 1..8]), Shl(Widen(d[i]), 56 - 8 * i)) == Zeros(8 * i) + Stream(d[i..8])
  {
    hide Or, Shl, Widen, Stream;
    StreamHead(d, i);
    PrependByte(Stream(d[i + 1..8]), d[i]);
  }

  /** The high `nbits` bits of both buffers laid end to end are the padded head of the stream. */
  lemma {:induction false} JoinBuffers(a: Word, got: nat, v: Word, n: nat, tail: seq<bool>, more: seq<bool>, nbits: nat)
    requires 0 < got < nbits <= 64 && n <= 64
    requires a[got..] == Zeros(64 - got) && v[n..] == Zeros(64 - n)
    requires tail == v[..n] + more && (n < 64 ==> more == [])
    ensures Shr(Or(a, Shr(v, got)), 64 - nbits) == Zeros(64 - nbits) + Padded(a[..got] + tail, nbits)
    ensures var bufN := if nbits - got > n then n else nbits - got;
            Drop(a[..got] + tail, nbits) == v[bufN..n] + more
  {
    var s := a[..got] + tail;
    var j := Or(a, Shr(v, got));
    forall i | 0 <= i < nbits ensures j[i] == Padded(s, nbits)[i] {
      if i < got {
        assert j[i] == a[i];
      } else {
        assert !a[i] by { assert a[i] == a[got..][i - got]; }
        if i - got < n {
          assert s[i] == tail[i - got] == v[i - got];
        } else {
          assert v[i - got] == v[n..][i - got - n];
        }
      }
    }
    assert j[..nbits] == Padded(s, nbits);
    assert Shr(j, 64 - nbits) == Zeros(64 - nbits) + j[..nbits];
  }

  // ---------------------------------------------------------------- whole runs

  /** Consecutive slices of a bit string, zero-padded at its end and empty past it. */
  ghost function Slices(s: seq<bool>, widths: seq<nat>): seq<seq<bool>>
    decreases widths
  {
    if widths == [] then []
    else [if s == [] then [] else Padded(s, widths[0])] + Slices(Drop(s, widths[0]), widths[1..])
  }

  ghost function Total(widths: seq<nat>): nat {
    if widths == [] then 0 else widths[0] + Total(widths[1..])
  }

  /** As long as the data lasts, the slices laid end to end are the data. */
  lemma {:induction false} SlicesJoin(s: seq<bool>, widths: seq<nat>)
    requires Total(widths) <= |s| && forall i :: 0 <= i < |widths| ==> widths[i] > 0
    ensures Concat(Slices(s, widths)) == s[..Total(widths)]
    decreases widths
  {
    if widths != [] {
      var w, rest := widths[0], widths[1..];
      SlicesJoin(s[w..], rest);
      assert Slices(s, widths) == [s[..w]] + Slices(s[w..], rest);
      ConcatCons(s[..w], Slices(s[w..], rest));
      SplitTake(s, w, Total(rest));
    }
  }

  lemma {:induction false} SplitTake(s: seq<bool>, a: nat, b: nat)
    requires a + b <= |s|
    ensures s[..a] + s[a..][..b] == s[..a + b]
  {
  }

  lemma {:induction false} SlicesNext(s: seq<bool>, widths: seq<nat>, done: seq<seq<bool>>, i: nat)
    requires i < |widths|
    ensures var part := if s == [] then [] else Padded(s, widths[i]);
            done + Slices(s, widths[i..]) == done + [part] + Slices(Drop(s, widths[i]), widths[i + 1..])
  {
    hide Padded, Drop;
    var part, rest := if s == [] then [] else Padded(s, widths[i]), Slices(Drop(s, widths[i]), widths[i + 1..]);
    assert widths[i..][1..] == widths[i + 1..] && widths[i..][0] == widths[i];
    assert Slices(s, widths[i..]) == [part] + rest;
    Regrouped(done, [part], rest);
  }

  /** A run of reads, single bits read fast where that is allowed, returns consecutive slices of the data. */
  method ReadRun(data: seq<Byte>, widths: seq<nat>) returns (parts: seq<seq<bool>>)
    requires forall i :: 0 <= i < |widths| ==> 1 <= widths[i] <= 64
    ensures parts == Slices(Stream(data), widths)
  {
    hide Slices, Stream, BitReader.Valid, BitReader.Rest;
    var r := new BitReader(data);
    parts := [];
    assert widths[0..] == widths;
    for i := 0 to |widths|
      invariant r.Valid() && fresh(r)
      invariant Slices(Stream(data), widths) == parts + Slices(r.Rest(), widths[i..])
    {
      SlicesNext(r.Rest(), widths, parts, i);
      var part := ReadPart(r, widths[i]);
      parts := parts + [part];
    }
    NoSlices(r.Rest());
    assert widths[|widths|..] == [];
  }

  lemma {:induction false} NoSlices(s: seq<bool>)
    ensures Slices(s, []) == []
  {
  }

  method ReadPart(r: BitReader, width: nat) returns (part: seq<bool>)
    requires r.Valid() && 1 <= width <= 64
    modifies r
    ensures r.Valid()
    ensures part == if old(r.Rest()) == [] then [] else Padded(old(r.Rest()), width)
    ensures r.Rest() == Drop(old(r.Rest()), width)
  {
    if width == 1 && r.CanReadBitFast() {
      var bit := r.ReadBitFast();
      return [bit];
    }
    var w, eof := r.ReadBits(width);
    return if eof then [] else w[64 - width..];
  }
}
