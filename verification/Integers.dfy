/** The integer encoder and decoder objects, proved against the codec's functions. */
module Integers {
  import opened ByteCodes
  import opened IntCodec

  /** The last value, the encoded differences and whether they are regular. */
  ghost predicate Follows(vs: seq<int>, prev: int, ds: seq<nat>, rle: bool) {
    AllInt64(vs) && prev == LastOr0(vs) && ds == Deltas(vs) && rle == Regular(ds)
  }

  lemma {:induction false} FollowsNext(vs: seq<int>, prev: int, ds: seq<nat>, rle: bool, v: int)
    requires Follows(vs, prev, ds, rle) && IsInt64(v)
    ensures var enc := ZigZagEncode(Wrap(v - prev));
            Follows(vs + [v], v, ds + [enc], rle && (|ds| > 1 ==> ds[|ds| - 1] == enc))
  {
    hide Wrap, ZigZagEncode, Regular;
    DeltasSnoc(vs, v);
    RegularSnoc(ds, ZigZagEncode(Wrap(v - prev)));
  }

  class IntegerEncoder {
    const packer: Packer
    var prev: int
    var rle: bool
    var values: seq<nat>

    /** The values written so far. */
    ghost var written: seq<int>

    ghost predicate Valid()
      reads this
    {
      Lawful(packer) && Follows(written, prev, values, rle)
    }

    constructor (packer: Packer)
      requires Lawful(packer)
      ensures Valid() && written == [] && this.packer == packer
    {
      this.packer := packer;
      prev, rle, values, written := 0, true, [], [];
    }

    method Write(v: int)
      requires Valid() && IsInt64(v)
      modifies this
      ensures Valid() && written == old(written) + [v]
    {
      hide Lawful, Wrap, ZigZagEncode, Follows;
      FollowsNext(written, prev, values, rle, v);
      var delta := Wrap(v - prev);
      prev := v;
      var enc := ZigZagEncode(delta);
      if |values| > 1 {
        rle := rle && values[|values| - 1] == enc;
      }
      values := values + [enc];
      written := written + [v];
    }

    /** The encoded slice: run length if it pays, raw words if a difference is too large, packed otherwise. */
    method Bytes() returns (b: seq<U8>)
      requires Valid() && |values| < TWO64
      ensures b == EncodeDeltas(packer, values)
    {
      hide Lawful, WordBytes, U64, PutUvarint, Deltas;
      if rle && |values| > 2 {
        return [32] + U64(values[0]) + PutUvarint(values[1]) + PutUvarint(|values| - 1);
      }
      var i := 0;
      while i < |values|
        invariant 0 <= i <= |values|
        invariant forall k :: 0 <= k < i ==> values[k] <= MAX_PACKED
      {
        if values[i] > MAX_PACKED {
          var ws := PutWords(values);
          return [0] + ws;
        }
        i := i + 1;
      }
      if |values| == 0 {
        return [];
      }
      PackLaw(packer, values[1..]);
      var ws := PutWords(packer.pack(values[1..]));
      return [16] + U64(values[0]) + ws;
    }
  }

  lemma {:induction false} PackLaw(p: Packer, ds: seq<nat>)
    requires Lawful(p) && Packable(ds)
    ensures Words(p.pack(ds)) && UnpackAll(p, p.pack(ds)) == ds
  {
  }

  lemma {:induction false} UnpackLaw(p: Packer, w: nat)
    requires Lawful(p) && w < TWO64
    ensures 1 <= |p.unpack(w)| <= 240 && Words(p.unpack(w))
  {
  }

  lemma {:induction false} RegularSnoc(ds: seq<nat>, d: nat)
    ensures Regular(ds + [d]) <==> Regular(ds) && (|ds| > 1 ==> ds[|ds| - 1] == d)
  {
    var r := ds + [d];
    if |ds| > 1 {
      assert r[|ds|] == d && r[|ds| - 1] == ds[|ds| - 1] && r[1] == ds[1];
      if Regular(r) {
        assert forall i :: 2 <= i < |ds| ==> ds[i] == r[i];
      }
    }
  }

  lemma {:induction false} WordBytesSnoc(ws: seq<nat>, w: nat)
    requires Words(ws) && w < TWO64
    ensures WordBytes(ws + [w]) == WordBytes(ws) + U64(w)
  {
    hide U64;
    if ws == [] {
      assert (ws + [w])[1..] == [];
    } else {
      assert (ws + [w])[1..] == ws[1..] + [w];
      WordBytesSnoc(ws[1..], w);
    }
  }

  method PutWords(ws: seq<nat>) returns (b: seq<U8>)
    requires Words(ws)
    ensures b == WordBytes(ws)
  {
    b := [];
    assert ws[..0] == [] && ws[..|ws|] == ws;
    for i := 0 to |ws|
      invariant b == WordBytes(ws[..i])
    {
      WordBytesSnoc(ws[..i], ws[i]);
      assert ws[..i] + [ws[i]] == ws[..i + 1];
      b := b + U64(ws[i]);
    }
  }

  /** What lies beyond index `i` of the first `n` buffered numbers, then ahead in the bytes. */
  ghost function Beyond(buf: seq<nat>, i: nat, n: int, ahead: seq<nat>): seq<nat>
    requires n <= |buf|
  {
    (if i < n then buf[i + 1..n] else []) + ahead
  }

  lemma {:induction false} BeyondNext(buf: seq<nat>, i: nat, n: int, ahead: seq<nat>)
    requires n <= |buf|
    ensures i + 1 < n ==> Beyond(buf, i, n, ahead) == [buf[i + 1]] + Beyond(buf, i + 1, n, ahead)
    ensures i + 1 >= n ==> Beyond(buf, i, n, ahead) == ahead
  {
    if i + 1 < n {
      Onward(buf, i + 1, n, ahead);
    }
  }

  lemma {:induction false} Onward(buf: seq<nat>, i: nat, n: nat, ahead: seq<nat>)
    requires i < n <= |buf|
    ensures buf[i..n] + ahead == [buf[i]] + (buf[i + 1..n] + ahead)
  {
    assert buf[i..n] == [buf[i]] + buf[i + 1..n];
  }

  lemma {:induction false} BeyondFirst(buf: seq<nat>, n: int, ahead: seq<nat>)
    requires n <= |buf|
    ensures 0 < n ==> buf[..n] + ahead == [buf[0]] + Beyond(buf, 0, n, ahead)
  {
    if 0 < n {
      Onward(buf, 0, n, ahead);
      assert buf[0..n] == buf[..n];
    }
  }

  class IntegerDecoder {
    const packer: Packer
    const values: array<nat>
    var bytes: seq<U8>
    var i: nat
    var n: int
    var prev: int
    var first: bool
    var rleFirst: nat
    var rleDelta: nat
    var encoding: nat
    var err: bool

    ghost predicate Valid()
      reads this, values
    {
      && Lawful(packer) && values.Length == 240 && rleFirst < TWO64 && rleDelta < TWO64
      && (WordFormat() ==> n <= 240 && forall k :: 0 <= k < n ==> values[k] < TWO64)
      && (encoding > RLE || (encoding == RLE && bytes != []) ==> n <= 0)
    }

    predicate WordFormat()
      reads this
    {
      encoding == PACKED || encoding == UNCOMPRESSED
    }

    /** The differences still in the bytes. */
    ghost function Ahead(): seq<nat>
      requires Lawful(packer)
      reads this
    {
      WordDeltas(packer, encoding == PACKED, first, bytes)
    }

    /** The differences not reached yet. */
    ghost function Rest(): seq<nat>
      requires Valid() && WordFormat()
      reads this, values
    {
      Beyond(values[..], i, n, Ahead())
    }

    constructor (packer: Packer)
      requires Lawful(packer)
      ensures Valid() && fresh(values) && this.packer == packer
    {
      this.packer := packer;
      values := new nat[240](_ => 0);
      bytes, i, n, prev, first := [], 0, 0, 0, true;
      rleFirst, rleDelta, encoding, err := 0, 0, 0, false;
    }

    method SetBytes(b: seq<U8>)
      requires Valid()
      modifies this
      ensures Valid() && i == 0 && n == 0 && prev == 0 && first && !err
      ensures encoding == (if b == [] then 0 else b[0] / 16) && bytes == (if b == [] then [] else b[1..])
    {
      if |b| > 0 {
        encoding := b[0] / 16;
        bytes := b[1..];
      } else {
        encoding := 0;
        bytes := [];
      }
      i, n, prev, first := 0, 0, 0, true;
      rleFirst, rleDelta, err := 0, 0, false;
    }

    /** One raw word. */
    method DecodeUncompressed()
      requires Valid() && encoding == UNCOMPRESSED && i >= n
      modifies this, values
      ensures Valid() && encoding == old(encoding) && prev == old(prev)
      ensures |old(bytes)| < 8 ==>
              n == old(n) && i == old(i) && bytes == old(bytes) && (err <==> old(err) || bytes != [])
      ensures |old(bytes)| >= 8 ==>
              err == old(err) && i == 0 < n && |bytes| == |old(bytes)| - 8 && values[..][..n] + Ahead() == old(Ahead())
    {
      hide Lawful, FromBigEndian;
      if |bytes| == 0 {
        return;
      }
      if |bytes| < 8 {
        err := true;
        return;
      }
      U64Bound(bytes[..8]);
      values[0] := FromBigEndian(bytes[..8]);
      i := 0;
      n := 1;
      RawFirst(packer, first, bytes[8..]);
      bytes := bytes[8..];
      assert values[..1] == [values[0]];
    }

    /** The raw first word, or a packed word. */
    method DecodePacked()
      requires Valid() && encoding == PACKED && i >= n
      modifies this, values
      ensures Valid() && encoding == old(encoding) && prev == old(prev)
      ensures |old(bytes)| < 8 ==>
              n == old(n) && i == old(i) && bytes == old(bytes) && (err <==> old(err) || bytes != [])
      ensures |old(bytes)| >= 8 ==>
              err == old(err) && i == 0 < n && |bytes| == |old(bytes)| - 8 && values[..][..n] + Ahead() == old(Ahead())
    {
      hide Lawful, FromBigEndian;
      if |bytes| == 0 {
        return;
      }
      if |bytes| < 8 {
        err := true;
        return;
      }
      U64Bound(bytes[..8]);
      var v := FromBigEndian(bytes[..8]);
      if first {
        first := false;
        n := 1;
        values[0] := v;
        assert values[..1] == [v];
      } else {
        UnpackLaw(packer, v);
        var unit := packer.unpack(v);
        forall k | 0 <= k < |unit| {
          values[k] := unit[k];
        }
        n := |unit|;
        assert values[..n] == unit;
      }
      i := 0;
      bytes := bytes[8..];
    }

    /** The three fields of a run. */
    method DecodeRLE()
      requires Valid() && encoding == RLE
      modifies this
      ensures Valid() && encoding == old(encoding) && prev == old(prev)
      ensures old(bytes) == [] ==>
                err == old(err) && bytes == [] && n == old(n) && i == old(i) && rleFirst == old(rleFirst)
                    && rleDelta == old(rleDelta)
      ensures old(bytes) != [] ==>
                match ReadRun(old(bytes))
                case NoRun => err && n == old(n) && i == old(i)
                case Run(f, s, c) =>
                  && err == old(err) && bytes == [] && rleFirst == f && rleDelta == s && i == 0
                  && c < TWO64 && n == RunLength(c)
    {
      hide Lawful, FromBigEndian, ReadGroups, Wrap;
      if |bytes| == 0 {
        return;
      }
      if |bytes| < 8 {
        err := true;
        return;
      }
      U64Bound(bytes[..8]);
      var f := FromBigEndian(bytes[..8]);
      var value := Uvarint(bytes[8..]);
      if value.Bad? {
        err := true;
        return;
      }
      GroupsLength(bytes[8..]);
      var count := Uvarint(bytes[8 + value.length..]);
      if count.Bad? {
        err := true;
        return;
      }
      rleFirst := f;
      rleDelta := value.value;
      n := RunLength(count.value);
      i := 0;
      bytes := [];
    }

    /** Decodes the next unit of bytes, by the format of the slice. */
    method Refill()
      requires Valid() && i >= n
      modifies this, values
      ensures Valid() && encoding == old(encoding) && prev == old(prev)
      ensures WordFormat() && |old(bytes)| < 8 ==>
              n == old(n) && i == old(i) && bytes == old(bytes) && (err <==> old(err) || bytes != [])
      ensures WordFormat() && |old(bytes)| >= 8 ==>
                err == old(err) && i == 0 < n && |bytes| == |old(bytes)| - 8
                    && values[..][..n] + Ahead() == old(Ahead())
      ensures encoding == RLE && old(bytes) == [] ==>
                err == old(err) && bytes == [] && n == old(n) && i == old(i) && rleFirst == old(rleFirst)
                    && rleDelta == old(rleDelta)
      ensures encoding == RLE && old(bytes) != [] ==>
                match ReadRun(old(bytes))
                case NoRun => err && n == old(n) && i == old(i)
                case Run(f, s, c) =>
                  && err == old(err) && bytes == [] && rleFirst == f && rleDelta == s && i == 0
                  && c < TWO64 && n == RunLength(c)
      ensures encoding > RLE ==> err
    {
      hide Lawful, ReadRun, RunLength, WordDeltas;
      if encoding == UNCOMPRESSED {
        DecodeUncompressed();
      } else if encoding == PACKED {
        DecodePacked();
      } else if encoding == RLE {
        DecodeRLE();
      } else {
        err := true;
      }
    }

    /** Moves to the next difference of a slice of words. */
    method NextWord() returns (ok: bool)
      requires Valid() && WordFormat()
      modifies this, values
      ensures Valid() && encoding == old(encoding) && prev == old(prev)
      ensures if old(err) then !ok && err else Stepped(old(Rest()), old(bytes), ok)
    {
      hide Lawful, WordDeltas, Beyond;
      ShortWords(packer, encoding == PACKED, first, bytes);
      BeyondNext(values[..], i, n, Ahead());
      if i >= n && |bytes| == 0 {
        return false;
      }
      i := i + 1;
      if i >= n {
        Refill();
      }
      BeyondFirst(values[..], n, Ahead());
      return !err && i < n;
    }

    /**
     * How a step of a slice of words ends: on the next difference, or at the end with an error iff bytes are
     * left over.
     */
    ghost predicate Stepped(rest: seq<nat>, before: seq<U8>, ok: bool)
      requires Valid() && WordFormat()
      reads this, values
    {
      if rest == [] then !ok && (err <==> |before| % 8 != 0)
      else ok && !err && i < n && rest == [values[i]] + Rest() && |bytes| % 8 == |before| % 8
    }

    /** How the first step of a run ends: on its first value, or with an error if its fields cannot be read. */
    ghost predicate RunStarted(before: seq<U8>, ok: bool)
      reads this
    {
      match ReadRun(before)
      case NoRun => !ok && err
      case Run(f, s, c) =>
        && !err && bytes == [] && rleFirst == f && rleDelta == s && i == 0
        && c < TWO64 && n == RunLength(c) && (ok <==> 0 < n)
    }

    /** Moves to the next value of a run. */
    method NextRun() returns (ok: bool)
      requires Valid() && encoding == RLE
      modifies this, values
      ensures Valid() && encoding == old(encoding) && prev == old(prev)
      ensures old(err) ==> !ok && err
      ensures !old(err) && old(bytes) == [] ==>
                && !err && bytes == [] && n == old(n) && rleFirst == old(rleFirst) && rleDelta == old(rleDelta)
                && (ok <==> old(i) + 1 < n) && (ok ==> i == old(i) + 1)
      ensures !old(err) && old(bytes) != [] ==> RunStarted(old(bytes), ok)
    {
      hide Lawful, ReadRun, RunLength;
      if i >= n && |bytes| == 0 {
        return false;
      }
      i := i + 1;
      if i >= n {
        Refill();
      }
      return !err && i < n;
    }

    /** Moves to the next value, decoding more bytes when the buffer is used up; after an error there is none. */
    method Next() returns (ok: bool)
      requires Valid()
      modifies this, values
      ensures Valid() && encoding == old(encoding) && prev == old(prev)
      ensures old(err) ==> !ok && err
      ensures !old(err) && WordFormat() ==> Stepped(old(Rest()), old(bytes), ok)
      ensures !old(err) && encoding == RLE && old(bytes) == [] ==>
                && !err && bytes == [] && n == old(n) && rleFirst == old(rleFirst) && rleDelta == old(rleDelta)
                && (ok <==> old(i) + 1 < n) && (ok ==> i == old(i) + 1)
      ensures !old(err) && encoding == RLE && old(bytes) != [] ==> RunStarted(old(bytes), ok)
      ensures !old(err) && encoding > RLE ==> !ok && (err <==> old(bytes) != [])
    {
      hide Lawful, WordDeltas, Stepped, Rest, RunStarted;
      if WordFormat() {
        ok := NextWord();
      } else if encoding == RLE {
        ok := NextRun();
      } else {
        if i >= n && |bytes| == 0 {
          return false;
        }
        i := i + 1;
        if i >= n {
          Refill();
        }
        return !err && i < n;
      }
    }

    /** The current value. */
    method Read() returns (v: int)
      requires Valid() && i < n && (encoding != RLE ==> WordFormat())
      modifies this`prev
      ensures encoding == RLE ==>
                v == Wrap(ZigZagDecode(rleFirst) + Wrap(i * ZigZagDecode(rleDelta))) && prev == old(prev)
      ensures encoding != RLE ==> v == Wrap(ZigZagDecode(values[i]) + old(prev)) && prev == v
    {
      if encoding == RLE {
        return Wrap(ZigZagDecode(rleFirst) + Wrap(i * ZigZagDecode(rleDelta)));
      }
      v := ZigZagDecode(values[i]);
      v := Wrap(v + prev);
      prev := v;
    }
  }

  lemma {:induction false} ShortWords(p: Packer, packed: bool, first: bool, s: seq<U8>)
    requires Lawful(p)
    ensures WordDeltas(p, packed, first, s) == [] <==> |s| < 8
  {
    hide FromBigEndian;
    if |s| >= 8 {
      U64Bound(s[..8]);
      UnpackLaw(p, FromBigEndian(s[..8]));
    }
  }

  lemma {:induction false} RawFirst(p: Packer, first: bool, s: seq<U8>)
    requires Lawful(p)
    ensures WordDeltas(p, false, first, s) == WordDeltas(p, false, false, s)
  {
  }

  // ---------------------------------------------------------------- whole runs


  lemma {:induction false} SumsNext(ds: seq<nat>, k: nat)
    requires Words(ds) && k < |ds|
    ensures Sums(ds[..k + 1]) == Sums(ds[..k]) + [Wrap(ZigZagDecode(ds[k]) + LastOr0(Sums(ds[..k])))]
  {
    hide Sums, Wrap, ZigZagDecode, LastOr0;
    SumsSnoc(ds[..k], ds[k]);
    assert ds[..k] + [ds[k]] == ds[..k + 1];
  }

  lemma {:induction false} LastOf(vs: seq<int>, v: int)
    ensures LastOr0([]) == 0 && LastOr0(vs + [v]) == v
  {
  }

  /** Reads the current difference as a value and steps on. */
  method ReadStep(d: IntegerDecoder) returns (v: int, ok: bool)
    requires d.Valid() && d.WordFormat() && !d.err && d.i < d.n
    modifies d, d.values
    ensures d.Valid() && d.WordFormat()
    ensures v == Wrap(ZigZagDecode(old(d.values[d.i])) + old(d.prev)) && d.prev == v
    ensures d.Stepped(old(d.Rest()), old(d.bytes), ok)
  {
    hide WordDeltas, Wrap, ZigZagDecode, Lawful, IntegerDecoder.Stepped;
    v := d.Read();
    ok := d.Next();
  }

  /** The first `k` differences were read as `out`, the last of which is `prev`. */
  ghost predicate Summed(all: seq<nat>, k: nat, out: seq<int>, prev: int)
    requires Words(all)
  {
    k <= |all| && out == Sums(all[..k]) && prev == LastOr0(out)
  }

  lemma {:induction false} SummedStart(all: seq<nat>)
    requires Words(all)
    ensures Summed(all, 0, [], 0)
  {
    SumsNone();
    assert all[..0] == [];
  }

  lemma {:induction false} SummedNext(all: seq<nat>, k: nat, out: seq<int>, prev: int, d: nat, rest: seq<nat>)
    requires Words(all) && Summed(all, k, out, prev) && k < |all| && all[k..] == [d] + rest
    ensures d < TWO64 && rest == all[k + 1..]
    ensures var v := Wrap(ZigZagDecode(d) + prev); Summed(all, k + 1, out + [v], v)
  {
    hide Sums, Wrap, ZigZagDecode;
    assert all[k] == all[k..][0] && all[k + 1..] == all[k..][1..];
    SumsNext(all, k);
    LastOf(out, Wrap(ZigZagDecode(d) + prev));
  }

  lemma {:induction false} SummedAll(all: seq<nat>, out: seq<int>, prev: int)
    requires Words(all) && Summed(all, |all|, out, prev)
    ensures out == Sums(all)
  {
    assert all[..|all|] == all;
  }

  /** Reads a decoder of raw or packed words to its end. */
  method DrainWords(d: IntegerDecoder) returns (out: seq<int>)
    requires d.Valid() && d.WordFormat() && !d.err && d.i == 0 && d.n == 0 && d.prev == 0
    modifies d, d.values
    ensures out == Sums(old(d.Ahead()))
    ensures d.err <==> |old(d.bytes)| % 8 != 0
  {
    hide Sums, WordDeltas, Wrap, ZigZagDecode, Lawful, Beyond, Summed, Words;
    ghost var all, left := d.Ahead(), |d.bytes| % 8;
    BeyondNext(d.values[..], d.i, d.n, all);
    out := [];
    SummedStart(all);
    assert all[0..] == all;
    ghost var k := 0;
    var ok := d.Next();
    while ok
      invariant d.Valid() && d.WordFormat() && k <= |all|
      invariant ok ==> !d.err && d.i < d.n && |d.bytes| % 8 == left
      invariant ok ==> k < |all| && all[k..] == [d.values[d.i]] + d.Rest()
      invariant !ok ==> k == |all| && (d.err <==> left != 0)
      invariant Summed(all, k, out, d.prev)
      decreases ok, |all| - k
    {
      SummedNext(all, k, out, d.prev, d.values[d.i], d.Rest());
      var v;
      v, ok := ReadStep(d);
      out := out + [v];
      k := k + 1;
    }
    SummedAll(all, out, d.prev);
  }

  /** Reads a decoder of a run to its end. */
  method DrainRun(d: IntegerDecoder) returns (out: seq<int>)
    requires d.Valid() && d.encoding == RLE && !d.err && d.i == 0 && d.n == 0
    modifies d, d.values
    ensures old(d.bytes) == [] ==> out == [] && !d.err
    ensures old(d.bytes) != [] ==> out == RunValues(ReadRun(old(d.bytes))) && d.err == ReadRun(old(d.bytes)).NoRun?
  {
    hide ReadRun, Wrap, ZigZagDecode, Lawful, WordDeltas;
    ReadRunOk(d.bytes);
    ghost var r := ReadRun(d.bytes);
    out := [];
    var ok := d.Next();
    if !ok {
      return;
    }
    ghost var all := RunValues(r);
    assert all == Series(ZigZagDecode(d.rleFirst), ZigZagDecode(d.rleDelta), d.n);
    while ok
      invariant d.Valid() && d.encoding == RLE && !d.err && d.bytes == []
      invariant d.rleFirst == r.first && d.rleDelta == r.step && d.n == |all|
      invariant ok ==> |out| == d.i < d.n
      invariant !ok ==> |out| == d.n
      invariant out == all[..|out|]
      decreases ok, |all| - |out|
    {
      var v := d.Read();
      out := out + [v];
      ok := d.Next();
    }
  }

  /** Decodes a whole slice. */
  method DecodeAll(packer: Packer, b: seq<U8>) returns (out: seq<int>, failed: bool)
    requires Lawful(packer)
    ensures out == DecodeValues(packer, b) && failed == DecodeFails(b)
  {
    hide Lawful, Sums, WordDeltas, ReadRun, RunValues;
    var d := new IntegerDecoder(packer);
    d.SetBytes(b);
    out := [];
    if d.encoding == RLE {
      out := DrainRun(d);
      ShortRun();
    } else if d.WordFormat() {
      SumsNone();
      ShortWords(packer, d.encoding == PACKED, true, []);
      out := DrainWords(d);
    } else {
      var _ := d.Next();
    }
    failed := d.err;
  }

  lemma {:induction false} ShortRun()
    ensures RunValues(ReadRun([])) == []
  {
  }

  /** Every list of 64-bit values comes back from its encoding, without an error. */
  method EncodeThenDecode(packer: Packer, vs: seq<int>) returns (out: seq<int>, failed: bool)
    requires Lawful(packer) && AllInt64(vs) && |vs| < TWO63
    ensures out == vs && !failed
  {
    hide Lawful, EncodeDeltas, DecodeValues, DecodeFails, Deltas, Regular;
    var e := new IntegerEncoder(packer);
    for i := 0 to |vs|
      invariant e.Valid() && fresh(e) && e.packer == packer && e.written == vs[..i]
    {
      e.Write(vs[i]);
    }
    assert vs[..|vs|] == vs;
    var b := e.Bytes();
    RoundTrip(packer, vs);
    out, failed := DecodeAll(packer, b);
  }
}
