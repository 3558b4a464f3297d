/**
 The integer codec: deltas in 64-bit wrap-around arithmetic, zigzag, then one of three
 formats (run length, packed words, raw words), as functions on bytes, and its round trip.
 */
module IntCodec {
  import opened ByteCodes

  /** The largest number the word packer takes. */
  const MAX_PACKED := 0x0FFF_FFFF_FFFF_FFFF

  const UNCOMPRESSED: nat := 0
  const PACKED: nat := 1
  const RLE: nat := 2

  /** The external word packer: several small numbers in one 64-bit word. */
  datatype Packer = Packer(pack: seq<nat> -> seq<nat>, unpack: nat -> seq<nat>)

  ghost predicate Words(ws: seq<nat>) {
    forall i :: 0 <= i < |ws| ==> ws[i] < TWO64
  }

  ghost predicate Packable(ds: seq<nat>) {
    forall i :: 0 <= i < |ds| ==> ds[i] <= MAX_PACKED
  }

  ghost function UnpackAll(p: Packer, ws: seq<nat>): seq<nat> {
    if ws == [] then [] else p.unpack(ws[0]) + UnpackAll(p, ws[1..])
  }

  /** A word yields 1 to 240 numbers, and unpacking undoes packing. */
  ghost predicate Lawful(p: Packer) {
    && (forall w :: 0 <= w < TWO64 ==> 1 <= |p.unpack(w)| <= 240 && Words(p.unpack(w)))
    && (forall ds :: Packable(ds) ==> Words(p.pack(ds)) && UnpackAll(p, p.pack(ds)) == ds)
  }

  // ---------------------------------------------------------------- deltas

  ghost predicate AllInt64(vs: seq<int>) {
    forall i :: 0 <= i < |vs| ==> IsInt64(vs[i])
  }

  function LastOr0(vs: seq<int>): int {
    if vs == [] then 0 else vs[|vs| - 1]
  }

  /** The zigzagged differences of consecutive values, the first one to 0. */
  ghost function Deltas(vs: seq<int>): (ds: seq<nat>)
    ensures |ds| == |vs| && Words(ds)
  {
    if vs == [] then []
    else Deltas(vs[..|vs| - 1]) + [ZigZagEncode(Wrap(vs[|vs| - 1] - LastOr0(vs[..|vs| - 1])))]
  }

  /** Running sums of un-zigzagged differences. */
  ghost function Sums(ds: seq<nat>): (vs: seq<int>)
    requires Words(ds)
    ensures |vs| == |ds|
  {
    if ds == [] then []
    else
      var p := Sums(ds[..|ds| - 1]);
      p + [Wrap(ZigZagDecode(ds[|ds| - 1]) + LastOr0(p))]
  }

  lemma {:induction false} SumsSnoc(ds: seq<nat>, d: nat)
    requires Words(ds) && d < TWO64
    ensures Sums(ds + [d]) == Sums(ds) + [Wrap(ZigZagDecode(d) + LastOr0(Sums(ds)))]
  {
    assert (ds + [d])[..|ds|] == ds;
  }

  lemma {:induction false} DeltasSnoc(vs: seq<int>, v: int)
    ensures Deltas(vs + [v]) == Deltas(vs) + [ZigZagEncode(Wrap(v - LastOr0(vs)))]
  {
    assert (vs + [v])[..|vs|] == vs;
  }

  lemma {:induction false} SumsNone()
    ensures Deltas([]) == [] && Sums([]) == []
  {
  }

  /** Summing the differences of 64-bit values gives the values back, wrap-around included. */
  lemma {:induction false} SumsOfDeltas(vs: seq<int>)
    requires AllInt64(vs)
    ensures Sums(Deltas(vs)) == vs
  {
    hide Sums, Deltas, Wrap, ZigZagEncode, ZigZagDecode;
    if vs == [] {
      SumsNone();
    } else {
      var p, v := vs[..|vs| - 1], vs[|vs| - 1];
      assert vs == p + [v];
      SumsOfDeltas(p);
      DeltasSnoc(p, v);
      var step := Wrap(v - LastOr0(p));
      SumsSnoc(Deltas(p), ZigZagEncode(step));
      ZigZagBack(step);
      WrapAdd(v - LastOr0(p), LastOr0(p));
      WrapSame(v);
    }
  }

  /** All differences after the first value are equal. */
  predicate Regular(ds: seq<nat>) {
    forall i :: 2 <= i < |ds| ==> ds[i] == ds[1]
  }

  /** The closed form of a regular series. */
  ghost function Series(first: int, step: int, n: nat): (vs: seq<int>)
    ensures |vs| == n
  {
    seq(n, i requires 0 <= i < n => Wrap(first + Wrap(i * step)))
  }

  /** Repeated addition and the closed form agree modulo 2^64. */
  lemma {:induction false} SumsRegular(ds: seq<nat>, a: int, b: int)
    requires Words(ds) && |ds| >= 1 && ZigZagDecode(ds[0]) == a
    requires forall i :: 1 <= i < |ds| ==> ZigZagDecode(ds[i]) == b
    ensures Sums(ds) == Series(a, b, |ds|)
  {
    hide Sums, Wrap, ZigZagDecode, Series, LastOr0;
    var p, d, k := ds[..|ds| - 1], ds[|ds| - 1], |ds| - 1;
    assert ds == p + [d];
    SumsSnoc(p, d);
    SeriesSnoc(a, b, k);
    if k == 0 {
      SumsNone();
      LastSnoc([], 0);
      FirstTerm(a, b);
    } else {
      SumsRegular(p, a, b);
      SeriesSnoc(a, b, k - 1);
      LastSnoc(Series(a, b, k - 1), Wrap(a + Wrap((k - 1) * b)));
      NextTerm(a, b, k);
    }
  }

  lemma {:induction false} LastSnoc(vs: seq<int>, v: int)
    ensures LastOr0([]) == 0 && LastOr0(vs + [v]) == v
  {
  }

  lemma {:induction false} FirstTerm(a: int, b: int)
    ensures Series(a, b, 0) == [] && Wrap(a + 0) == Wrap(a + Wrap(0 * b))
  {
    hide Wrap;
    SeriesAt(a, b, 0);
    assert 0 * b == 0;
  }

  lemma {:induction false} NextTerm(a: int, b: int, k: nat)
    requires k > 0
    ensures Wrap(b + Wrap(a + Wrap((k - 1) * b))) == Wrap(a + Wrap(k * b))
  {
    hide Wrap;
    SeriesAt(a, b, k - 1);
    SeriesAt(a, b, k);
    WrapAdd(a + (k - 1) * b, b);
    assert a + (k - 1) * b + b == a + k * b;
  }

  lemma {:induction false} SeriesSnoc(a: int, b: int, k: nat)
    ensures Series(a, b, k + 1) == Series(a, b, k) + [Wrap(a + Wrap(k * b))]
  {
    hide Wrap;
  }

  lemma {:induction false} SeriesAt(a: int, b: int, i: nat)
    ensures Wrap(a + Wrap(i * b)) == Wrap(a + i * b)
  {
    WrapAdd(i * b, a);
  }

  // ---------------------------------------------------------------- formats

  ghost function WordBytes(ws: seq<nat>): (s: seq<U8>)
    requires Words(ws)
    ensures |s| == 8 * |ws|
  {
    if ws == [] then [] else U64(ws[0]) + WordBytes(ws[1..])
  }

  /** The bytes of a list of differences, in the format the encoder picks. */
  ghost function EncodeDeltas(p: Packer, ds: seq<nat>): seq<U8>
    requires Words(ds) && |ds| < TWO64 && Lawful(p)
  {
    if |ds| > 2 && Regular(ds) then
      [RLE * 16] + U64(ds[0]) + PutUvarint(ds[1]) + PutUvarint(|ds| - 1)
    else if !Packable(ds) then [UNCOMPRESSED * 16] + WordBytes(ds)
    else if ds == [] then []
    else
      assert Packable(ds[1..]);
      [PACKED * 16] + U64(ds[0]) + WordBytes(p.pack(ds[1..]))
  }

  /** The differences in a run of 8-byte words: raw ones, or a raw first and packed others. */
  ghost function WordDeltas(p: Packer, packed: bool, first: bool, s: seq<U8>): (ds: seq<nat>)
    requires Lawful(p)
    ensures Words(ds)
    decreases |s|
  {
    if |s| < 8 then []
    else
      var w := FromBigEndian(s[..8]);
      U64Bound(s[..8]);
      (if packed && !first then p.unpack(w) else [w]) + WordDeltas(p, packed, false, s[8..])
  }

  datatype Run = Run(first: nat, step: nat, count: nat) | NoRun

  /** The three fields of a run-length slice. */
  function ReadRun(s: seq<U8>): Run {
    if |s| < 8 then NoRun
    else
      match Uvarint(s[8..])
      case Bad => NoRun
      case Varint(step, n) =>
        if 8 + n > |s| then NoRun
        else match Uvarint(s[8 + n..])
             case Bad => NoRun
             case Varint(count, _) => Run(FromBigEndian(s[..8]), step, count)
  }

  /** The number of values in a run, as the decoder computes it in 64-bit signed arithmetic. */
  function RunLength(count: nat): int
    requires count < TWO64
  {
    Wrap(Wrap(count) + 1)
  }

  /** The values decoded from a slice. */
  ghost function DecodeValues(p: Packer, b: seq<U8>): seq<int>
    requires Lawful(p)
  {
    if b == [] then []
    else if b[0] / 16 == RLE then RunValues(ReadRun(b[1..]))
    else if b[0] / 16 == PACKED || b[0] / 16 == UNCOMPRESSED then
      Sums(WordDeltas(p, b[0] / 16 == PACKED, true, b[1..]))
    else []
  }

  ghost predicate RunOk(r: Run) {
    r.Run? ==> r.first < TWO64 && r.step < TWO64 && r.count < TWO64
  }

  ghost function RunValues(r: Run): seq<int> {
    if r.NoRun? || !RunOk(r) || RunLength(r.count) < 0 then []
    else Series(ZigZagDecode(r.first), ZigZagDecode(r.step), RunLength(r.count))
  }

  /** Whether decoding a slice ends in an error. */
  ghost predicate DecodeFails(b: seq<U8>) {
    && |b| > 1
    && (if b[0] / 16 == RLE then ReadRun(b[1..]).NoRun?
        else if b[0] / 16 == PACKED || b[0] / 16 == UNCOMPRESSED then (|b| - 1) % 8 != 0
        else true)
  }

  lemma {:induction false} ReadRunOk(s: seq<U8>)
    ensures RunOk(ReadRun(s))
  {
    hide FromBigEndian;
    if |s| >= 8 { U64Bound(s[..8]); }
  }

  // ---------------------------------------------------------------- round trip

  lemma {:induction false} WordDeltasCons(p: Packer, packed: bool, first: bool, w: nat, s: seq<U8>)
    requires Lawful(p) && w < TWO64
    ensures WordDeltas(p, packed, first, U64(w) + s) ==
              (if packed && !first then p.unpack(w) else [w]) + WordDeltas(p, packed, false, s)
  {
    hide BigEndian, FromBigEndian, Lawful;
    var t := U64(w) + s;
    assert t[..8] == U64(w) && t[8..] == s;
    U64Back(w);
  }

  lemma {:induction false} RawWords(p: Packer, first: bool, ws: seq<nat>)
    requires Lawful(p) && Words(ws)
    ensures WordDeltas(p, false, first, WordBytes(ws)) == ws
    decreases ws
  {
    if ws != [] {
      hide WordDeltas, U64, Lawful;
      WordDeltasCons(p, false, first, ws[0], WordBytes(ws[1..]));
      RawWords(p, false, ws[1..]);
    }
  }

  lemma {:induction false} PackedWords(p: Packer, ws: seq<nat>)
    requires Lawful(p) && Words(ws)
    ensures WordDeltas(p, true, false, WordBytes(ws)) == UnpackAll(p, ws)
  {
    if ws != [] {
      hide WordDeltas, U64, Lawful;
      WordDeltasCons(p, true, false, ws[0], WordBytes(ws[1..]));
      PackedWords(p, ws[1..]);
    }
  }

  lemma {:induction false} RunBack(first: nat, step: nat, count: nat)
    requires first < TWO64 && step < TWO64 && count < TWO64
    ensures ReadRun(U64(first) + PutUvarint(step) + PutUvarint(count)) == Run(first, step, count)
  {
    hide BigEndian, FromBigEndian, PutUvarint, ReadGroups, Uvarint;
    var a, b := PutUvarint(step), PutUvarint(count);
    var s := U64(first) + a + b;
    assert s[..8] == U64(first) && s[8..] == a + b && s[8 + |a|..] == b + [];
    U64Back(first);
    UvarintBack(step, b);
    UvarintBack(count, []);
  }

  /** Round trip: whichever format is chosen, 64-bit values come back from their bytes. */
  lemma {:induction false} RoundTrip(p: Packer, vs: seq<int>)
    requires Lawful(p) && AllInt64(vs) && |vs| < TWO63
    ensures DecodeValues(p, EncodeDeltas(p, Deltas(vs))) == vs
    ensures !DecodeFails(EncodeDeltas(p, Deltas(vs)))
  {
    hide Deltas, Sums, Series, WordDeltas, WordBytes, U64, PutUvarint, ReadRun, Lawful, Words, Wrap;
    var ds := Deltas(vs);
    SumsOfDeltas(vs);
    if |ds| > 2 && Regular(ds) {
      RunRoundTrip(p, ds);
    } else if !Packable(ds) {
      RawWords(p, true, ds);
      var b := EncodeDeltas(p, ds);
      assert b[0] == 0 && b[1..] == WordBytes(ds);
    } else if ds == [] {
      SumsNone();
    } else {
      PackedRoundTrip(p, ds);
    }
  }

  lemma {:induction false} RunRoundTrip(p: Packer, ds: seq<nat>)
    requires Lawful(p) && Words(ds) && 2 < |ds| < TWO63 && Regular(ds)
    ensures DecodeValues(p, EncodeDeltas(p, ds)) == Sums(ds)
    ensures !DecodeFails(EncodeDeltas(p, ds))
  {
    hide Sums, Series, U64, PutUvarint, ReadRun, Lawful, WordDeltas, WordBytes, ZigZagDecode;
    var b := EncodeDeltas(p, ds);
    var body := U64(ds[0]) + PutUvarint(ds[1]) + PutUvarint(|ds| - 1);
    assert b == [32] + body;
    assert b[0] == 32 && b[1..] == body;
    RunBack(ds[0], ds[1], |ds| - 1);
    SumsRegular(ds, ZigZagDecode(ds[0]), ZigZagDecode(ds[1]));
  }

  lemma {:induction false} PackedRoundTrip(p: Packer, ds: seq<nat>)
    requires Lawful(p) && Words(ds) && 0 < |ds| < TWO63 && Packable(ds) && !(|ds| > 2 && Regular(ds))
    ensures DecodeValues(p, EncodeDeltas(p, ds)) == Sums(ds)
    ensures !DecodeFails(EncodeDeltas(p, ds))
  {
    hide Sums, U64, WordBytes, WordDeltas;
    var tail := ds[1..];
    assert Packable(tail);
    var ws := p.pack(tail);
    assert Words(ws) && UnpackAll(p, ws) == tail;
    hide Lawful, UnpackAll;
    WordDeltasCons(p, true, true, ds[0], WordBytes(ws));
    PackedWords(p, ws);
    var b := EncodeDeltas(p, ds);
    assert b == [16] + (U64(ds[0]) + WordBytes(ws));
    assert b[1..] == U64(ds[0]) + WordBytes(ws);
    assert [ds[0]] + tail == ds;
  }

  // ---------------------------------------------------------------- a packer exists

  /** The packer that stores one number per word. */
  function OnePerWord(): Packer {
    Packer(ds => ds, w => [w])
  }

  lemma {:induction false} OnePerWordUnpacks(ws: seq<nat>)
    ensures UnpackAll(OnePerWord(), ws) == ws
  {
    if ws != [] {
      OnePerWordUnpacks(ws[1..]);
    }
  }

  lemma {:induction false} OnePerWordLawful()
    ensures Lawful(OnePerWord())
  {
    hide UnpackAll;
    var p := OnePerWord();
    forall ds | Packable(ds) ensures Words(p.pack(ds)) && UnpackAll(p, p.pack(ds)) == ds {
      OnePerWordUnpacks(ds);
    }
  }
}
