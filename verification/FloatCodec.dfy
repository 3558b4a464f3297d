/**
 The XOR float codec of Gorilla (section 4.1.2 of "Gorilla: A Fast, Scalable, In-Memory
 Time Series Database") as functions on bit streams, and its round trip.
 */
module FloatCodec {
  import opened Sequences
  import opened Bits
  import ByteCodes

  /** The quiet NaN that ends a stream. */
  function Nan(): Word {
    [false] + seq(12, _ => true) + Zeros(50) + [true]
  }

  /** All exponent bits set and a non-zero mantissa. */
  predicate IsNaN(v: Word) {
    (forall i :: 1 <= i < 12 ==> v[i]) && (exists i :: 12 <= i < 64 && v[i])
  }

  /** The pattern of a number or an infinity: some exponent bit is clear, or the mantissa is zero. */
  ghost predicate Number(v: Word) {
    (exists i :: 1 <= i <= 11 && !v[i]) || (forall i :: 12 <= i <= 63 ==> !v[i])
  }

  lemma {:induction false} NumberExactly(v: Word)
    ensures Number(v) <==> !IsNaN(v)
  {
  }

  /** The sentinel is the pattern 0x7FF8000000000001. */
  lemma {:induction false} NanPattern()
    ensures ToNat(Nan()) == 0x7FF8_0000_0000_0001
  {
    var ones := [false] + seq(12, _ => true);
    hide ToNat, Pow2, Zeros;
    FiftyBits();
    ToNatOnes(12);
    ToNatZeros(ones, 50);
    ToNatSnoc(ones + Zeros(50), true);
  }

  lemma {:induction false} FiftyBits()
    ensures Pow2(12) == 0x1000 && Pow2(50) == 0x4_0000_0000_0000
  {
    hide Pow2;
    Pow2Add(25, 25);
    Pow2Add(13, 12);
    ThirteenBits();
  }

  lemma {:induction false} ThirteenBits()
    ensures Pow2(12) == 0x1000 && Pow2(13) == 0x2000
  {
    assert Pow2(4) == 16;
    assert Pow2(8) == 256;
  }

  lemma {:induction false} Pow2Add(a: nat, b: nat)
    ensures Pow2(a + b) == Pow2(a) * Pow2(b)
  {
    if a == 0 {
      assert Pow2(0) == 1;
    } else {
      assert Pow2(a) == 2 * Pow2(a - 1) && Pow2(a + b) == 2 * Pow2(a - 1 + b);
      hide Pow2;
      Pow2Add(a - 1, b);
      Doubled(Pow2(b), Pow2(a - 1));
    }
  }

  lemma {:induction false} ToNatOnes(n: nat)
    ensures ToNat([false] + seq(n, _ => true)) == Pow2(n) - 1
  {
    var s := [false] + seq(n, _ => true);
    if n > 0 {
      assert s == ([false] + seq(n - 1, _ => true)) + [true];
      ToNatOnes(n - 1);
      ToNatSnoc([false] + seq(n - 1, _ => true), true);
    }
  }

  lemma {:induction false} Doubled(a: nat, b: nat)
    ensures 2 * (a * b) == a * (2 * b)
  {
  }

  lemma {:induction false} ToNatZeros(s: seq<bool>, n: nat)
    ensures ToNat(s + Zeros(n)) == ToNat(s) * Pow2(n)
  {
    hide ToNat;
    if n == 0 {
      assert s + Zeros(0) == s && Pow2(0) == 1;
    } else {
      assert Pow2(n) == 2 * Pow2(n - 1);
      hide Pow2;
      ToNatZeros(s, n - 1);
      ToNatSnoc(s + Zeros(n - 1), false);
      assert Zeros(n) == Zeros(n - 1) + [false];
      Regrouped(s, Zeros(n - 1), [false]);
      Doubled(ToNat(s), Pow2(n - 1));
    }
  }

  lemma {:induction false} NanIsNaN()
    ensures IsNaN(Nan())
  {
    assert Nan()[63];
  }

  function LeadingZeros(s: seq<bool>): (n: nat)
    ensures n <= |s| && (forall i :: 0 <= i < n ==> !s[i]) && (n < |s| ==> s[n])
  {
    if s == [] || s[0] then 0 else 1 + LeadingZeros(s[1..])
  }

  function TrailingZeros(s: seq<bool>): (n: nat)
    ensures n <= |s| && (forall i :: |s| - n <= i < |s| ==> !s[i]) && (n < |s| ==> s[|s| - 1 - n])
  {
    if s == [] || s[|s| - 1] then 0 else 1 + TrailingZeros(s[..|s| - 1])
  }

  lemma {:induction false} NonZero(w: Word)
    requires w != Zeros(64)
    ensures LeadingZeros(w) + TrailingZeros(w) < 64
    ensures 0 <= LeadingZeros(w) % 32 < 32 && LeadingZeros(w) % 32 + TrailingZeros(w) < 64
  {
    hide LeadingZeros, TrailingZeros;
    var i :| 0 <= i < 64 && w[i] != Zeros(64)[i];
    assert LeadingZeros(w) <= i <= 63 - TrailingZeros(w);
  }

  /** The leading count before any window has been written. */
  const NONE := 0xFFFF_FFFF_FFFF_FFFF


  // ---------------------------------------------------------------- encoding

  /** The encoder after its first value: the last value and the current window. */
  datatype Enc = Enc(val: Word, leading: nat, trailing: nat) {
    predicate Valid() {
      leading == NONE || (leading < 32 && leading + trailing < 64)
    }
  }

  /** The low `n` bits of a word. */
  function Low(w: Word, n: nat): (s: seq<bool>)
    requires n <= 64
    ensures |s| == n
  {
    w[64 - n..]
  }

  /** Whether the bits of `d` fit the current window. */
  predicate Reuses(s: Enc, d: Word) {
    s.leading != NONE && LeadingZeros(d) % 32 >= s.leading && TrailingZeros(d) >= s.trailing
  }

  /** The bits written for the next value. */
  function Emit(s: Enc, v: Word): seq<bool>
    requires s.Valid()
  {
    var d := Xor(v, s.val);
    if d == Zeros(64) then [false]
    else if Reuses(s, d) then
      [true, false] + Low(Shr(d, s.trailing), 64 - s.leading - s.trailing)
    else
      NonZero(d);
      var l, t := LeadingZeros(d) % 32, TrailingZeros(d);
      [true, true] + FromNat(l, 5) + FromNat(64 - l - t, 6) + Low(Shr(d, t), 64 - l - t)
  }

  /** The encoder after the next value. */
  function After(s: Enc, v: Word): (s': Enc)
    requires s.Valid()
    ensures s'.Valid() && s'.val == v
  {
    var d := Xor(v, s.val);
    if d == Zeros(64) || Reuses(s, d) then Enc(v, s.leading, s.trailing)
    else
      NonZero(d);
      Enc(v, LeadingZeros(d) % 32, TrailingZeros(d))
  }

  ghost function EmitAll(s: Enc, vs: seq<Word>): seq<bool>
    requires s.Valid()
    decreases |vs|
  {
    if vs == [] then [] else Emit(s, vs[0]) + EmitAll(After(s, vs[0]), vs[1..])
  }

  ghost function AfterAll(s: Enc, vs: seq<Word>): (s': Enc)
    requires s.Valid()
    ensures s'.Valid()
    decreases |vs|
  {
    if vs == [] then s else AfterAll(After(s, vs[0]), vs[1..])
  }

  function Start(v: Word): Enc {
    Enc(v, NONE, 0)
  }

  /** The whole bit stream of a value list: the first value raw, the rest as differences. */
  ghost function Encoding(vs: seq<Word>): seq<bool> {
    if vs == [] then [] else vs[0] + EmitAll(Start(vs[0]), vs[1..])
  }

  lemma {:induction false} EmitAllSnoc(s: Enc, vs: seq<Word>, v: Word)
    requires s.Valid()
    ensures EmitAll(s, vs + [v]) == EmitAll(s, vs) + Emit(AfterAll(s, vs), v)
    ensures AfterAll(s, vs + [v]) == After(AfterAll(s, vs), v)
    decreases |vs|
  {
    hide Emit, After;
    if vs == [] {
      assert (vs + [v])[1..] == [];
    } else {
      assert (vs + [v])[1..] == vs[1..] + [v];
      EmitAllSnoc(After(s, vs[0]), vs[1..], v);
    }
  }

  // ---------------------------------------------------------------- decoding

  /** The decoder after its first value. */
  datatype Dec = Dec(val: Word, leading: nat, trailing: nat) {
    /** The number of significant bits, in 64-bit wrap-around arithmetic. */
    function Width(): nat {
      (64 - leading - trailing) % ByteCodes.TWO64
    }

    predicate Valid() {
      1 <= Width() <= 64
    }
  }

  datatype Outcome = Got(dec: Dec, rest: seq<bool>) | Finished | Eof

  /** Reads the significant bits of the current window. */
  function ReadWindow(d: Dec, rest: seq<bool>): (r: Outcome)
    requires d.Valid()
    ensures r.Got? ==> r.dec.Valid() && |r.rest| <= |rest|
  {
    if rest == [] then Eof
    else
      var bits: Word := Zeros(64 - d.Width()) + Padded(rest, d.Width());
      var v := Xor(d.val, Shl(bits, d.trailing));
      if v == Nan() then Finished else Got(Dec(v, d.leading, d.trailing), Drop(rest, d.Width()))
  }

  /** The wrap-around in the trailing count is undone when the significant bits are counted again. */
  lemma {:induction false} WidthBack(l: nat, sig: nat)
    requires l < 32 && 1 <= sig <= 64
    ensures (64 - l - (64 - l - sig) % ByteCodes.TWO64) % ByteCodes.TWO64 == sig
  {
    var x := 64 - l - sig;
    if x >= 0 {
      WrapOf(x, 0);
      WrapOf(sig, 0);
    } else {
      WrapOf(x, 1);
      WrapOf(sig - ByteCodes.TWO64, 1);
    }
  }

  lemma {:induction false} WrapOf(x: int, k: nat)
    requires k <= 1 && 0 <= x + k * ByteCodes.TWO64 < ByteCodes.TWO64
    ensures x % ByteCodes.TWO64 == x + k * ByteCodes.TWO64
  {
  }

  /** The window after a new leading and significant count; 0 significant bits stand for 64. */
  function NewWindow(d: Dec, l: nat, m: nat): (d': Dec)
    requires l < 32 && m < 64
    ensures d'.Valid()
  {
    var sig := if m == 0 then 64 else m;
    WidthBack(l, sig);
    Dec(d.val, l, (64 - l - sig) % ByteCodes.TWO64)
  }

  /** Reads a new window and its significant bits. */
  function ReadNewWindow(d: Dec, rest: seq<bool>): (r: Outcome)
    ensures r.Got? ==> r.dec.Valid() && |r.rest| <= |rest|
  {
    if rest == [] then Eof
    else
      var l, r1 := ToNat(Padded(rest, 5)), Drop(rest, 5);
      if r1 == [] then Eof
      else
        var m, r2 := ToNat(Padded(r1, 6)), Drop(r1, 6);
        FieldBounds(Padded(rest, 5), Padded(r1, 6));
        ReadWindow(NewWindow(d, l, m), r2)
  }

  lemma {:induction false} FieldBounds(five: seq<bool>, six: seq<bool>)
    requires |five| == 5 && |six| == 6
    ensures ToNat(five) < 32 && ToNat(six) < 64
  {
    hide Pow2, ToNat;
    ToNatBound(five);
    ToNatBound(six);
    SmallPowers();
  }

  lemma {:induction false} SmallPowers()
    ensures Pow2(5) == 32 && Pow2(6) == 64
  {
    assert Pow2(2) == 4;
    assert Pow2(4) == 16;
  }

  /** Decodes the next value. */
  function Decode(d: Dec, rest: seq<bool>): (r: Outcome)
    requires d.Valid()
    ensures r.Got? ==> r.dec.Valid() && |r.rest| < |rest|
  {
    if rest == [] then Eof
    else if !rest[0] then Got(d, rest[1..])
    else if rest[1..] == [] then Eof
    else if !rest[1] then ReadWindow(d, rest[2..])
    else ReadNewWindow(d, rest[2..])
  }

  ghost function DecodeAll(d: Dec, rest: seq<bool>): seq<Word>
    requires d.Valid()
    decreases |rest|
  {
    match Decode(d, rest)
    case Got(d', rest') => [d'.val] + DecodeAll(d', rest')
    case _ => []
  }

  /** The run ends at the sentinel rather than at the end of the data. */
  ghost predicate StopsClean(d: Dec, rest: seq<bool>)
    requires d.Valid()
    decreases |rest|
  {
    match Decode(d, rest)
    case Got(d', rest') => StopsClean(d', rest')
    case Finished => true
    case Eof => false
  }

  ghost predicate EndsClean(s: seq<bool>) {
    s != [] && (Padded(s, 64) == Nan() || StopsClean(Dec(Padded(s, 64), 0, 0), Drop(s, 64)))
  }

  /** The values of a whole stream. */
  ghost function Decoding(s: seq<bool>): seq<Word> {
    if s == [] || Padded(s, 64) == Nan() then []
    else [Padded(s, 64)] + DecodeAll(Dec(Padded(s, 64), 0, 0), Drop(s, 64))
  }

  // ---------------------------------------------------------------- round trip

  /** The decoder knows what the encoder last wrote. */
  ghost predicate InStep(e: Enc, d: Dec) {
    && e.Valid() && d.Valid() && e.val == d.val
    && (e.leading != NONE ==> d.leading == e.leading && d.trailing == e.trailing)
  }

  /** Cutting a window out of a word and shifting it back loses nothing but zeros. */
  lemma {:induction false} WindowBack(d: Word, l: nat, t: nat)
    requires l + t < 64
    requires forall i :: 0 <= i < l ==> !d[i]
    requires forall i :: 64 - t <= i < 64 ==> !d[i]
    ensures Low(Shr(d, t), 64 - l - t) == d[l..64 - t]
    ensures Shl(Zeros(l + t) + d[l..64 - t], t) == d
  {
    WindowCut(d, l, t);
    WindowShift(d, l, t);
  }

  lemma {:induction false} WindowCut(d: Word, l: nat, t: nat)
    requires l + t < 64
    ensures Low(Shr(d, t), 64 - l - t) == d[l..64 - t]
  {
    assert Shr(d, t)[l + t..] == d[l..64 - t];
  }

  lemma {:induction false} WindowShift(d: Word, l: nat, t: nat)
    requires l + t < 64
    requires forall i :: 0 <= i < l ==> !d[i]
    requires forall i :: 64 - t <= i < 64 ==> !d[i]
    ensures Shl(Zeros(l + t) + d[l..64 - t], t) == d
  {
    var w: Word := Zeros(l + t) + d[l..64 - t];
    assert w[t..] == Zeros(l) + d[l..64 - t];
    assert Zeros(l) == d[..l] && Zeros(t) == d[64 - t..];
    assert d[..l] + d[l..64 - t] == d[..64 - t];
    assert d[..64 - t] + d[64 - t..] == d;
  }

  lemma {:induction false} PaddedPrefix(a: seq<bool>, rest: seq<bool>)
    ensures Padded(a + rest, |a|) == a && Drop(a + rest, |a|) == rest
  {
  }

  /** Reading back the significant bits of `v` against the last value gives `v`. */
  lemma {:induction false} ReadWindowBack(d: Dec, v: Word, rest: seq<bool>)
    requires d.leading + d.trailing < 64
    requires var x := Xor(v, d.val);
             && (forall i :: 0 <= i < d.leading ==> !x[i])
             && (forall i :: 64 - d.trailing <= i < 64 ==> !x[i])
    ensures d.Valid()
    ensures var sig := Low(Shr(Xor(v, d.val), d.trailing), 64 - d.leading - d.trailing);
            ReadWindow(d, sig + rest) == if v == Nan() then Finished else Got(Dec(v, d.leading, d.trailing), rest)
  {
    var x := Xor(v, d.val);
    hide Xor, Shl, Shr, Nan;
    WindowBack(x, d.leading, d.trailing);
    PaddedPrefix(x[d.leading..64 - d.trailing], rest);
    XorBack(d.val, v);
  }

  /** Reading back a new window. */
  lemma {:induction false} ReadNewWindowBack(d: Dec, l: nat, t: nat, body: seq<bool>)
    requires l < 32 && l + t < 64 && body != []
    ensures Dec(d.val, l, t).Valid()
    ensures ReadNewWindow(d, FromNat(l, 5) + FromNat(64 - l - t, 6) + body) == ReadWindow(Dec(d.val, l, t), body)
  {
    hide ReadWindow, ToNat, FromNat, Padded, Drop;
    var five, six := FromNat(l, 5), FromNat(64 - l - t, 6);
    assert five + six + body == five + (six + body);
    PaddedPrefix(five, six + body);
    PaddedPrefix(six, body);
    FieldsBack(l, 64 - l - t);
  }

  lemma {:induction false} FieldsBack(l: nat, sig: nat)
    requires l < 32 && 1 <= sig <= 64
    ensures ToNat(FromNat(l, 5)) == l
    ensures ToNat(FromNat(sig, 6)) == if sig == 64 then 0 else sig
  {
    hide Pow2, ToNat, FromNat;
    ToFromNat(l, 5);
    ToFromNat(sig, 6);
    SmallPowers();
  }

  /** The decoder state that follows the encoder to the next value. */
  ghost function Follow(e: Enc, d: Dec, v: Word): Dec
    requires e.Valid()
  {
    if Xor(v, e.val) == Zeros(64) || Reuses(e, Xor(v, e.val)) then Dec(v, d.leading, d.trailing)
    else Dec(v, After(e, v).leading, After(e, v).trailing)
  }

  /** Decoding what was emitted for a value returns it, or stops if it was the sentinel. */
  lemma {:induction false} DecodeEmit(e: Enc, d: Dec, v: Word, rest: seq<bool>)
    requires InStep(e, d) && e.val != Nan()
    ensures InStep(After(e, v), Follow(e, d, v))
    ensures Decode(d, Emit(e, v) + rest) == if v == Nan() then Finished else Got(Follow(e, d, v), rest)
  {
    hide Nan, Xor, Shr, ReadWindow, ReadNewWindow, FromNat, ToNat, LeadingZeros, TrailingZeros;
    var x := Xor(v, e.val);
    XorZero(e.val, v);
    if x == Zeros(64) {
      assert Emit(e, v) + rest == [false] + rest;
    } else if Reuses(e, x) {
      DecodeReused(e, d, v, rest);
    } else {
      DecodeFresh(e, d, v, rest);
    }
  }

  lemma {:induction false} DecodeReused(e: Enc, d: Dec, v: Word, rest: seq<bool>)
    requires InStep(e, d) && Xor(v, e.val) != Zeros(64) && Reuses(e, Xor(v, e.val))
    ensures InStep(After(e, v), Follow(e, d, v))
    ensures Decode(d, Emit(e, v) + rest) == if v == Nan() then Finished else Got(Follow(e, d, v), rest)
  {
    hide Nan, Xor, Shr, ReadWindow, ReadNewWindow, LeadingZeros, TrailingZeros;
    var x := Xor(v, e.val);
    var sig := Low(Shr(x, e.trailing), 64 - e.leading - e.trailing);
    assert Emit(e, v) + rest == [true, false] + (sig + rest);
    assert ([true, false] + (sig + rest))[2..] == sig + rest;
    ReadWindowBack(d, v, rest);
  }

  lemma {:induction false} DecodeFresh(e: Enc, d: Dec, v: Word, rest: seq<bool>)
    requires InStep(e, d) && Xor(v, e.val) != Zeros(64) && !Reuses(e, Xor(v, e.val))
    ensures InStep(After(e, v), Follow(e, d, v))
    ensures Decode(d, Emit(e, v) + rest) == if v == Nan() then Finished else Got(Follow(e, d, v), rest)
  {
    hide Nan, Xor, Shr, ReadWindow, ReadNewWindow, FromNat, LeadingZeros, TrailingZeros;
    var x := Xor(v, e.val);
    NonZero(x);
    var l, t := LeadingZeros(x) % 32, TrailingZeros(x);
    var sig := Low(Shr(x, t), 64 - l - t);
    var head := FromNat(l, 5) + FromNat(64 - l - t, 6);
    assert Emit(e, v) + rest == [true, true] + (head + (sig + rest));
    assert ([true, true] + (head + (sig + rest)))[2..] == head + (sig + rest);
    ReadNewWindowBack(d, l, t, sig + rest);
    ReadWindowBack(Dec(d.val, l, t), v, rest);
  }

  /** Decoding a run of emitted values followed by the sentinel returns exactly the run. */
  lemma {:induction false} DecodeEmitAll(e: Enc, d: Dec, vs: seq<Word>, rest: seq<bool>)
    requires InStep(e, d) && e.val != Nan() && Nan() !in vs
    ensures DecodeAll(d, EmitAll(e, vs + [Nan()]) + rest) == vs
    ensures StopsClean(d, EmitAll(e, vs + [Nan()]) + rest)
    decreases |vs|
  {
    hide Nan, Emit, After, Decode, Follow;
    var all := vs + [Nan()];
    var tail := EmitAll(After(e, all[0]), all[1..]) + rest;
    assert EmitAll(e, all) + rest == Emit(e, all[0]) + tail;
    DecodeEmit(e, d, all[0], tail);
    if vs != [] {
      assert all[1..] == vs[1..] + [Nan()];
      AfterVal(e, vs[0]);
      DecodeEmitAll(After(e, vs[0]), Follow(e, d, vs[0]), vs[1..], rest);
      FollowVal(e, d, vs[0]);
    }
  }

  lemma {:induction false} AfterVal(e: Enc, v: Word)
    requires e.Valid()
    ensures After(e, v).Valid() && After(e, v).val == v
  {
  }

  lemma {:induction false} FollowVal(e: Enc, d: Dec, v: Word)
    requires e.Valid()
    ensures Follow(e, d, v).val == v
  {
  }

  /** Round trip: every list without the sentinel comes back from its flushed bytes. */
  lemma {:induction false} RoundTrip(vs: seq<Word>)
    requires Nan() !in vs
    ensures Decoding(Stream(Pack(Encoding(vs + [Nan()])))) == vs
    ensures EndsClean(Stream(Pack(Encoding(vs + [Nan()]))))
  {
    hide Nan, EmitAll, Encoding, Decoding, EndsClean, DecodeAll, StopsClean, Stream, Pack, InStep, Zeros;
    var all := vs + [Nan()];
    var first, tail := all[0], EmitAll(Start(all[0]), all[1..]);
    var bits := Stream(Pack(Encoding(all)));
    PackStream(Encoding(all));
    var pad := Zeros(|bits| - |Encoding(all)|);
    EncodingParts(all);
    Regrouped(first, tail, pad);
    if vs == [] {
      DecodeNone(first, tail + pad);
    } else {
      assert all[1..] == vs[1..] + [Nan()] && all[0] == vs[0];
      InStepStart(first);
      DecodeEmitAll(Start(first), Dec(first, 0, 0), vs[1..], pad);
      DecodeSome(first, tail + pad);
    }
  }

  lemma {:induction false} EncodingParts(all: seq<Word>)
    requires all != []
    ensures Encoding(all) == all[0] + EmitAll(Start(all[0]), all[1..])
  {
  }

  lemma {:induction false} InStepStart(v: Word)
    ensures InStep(Start(v), Dec(v, 0, 0)) && Start(v).val == v
  {
  }

  lemma {:induction false} DecodeNone(v: Word, rest: seq<bool>)
    requires v == Nan()
    ensures Decoding(v + rest) == [] && EndsClean(v + rest)
  {
    hide Nan;
    PaddedPrefix(v, rest);
  }

  lemma {:induction false} DecodeSome(v: Word, rest: seq<bool>)
    requires v != Nan()
    ensures Decoding(v + rest) == [v] + DecodeAll(Dec(v, 0, 0), rest)
    ensures EndsClean(v + rest) <==> StopsClean(Dec(v, 0, 0), rest)
  {
    hide Nan, DecodeAll, StopsClean;
    PaddedPrefix(v, rest);
  }
}
