/** The float encoder and decoder objects, proved against the codec's functions. */
module Floats {
  import opened Sequences
  import opened Bits
  import opened BitReaders
  import ByteCodes
  import opened FloatCodec

  /** The first byte of an encoded slice: the compression type in its high bits. */
  function Header(): Byte {
    [false, false, false, true, false, false, false, false]
  }

  lemma {:induction false} HeaderByte()
    ensures ToNat(Header()) == 1 * 16
  {
    var h := Header();
    assert h == [false, false, false] + [true] + [false] + [false] + [false] + [false];
    assert ToNat([false, false, false]) == 0 by { NoneSet(); }
    hide ToNat;
    ToNatSnoc([false, false, false], true);
    ToNatSnoc([false, false, false] + [true], false);
    ToNatSnoc([false, false, false] + [true] + [false], false);
    ToNatSnoc([false, false, false] + [true] + [false] + [false], false);
    ToNatSnoc([false, false, false] + [true] + [false] + [false] + [false], false);
  }

  lemma {:induction false} NoneSet()
    ensures ToNat([false, false, false]) == 0
  {
    hide ToNat;
    ToNatSnoc([], false);
    ToNatSnoc([false], false);
    ToNatSnoc([false, false], false);
    assert [] + [false] == [false] && [false] + [false] == [false, false];
    assert [false, false] + [false] == [false, false, false];
    NoBits();
  }

  lemma {:induction false} NoBits()
    ensures ToNat([]) == 0
  {
  }

  /** What a value adds to the bits of those before it. */
  ghost function NextBits(vs: seq<Word>, v: Word): seq<bool> {
    if vs == [] then v else Emit(AfterAll(Start(vs[0]), vs[1..]), v)
  }

  /** The encoder's last value and window are those after the values. */
  ghost predicate Codes(vs: seq<Word>, first: bool, e: Enc) {
    && first == (vs == [])
    && if first then e.leading == NONE && e.trailing == 0 else e == AfterAll(Start(vs[0]), vs[1..])
  }

  ghost predicate Encodes(bits: seq<bool>, vs: seq<Word>, finished: bool, flushed: seq<Word>) {
    if finished then Filled(Encoding(flushed)) <= bits else bits == Encoding(vs)
  }

  lemma {:induction false} CodesNext(vs: seq<Word>, first: bool, e: Enc, v: Word)
    requires Codes(vs, first, e)
    ensures first ==> NextBits(vs, v) == v && Codes(vs + [v], false, Enc(v, e.leading, e.trailing))
    ensures !first ==> e.Valid() && NextBits(vs, v) == Emit(e, v) && Codes(vs + [v], false, After(e, v))
  {
    hide AfterAll, Emit, After, Encoding;
    FirstWritten(v);
    if first {
      assert vs + [v] == [v];
    } else {
      NextWritten(vs, v);
    }
  }

  lemma {:induction false} EncodesNext(bits: seq<bool>, vs: seq<Word>, finished: bool, flushed: seq<Word>, v: Word)
    ensures Encodes(bits, vs, finished, flushed) ==> Encodes(bits + NextBits(vs, v), vs + [v], finished, flushed)
  {
    hide Encoding, NextBits, Filled;
    EncodingNext(vs, v);
  }

  class FloatEncoder {
    var val: Word
    var err: bool
    var leading: nat
    var trailing: nat
    /** The bits written to the bit stream behind the header byte. */
    var bits: seq<bool>
    var first: bool
    var finished: bool

    /** The values accepted so far, and those up to the sentinel once finished. */
    ghost var written: seq<Word>
    ghost var flushed: seq<Word>

    /** The last value and its window. */
    ghost predicate Coded()
      reads this
    {
      Codes(written, first, Enc(val, leading, trailing))
    }

    /** The bits encode the values; once finished, those up to the sentinel in whole bytes, with anything behind. */
    ghost predicate Valid()
      reads this
    {
      Coded() && Encodes(bits, written, finished, flushed)
    }

    constructor ()
      ensures Valid() && !finished && !err && written == []
    {
      val := Zeros(64);
      err := false;
      leading := NONE;
      trailing := 0;
      bits := [];
      first := true;
      finished := false;
      written, flushed := [], [];
    }

    /** Encodes v; a NaN is refused unless it is the sentinel. */
    method Write(v: Word)
      requires Coded()
      modifies this
      ensures Coded() && finished == old(finished) && flushed == old(flushed) && (old(Valid()) ==> Valid())
      ensures err == (old(err) || (IsNaN(v) && !finished))
      ensures if IsNaN(v) && !finished then written == old(written) && bits == old(bits)
              else written == old(written) + [v] && bits == old(bits) + NextBits(old(written), v)
      ensures Number(v) ==> err == old(err) && written == old(written) + [v]
      ensures !Number(v) && !finished ==> err && written == old(written) && bits == old(bits)
    {
      NumberExactly(v);
      hide Codes, Encodes, IsNaN, Number;
      if IsNaN(v) && !finished {
        err := true;
        return;
      }
      hide Emit, After, NextBits;
      CodesNext(written, first, Enc(val, leading, trailing), v);
      EncodesNext(bits, written, finished, flushed, v);
      written := written + [v];
      if first {
        val := v;
        first := false;
        bits := bits + v;
        return;
      }
      WriteDelta(v);
    }

    /** Writes the difference to the last value. */
    method WriteDelta(v: Word)
      requires Enc(val, leading, trailing).Valid()
      modifies this`val, this`leading, this`trailing, this`bits
      ensures bits == old(bits) + old(Emit(Enc(val, leading, trailing), v))
      ensures Enc(val, leading, trailing) == old(After(Enc(val, leading, trailing), v))
    {
      hide LeadingZeros, TrailingZeros, Xor, Shr, FromNat, Low, Zeros;
      ghost var before := bits;
      var vDelta := Xor(v, val);
      if vDelta == Zeros(64) {
        bits := bits + [false];
      } else {
        NonZero(vDelta);
        bits := bits + [true];
        var l := LeadingZeros(vDelta);
        var t := TrailingZeros(vDelta);
        l := l % 32;
        if leading != NONE && l >= leading && t >= trailing {
          bits := bits + [false];
          bits := bits + Low(Shr(vDelta, trailing), 64 - leading - trailing);
          Glue(before, Low(Shr(vDelta, trailing), 64 - leading - trailing), [], []);
        } else {
          leading, trailing := l, t;
          bits := bits + [true];
          bits := bits + FromNat(l, 5);
          var sigbits := 64 - l - t;
          bits := bits + FromNat(sigbits, 6);
          bits := bits + Low(Shr(vDelta, t), sigbits);
          Glue(before, FromNat(l, 5), FromNat(sigbits, 6), Low(Shr(vDelta, t), sigbits));
        }
      }
      val := v;
    }

    /** Ends the stream with the sentinel and fills its last byte; later calls do nothing. */
    method Flush()
      requires Valid()
      modifies this
      ensures Valid() && finished && err == old(err)
      ensures old(finished) ==> written == old(written) && flushed == old(flushed) && bits == old(bits)
      ensures !old(finished) ==>
                flushed == written == old(written) + [Nan()] && bits == Filled(Encoding(flushed))
    {
      hide Encoding, Codes, Nan, IsNaN, NextBits, Filled;
      if !finished {
        finished := true;
        NanIsNaN();
        EncodingNext(written, Nan());
        Write(Nan());
        bits := Filled(bits);
        flushed := written;
      }
    }

    /** The header byte and the whole bytes written so far. */
    method Bytes() returns (b: seq<Byte>, e: bool)
      requires Valid()
      ensures e == err && b == [Header()] + Whole(bits)
      ensures !finished ==> b == [Header()] + Whole(Encoding(written))
      ensures finished ==> [Header()] + Pack(Encoding(flushed)) <= b
      ensures finished && bits == Filled(Encoding(flushed)) ==> b == [Header()] + Pack(Encoding(flushed))
    {
      hide Encoding, Codes, Filled, Pack, Whole;
      if finished {
        PackFilled(Encoding(flushed));
        WholePrefix(Filled(Encoding(flushed)), bits);
      }
      return [Header()] + Whole(bits), err;
    }
  }

  /** Writing piece by piece. */
  lemma {:induction false} Glue(bits: seq<bool>, a: seq<bool>, b: seq<bool>, c: seq<bool>)
    ensures bits + [true] + [false] + a == bits + ([true, false] + a)
    ensures bits + [true] + [true] + a + b + c == bits + ([true, true] + a + b + c)
  {
  }

  lemma {:induction false} EncodingNext(vs: seq<Word>, v: Word)
    ensures Encoding(vs + [v]) == Encoding(vs) + NextBits(vs, v)
  {
    hide Encoding, AfterAll, Emit;
    FirstWritten(v);
    if vs == [] {
      assert vs + [v] == [v];
      NoEncoding();
    } else {
      NextWritten(vs, v);
    }
  }

  lemma {:induction false} NoEncoding()
    ensures Encoding([]) == []
  {
  }

  lemma {:induction false} FirstWritten(v: Word)
    ensures Encoding([v]) == v
    ensures AfterAll(Start([v][0]), [v][1..]) == Start(v)
  {
    assert [v][1..] == [];
  }

  lemma {:induction false} NextWritten(vs: seq<Word>, v: Word)
    requires vs != []
    ensures var s := AfterAll(Start(vs[0]), vs[1..]);
            && Encoding(vs + [v]) == Encoding(vs) + Emit(s, v)
            && AfterAll(Start((vs + [v])[0]), (vs + [v])[1..]) == After(s, v)
  {
    hide Emit, After, EmitAll, AfterAll;
    assert (vs + [v])[1..] == vs[1..] + [v];
    EmitAllSnoc(Start(vs[0]), vs[1..], v);
    assert (vs + [v])[0] == vs[0];
    Regrouped(vs[0], EmitAll(Start(vs[0]), vs[1..]), Emit(AfterAll(Start(vs[0]), vs[1..]), v));
  }

  /** The new window, read piece by piece. */
  lemma {:induction false} NewWindowParts(d: Dec, s: seq<bool>)
    ensures s == [] || Drop(s, 5) == [] ==> ReadNewWindow(d, s) == Eof
    ensures var s1 := Drop(s, 5);
            s != [] && s1 != [] ==>
              && ToNat(Padded(s, 5)) < 32 && ToNat(Padded(s1, 6)) < 64
              && ReadNewWindow(d, s) == ReadWindow(NewWindow(d, ToNat(Padded(s, 5)), ToNat(Padded(s1, 6))), Drop(s1, 6))
  {
    hide ReadWindow, ToNat, Padded, Drop;
    FieldBounds(Padded(s, 5), Padded(Drop(s, 5), 6));
  }

  class FloatDecoder {
    var val: Word
    var leading: nat
    var trailing: nat
    const br: BitReader
    var first: bool
    var finished: bool
    var err: bool

    ghost predicate Valid()
      reads this, br
    {
      br.Valid() && (err || State().Valid())
    }

    ghost function State(): Dec
      reads this
    {
      Dec(val, leading, trailing)
    }

    constructor ()
      ensures Valid() && fresh(br)
    {
      val := Nan();
      leading, trailing := 0, 0;
      first, finished, err := true, false, false;
      br := new BitReader([]);
    }

    /** Starts decoding b; an encoded slice without a first value is an error. */
    method SetBytes(b: seq<Byte>) returns (e: bool)
      requires Valid()
      modifies this, br
      ensures Valid()
      ensures e <==> |b| == 1
      ensures !e ==> first && !finished && !err && leading == 0 && trailing == 0
      ensures b == [] ==> val == Nan()
      ensures |b| > 1 ==> val == Padded(Stream(b[1..]), 64) && br.Rest() == Drop(Stream(b[1..]), 64)
    {
      hide Stream, Nan, BitReader.Valid, BitReader.Rest;
      var v := Nan();
      if |b| > 0 {
        br.Reset(b[1..]);
        v, e := br.ReadBits(64);
        if e {
          return;
        }
        assert Zeros(0) + Padded(Stream(b[1..]), 64) == Padded(Stream(b[1..]), 64);
      }
      val := v;
      leading, trailing := 0, 0;
      first, finished, err := true, false, false;
      e := false;
    }

    /** The next bit, by the fast path where allowed. */
    method NextBit() returns (bit: bool, e: bool)
      requires br.Valid()
      modifies br
      ensures br.Valid()
      ensures e <==> old(br.Rest()) == []
      ensures !e ==> old(br.Rest()) == [bit] + br.Rest()
    {
      if br.CanReadBitFast() {
        bit := br.ReadBitFast();
        e := false;
      } else {
        bit, e := br.ReadBit();
      }
    }

    /** The next `k` bits as a number. */
    method NextNumber(k: nat) returns (x: nat, e: bool)
      requires br.Valid() && 1 <= k <= 64
      modifies br
      ensures br.Valid()
      ensures e <==> old(br.Rest()) == []
      ensures !e ==> x == ToNat(Padded(old(br.Rest()), k)) && br.Rest() == Drop(old(br.Rest()), k)
    {
      var w;
      w, e := br.ReadBits(k);
      x := ToNat(w[64 - k..]);
    }

    /** Reads the significant bits and updates the value. */
    method NextWindow() returns (ok: bool)
      requires Valid() && !finished && !err
      modifies this, br
      ensures Valid() && first == old(first)
      ensures match old(ReadWindow(State(), br.Rest()))
              case Got(d, rest) => ok && !finished && !err && State() == d && br.Rest() == rest
              case Finished => !ok && finished && !err
              case Eof => !ok && err && !finished
    {
      hide Xor, Shl, Nan, BitReader.Valid, BitReader.Rest;
      var mbits := (64 - leading - trailing) % ByteCodes.TWO64;
      var bits;
      bits, err := br.ReadBits(mbits);
      if err {
        return false;
      }
      var vbits := Xor(val, Shl(bits, trailing));
      if vbits == Nan() {
        finished := true;
        return false;
      }
      val := vbits;
      return true;
    }

    /** Reads a new window, then its significant bits. */
    method NextNewWindow() returns (ok: bool)
      requires Valid() && !finished && !err
      modifies this, br
      ensures Valid() && first == old(first)
      ensures match old(ReadNewWindow(State(), br.Rest()))
              case Got(d, rest) => ok && !finished && !err && State() == d && br.Rest() == rest
              case Finished => !ok && finished && !err
              case Eof => !ok && err && !finished
    {
      hide ReadWindow, ReadNewWindow, ToNat, Padded, Drop, BitReader.Valid, BitReader.Rest;
      ghost var s := br.Rest();
      NewWindowParts(State(), s);
      leading, err := NextNumber(5);
      if err {
        return false;
      }
      var mbits;
      mbits, err := NextNumber(6);
      if err {
        return false;
      }
      if mbits == 0 {
        mbits := 64;
      }
      trailing := (64 - leading - mbits) % ByteCodes.TWO64;
      ok := NextWindow();
    }

    /** Advances to the next value; false at the sentinel or at an error. */
    method Next() returns (ok: bool)
      requires Valid()
      modifies this, br
      ensures Valid()
      ensures old(err || finished) ==> !ok && State() == old(State()) && err == old(err) && finished == old(finished)
      ensures !old(err || finished) && old(first) ==>
                && !first && !err && State() == old(State()) && br.Rest() == old(br.Rest())
                && ok == (val != Nan()) && finished == (val == Nan())
      ensures !old(err || finished || first) ==>
                && !first
                && match old(Decode(State(), br.Rest()))
                   case Got(d, rest) => ok && !finished && !err && State() == d && br.Rest() == rest
                   case Finished => !ok && finished && !err
                   case Eof => !ok && err && !finished
    {
      hide Nan, ReadWindow, ReadNewWindow, BitReader.Valid, BitReader.Rest;
      if err || finished {
        return false;
      }
      if first {
        first := false;
        if val == Nan() {
          finished := true;
          return false;
        }
        return true;
      }
      ghost var s := br.Rest();
      var bit;
      bit, err := NextBit();
      if err {
        return false;
      }
      assert s[0] == bit && s[1..] == br.Rest();
      if !bit {
        return true;
      }
      bit, err := NextBit();
      if err {
        return false;
      }
      assert s[1] == bit && s[2..] == s[1..][1..] == br.Rest();
      if !bit {
        ok := NextWindow();
      } else {
        ok := NextNewWindow();
      }
    }
  }

  // ---------------------------------------------------------------- whole runs

  /** The values an encoder accepts. */
  ghost function Accepted(vs: seq<Word>): seq<Word> {
    if vs == [] then []
    else Accepted(vs[..|vs| - 1]) + if IsNaN(vs[|vs| - 1]) then [] else [vs[|vs| - 1]]
  }

  lemma {:induction false} AcceptedSnoc(vs: seq<Word>, v: Word)
    ensures Accepted(vs + [v]) == Accepted(vs) + if IsNaN(v) then [] else [v]
  {
    assert (vs + [v])[..|vs|] == vs;
  }

  ghost predicate AllNumbers(vs: seq<Word>) {
    forall k :: 0 <= k < |vs| ==> Number(vs[k])
  }

  lemma {:induction false} AllNumbersSnoc(vs: seq<Word>, v: Word)
    ensures AllNumbers([]) && (AllNumbers(vs + [v]) <==> AllNumbers(vs) && Number(v))
  {
    hide Number;
    var more := vs + [v];
    assert more[|vs|] == v && forall k :: 0 <= k < |vs| ==> more[k] == vs[k];
  }

  /** The accepted values are the numbers and infinities. */
  lemma {:induction false} AcceptedNumbers(vs: seq<Word>)
    ensures AllNumbers(Accepted(vs)) && (AllNumbers(vs) ==> Accepted(vs) == vs)
  {
    hide IsNaN, Number, AllNumbers, Accepted;
    AcceptedNone();
    AllNumbersSnoc([], Zeros(64));
    if vs != [] {
      var p, x := vs[..|vs| - 1], vs[|vs| - 1];
      assert vs == p + [x];
      AcceptedNumbers(p);
      NumberExactly(x);
      AcceptedSnoc(p, x);
      AllNumbersSnoc(p, x);
      AllNumbersSnoc(Accepted(p), x);
      assert Accepted(p) + [] == Accepted(p);
    }
  }

  lemma {:induction false} AcceptedNoNan(vs: seq<Word>)
    ensures Nan() !in Accepted(vs)
  {
    hide Nan, IsNaN;
    NanIsNaN();
    if vs != [] {
      AcceptedNoNan(vs[..|vs| - 1]);
    }
  }

  /** Writes every value and flushes. */
  method EncodeAll(vs: seq<Word>) returns (b: seq<Byte>, refused: bool)
    ensures b == [Header()] + Pack(Encoding(Accepted(vs) + [Nan()]))
    ensures refused <==> exists i :: 0 <= i < |vs| && IsNaN(vs[i])
  {
    hide FloatEncoder.Coded, Encoding, Accepted, Nan, IsNaN, NextBits, Filled, Pack, Whole;
    var e := new FloatEncoder();
    AcceptedNone();
    for i := 0 to |vs|
      invariant e.Valid() && !e.finished && fresh(e)
      invariant e.written == Accepted(vs[..i])
      invariant e.err <==> exists k :: 0 <= k < i && IsNaN(vs[k])
    {
      AcceptedSnoc(vs[..i], vs[i]);
      assert vs[..i] + [vs[i]] == vs[..i + 1];
      e.Write(vs[i]);
    }
    assert vs[..|vs|] == vs;
    e.Flush();
    b, refused := e.Bytes();
  }

  lemma {:induction false} AcceptedNone()
    ensures Accepted([]) == []
  {
  }

  lemma {:induction false} DecodeStep(d: Dec, rest: seq<bool>)
    requires d.Valid()
    ensures match Decode(d, rest)
            case Got(d', rest') => DecodeAll(d, rest) == [d'.val] + DecodeAll(d', rest')
                && StopsClean(d, rest) == StopsClean(d', rest')
            case Finished => DecodeAll(d, rest) == [] && StopsClean(d, rest)
            case Eof => DecodeAll(d, rest) == [] && !StopsClean(d, rest)
  {
  }

  /** Runs a decoder positioned on its first value. */
  method DecodeLoop(d: FloatDecoder) returns (out: seq<Word>)
    requires d.Valid() && d.first && !d.err && !d.finished && d.State().Valid()
    modifies d, d.br
    ensures out == if old(d.val) == Nan() then [] else [old(d.val)] + DecodeAll(old(d.State()), old(d.br.Rest()))
    ensures d.err <==> old(d.val) != Nan() && !StopsClean(old(d.State()), old(d.br.Rest()))
  {
    hide Decode, DecodeAll, StopsClean, Nan, BitReader.Rest, BitReader.Valid;
    ghost var s0, rest0 := d.State(), d.br.Rest();
    out := [];
    var ok := d.Next();
    while ok
      invariant d.Valid() && d.br.Valid()
      invariant ok ==> d.State().Valid() && !d.err && !d.finished && !d.first
      invariant ok ==> [s0.val] + DecodeAll(s0, rest0) == out + [d.val] + DecodeAll(d.State(), d.br.Rest())
      invariant ok ==> StopsClean(s0, rest0) == StopsClean(d.State(), d.br.Rest())
      invariant !ok && s0.val != Nan() ==> out == [s0.val] + DecodeAll(s0, rest0) && d.err == !StopsClean(s0, rest0)
      invariant !ok && s0.val == Nan() ==> out == [] && !d.err
      invariant ok ==> s0.val != Nan()
      decreases ok, |d.br.Rest()|
    {
      out := out + [d.val];
      DecodeStep(d.State(), d.br.Rest());
      ok := d.Next();
    }
  }

  /** Reads a slice to its end. */
  method DecodeBytes(b: seq<Byte>) returns (out: seq<Word>, failed: bool)
    ensures |b| > 1 ==> out == Decoding(Stream(b[1..])) && failed == !EndsClean(Stream(b[1..]))
    ensures |b| <= 1 ==> out == [] && failed == (|b| == 1)
  {
    hide DecodeAll, StopsClean, Nan, Stream, BitReader.Rest, BitReader.Valid;
    var d := new FloatDecoder();
    out := [];
    failed := d.SetBytes(b);
    if failed {
      return;
    }
    out := DecodeLoop(d);
    failed := d.err;
  }

  /** Every list of values comes back from its encoding without its NaNs, and the stream ends at the sentinel. */
  method EncodeThenDecode(vs: seq<Word>) returns (out: seq<Word>, failed: bool)
    ensures out == Accepted(vs) && !failed
    ensures AllNumbers(out) && (AllNumbers(vs) ==> out == vs)
  {
    hide Encoding, Decoding, Accepted, Nan, Pack, EndsClean, AllNumbers;
    AcceptedNumbers(vs);
    var b, _ := EncodeAll(vs);
    AcceptedNoNan(vs);
    RoundTrip(Accepted(vs));
    out, failed := DecodeBytes(b);
    assert b[1..] == Pack(Encoding(Accepted(vs) + [Nan()]));
    NonEmpty(Accepted(vs));
  }

  lemma {:induction false} NonEmpty(vs: seq<Word>)
    ensures Pack(Encoding(vs + [Nan()])) != []
  {
    hide Nan;
  }
}
