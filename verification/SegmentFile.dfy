/**
 The on-disk form of a hinted-handoff segment: length-prefixed records followed by an
 8-byte footer that holds the offset of the current record.
 */
module SegmentFile {
  import opened ByteCodes

  type Record = seq<U8>

  ghost predicate Small(rs: seq<Record>) {
    forall i :: 0 <= i < |rs| ==> |rs[i]| < TWO63
  }

  /** The records, each behind its length. */
  ghost function Layout(rs: seq<Record>): seq<U8>
    requires Small(rs)
  {
    if rs == [] then [] else Layout(rs[..|rs| - 1]) + U64(|rs[|rs| - 1]|) + rs[|rs| - 1]
  }

  /** The offset of record `h`. */
  ghost function Offset(rs: seq<Record>, h: nat): nat
    requires Small(rs) && h <= |rs|
  {
    |Layout(rs[..h])|
  }

  /** The bytes of a segment file. */
  ghost function FileBytes(rs: seq<Record>, h: nat): seq<U8>
    requires Small(rs) && h <= |rs| && Offset(rs, h) < TWO64
  {
    Layout(rs) + U64(Offset(rs, h))
  }

  lemma {:induction false} LayoutSnoc(rs: seq<Record>, r: Record)
    requires Small(rs) && |r| < TWO63
    ensures Layout(rs + [r]) == Layout(rs) + U64(|r|) + r
  {
    assert (rs + [r])[..|rs|] == rs;
  }

  lemma {:induction false} LayoutAppend(a: seq<Record>, b: seq<Record>)
    requires Small(a) && Small(b)
    ensures Layout(a + b) == Layout(a) + Layout(b)
    decreases |b|
  {
    if b == [] {
      assert a + b == a;
    } else {
      hide Layout, U64;
      var p, r := b[..|b| - 1], b[|b| - 1];
      assert b == p + [r] && a + b == (a + p) + [r];
      LayoutAppend(a, p);
      LayoutSnoc(p, r);
      LayoutSnoc(a + p, r);
    }
  }

  /** The layout around record `h`: what precedes it, its length, its body, what follows. */
  lemma {:induction false} LayoutAt(rs: seq<Record>, h: nat)
    requires Small(rs) && h < |rs|
    ensures Layout(rs) == Layout(rs[..h]) + U64(|rs[h]|) + rs[h] + Layout(rs[h + 1..])
    ensures Offset(rs, h + 1) == Offset(rs, h) + 8 + |rs[h]|
    ensures Offset(rs, h + 1) <= |Layout(rs)|
  {
    hide Layout, U64;
    assert rs == rs[..h + 1] + rs[h + 1..] && rs[..h + 1] == rs[..h] + [rs[h]];
    LayoutAppend(rs[..h + 1], rs[h + 1..]);
    LayoutSnoc(rs[..h], rs[h]);
  }

  lemma {:induction false} OffsetEnd(rs: seq<Record>)
    requires Small(rs)
    ensures Offset(rs, |rs|) == |Layout(rs)| && Offset(rs, 0) == 0
  {
    assert rs[..|rs|] == rs && rs[..0] == [];
  }

  /** An offset is at the end exactly behind the last record. */
  lemma {:induction false} OffsetLess(rs: seq<Record>, h: nat)
    requires Small(rs) && h <= |rs|
    ensures h < |rs| ==> Offset(rs, h) + 8 <= |Layout(rs)|
    ensures h == |rs| ==> Offset(rs, h) == |Layout(rs)|
  {
    hide Layout;
    if h < |rs| {
      LayoutAt(rs, h);
    } else {
      OffsetEnd(rs);
    }
  }

  lemma {:induction false} OffsetsGrow(rs: seq<Record>, h: nat, k: nat)
    requires Small(rs) && h <= k <= |rs|
    ensures if h < k then Offset(rs, h) + 8 + |rs[h]| <= Offset(rs, k) else Offset(rs, h) == Offset(rs, k)
    decreases k - h
  {
    hide Layout, Offset;
    if h < k {
      LayoutAt(rs, h);
      OffsetsGrow(rs, h + 1, k);
    }
  }

  /** A file whose footer is `p` is one of these records exactly if some record, or the end, is at `p`. */
  lemma {:induction false} FileExactly(rs: seq<Record>, p: nat)
    requires Small(rs) && p < TWO64
    ensures (exists h :: 0 <= h <= |rs| && Offset(rs, h) < TWO64 && FileBytes(rs, h) == Layout(rs) + U64(p)) <==>
            exists h :: 0 <= h <= |rs| && Offset(rs, h) == p
  {
    hide Layout, U64, Offset;
    U64Back(p);
    if h :| 0 <= h <= |rs| && Offset(rs, h) < TWO64 && FileBytes(rs, h) == Layout(rs) + U64(p) {
      U64Back(Offset(rs, h));
      assert (Layout(rs) + U64(p))[|Layout(rs)|..] == U64(p);
      assert (Layout(rs) + U64(Offset(rs, h)))[|Layout(rs)|..] == U64(Offset(rs, h));
    }
    if h :| 0 <= h <= |rs| && Offset(rs, h) == p {
      assert FileBytes(rs, h) == Layout(rs) + U64(p);
    }
  }

  /** Appending behind does not move the records in front. */
  lemma {:induction false} OffsetStable(rs: seq<Record>, r: Record, h: nat)
    requires Small(rs) && |r| < TWO63 && h <= |rs|
    ensures Offset(rs + [r], h) == Offset(rs, h)
  {
    assert (rs + [r])[..h] == rs[..h];
  }

  // ---------------------------------------------------------------- reading back

  /** The records in a run of bytes. */
  ghost function Parse(s: seq<U8>): seq<Record>
    decreases |s|
  {
    if |s| < 8 then []
    else
      var n := FromBigEndian(s[..8]);
      if 8 + n > |s| then [] else [s[8..8 + n]] + Parse(s[8 + n..])
  }

  lemma {:induction false} ParseLayout(rs: seq<Record>)
    requires Small(rs)
    ensures Parse(Layout(rs)) == rs
  {
    if rs != [] {
      hide Layout, Parse, U64, Offset;
      LayoutHead(rs);
      ParseOne(rs[0], Layout(rs[1..]));
      ParseLayout(rs[1..]);
      assert rs == [rs[0]] + rs[1..];
    }
  }

  lemma {:induction false} LayoutHead(rs: seq<Record>)
    requires Small(rs) && rs != []
    ensures Layout(rs) == U64(|rs[0]|) + rs[0] + Layout(rs[1..])
  {
    hide Layout, U64;
    LayoutAt(rs, 0);
    LayoutNone();
    assert rs[..0] == [] && [] + U64(|rs[0]|) == U64(|rs[0]|);
  }

  lemma {:induction false} ParseOne(r: Record, rest: seq<U8>)
    requires |r| < TWO63
    ensures Parse(U64(|r|) + r + rest) == [r] + Parse(rest)
  {
    hide U64, FromBigEndian;
    var s := U64(|r|) + r + rest;
    U64Back(|r|);
    assert s[..8] == U64(|r|) && s[8..8 + |r|] == r && s[8 + |r|..] == rest;
  }

  lemma {:induction false} LayoutNone()
    ensures Layout([]) == []
  {
  }

  /** What a file says is unread: the records from the offset in its footer to the footer. */
  ghost function UnreadOf(file: seq<U8>): seq<Record> {
    if |file| < 8 then []
    else
      var pos := FromBigEndian(file[|file| - 8..]);
      if pos > |file| - 8 then [] else Parse(file[pos..|file| - 8])
  }

  /** The bytes alone determine the unread records. */
  lemma {:induction false} UnreadFromBytes(rs: seq<Record>, h: nat)
    requires Small(rs) && h <= |rs| && Offset(rs, h) < TWO64
    ensures UnreadOf(FileBytes(rs, h)) == rs[h..]
  {
    hide Layout, U64, FromBigEndian, Parse;
    var file, pos := FileBytes(rs, h), Offset(rs, h);
    assert file[|file| - 8..] == U64(pos);
    U64Back(pos);
    assert rs == rs[..h] + rs[h..];
    LayoutAppend(rs[..h], rs[h..]);
    assert file[pos..|file| - 8] == Layout(rs[h..]);
    ParseLayout(rs[h..]);
  }

  // ---------------------------------------------------------------- the operations on the bytes

  /** Where a file keeps its footer, the head record's length and the head record. */
  lemma {:induction false} FileAt(rs: seq<Record>, h: nat)
    requires Small(rs) && h <= |rs| && Offset(rs, h) < TWO64
    ensures var file, pos := FileBytes(rs, h), Offset(rs, h);
            && |file| == |Layout(rs)| + 8
            && file[|file| - 8..] == U64(pos) && FromBigEndian(file[|file| - 8..]) == pos
            && (h == |rs| ==> pos == |file| - 8)
            && (h < |rs| ==>
                  && pos + 8 + |rs[h]| <= |file| - 8
                  && FromBigEndian(file[pos..pos + 8]) == |rs[h]|
                  && file[pos + 8..pos + 8 + |rs[h]|] == rs[h])
  {
    hide Layout, U64, FromBigEndian;
    U64Back(Offset(rs, h));
    OffsetLess(rs, h);
    if h < |rs| {
      HeadAt(rs, h);
    }
  }

  lemma {:induction false} FileLong(rs: seq<Record>, h: nat)
    requires Small(rs) && h <= |rs| && Offset(rs, h) < TWO64
    ensures |FileBytes(rs, h)| >= 8
  {
    hide FileBytes, Layout;
    FileAt(rs, h);
  }

  lemma {:induction false} HeadAt(rs: seq<Record>, h: nat)
    requires Small(rs) && h < |rs| && Offset(rs, h) < TWO64
    ensures var file, pos := FileBytes(rs, h), Offset(rs, h);
            && pos + 8 + |rs[h]| <= |file| - 8
            && FromBigEndian(file[pos..pos + 8]) == |rs[h]|
            && file[pos + 8..pos + 8 + |rs[h]|] == rs[h]
  {
    hide Layout, U64, FromBigEndian;
    var file, pos, n := FileBytes(rs, h), Offset(rs, h), |rs[h]|;
    LayoutAt(rs, h);
    var before, tail := Layout(rs[..h]), Layout(rs[h + 1..]) + U64(pos);
    Sections(before, U64(n), rs[h], tail);
    assert file == before + U64(n) + rs[h] + tail;
    U64Back(n);
  }

  lemma {:induction false} Sections(a: seq<U8>, b: seq<U8>, c: seq<U8>, d: seq<U8>)
    ensures var s := a + b + c + d;
            && s[|a|..|a| + |b|] == b && s[|a| + |b|..|a| + |b| + |c|] == c && s[..|a|] == a
  {
  }

  /** The records are what is in front of the footer. */
  lemma {:induction false} Stem(rs: seq<Record>, h: nat)
    requires Small(rs) && h <= |rs| && Offset(rs, h) < TWO64
    ensures var file := FileBytes(rs, h);
            |file| >= 8 && file[..|file| - 8] == Layout(rs) && file == Layout(rs) + U64(Offset(rs, h))
  {
    hide Layout, U64;
  }

  /** Overwriting the footer moves the head. */
  lemma {:induction false} MoveHead(rs: seq<Record>, h: nat, h': nat)
    requires Small(rs) && h <= |rs| && h' <= |rs| && Offset(rs, h) < TWO64 && Offset(rs, h') < TWO64
    ensures var file := FileBytes(rs, h);
            file[..|file| - 8] + U64(Offset(rs, h')) == FileBytes(rs, h')
  {
    hide Layout, U64;
  }

  /** Overwriting the footer with a record and a new footer appends the record. */
  lemma {:induction false} AppendRecord(rs: seq<Record>, h: nat, b: Record)
    requires Small(rs) && h <= |rs| && Offset(rs, h) < TWO64 && |b| < TWO63
    ensures Small(rs + [b]) && Offset(rs + [b], h) == Offset(rs, h)
    ensures var file := FileBytes(rs, h);
            file[..|file| - 8] + U64(|b|) + b + U64(Offset(rs, h)) == FileBytes(rs + [b], h)
  {
    hide Layout, U64;
    LayoutSnoc(rs, b);
    OffsetStable(rs, b, h);
  }
}
