/** A hinted-handoff segment: one file of records with a head pointer, kept in step with its bytes. */
module Segments {
  import opened ByteCodes
  import opened SegmentFile

  datatype Status = Ok | NotOpen | SegmentFull | QueueFull | EndOfFile | Malformed

  ghost predicate Fits(rs: seq<Record>, maxSize: nat) {
    forall i :: 0 <= i < |rs| ==> |rs[i]| <= maxSize
  }

  /** The length of the head record, or behind an empty one that of a later record; 0 behind the last one. */
  ghost predicate Plausible(rs: seq<Record>, h: nat, n: nat) {
    if h >= |rs| then n == 0 else exists k :: h <= k < |rs| && n == |rs[k]| && (k == h || (rs[h] == [] && n > 0))
  }

  lemma {:induction false} PlausibleSelf(rs: seq<Record>, h: nat)
    ensures Plausible(rs, h, if h < |rs| then |rs[h]| else 0)
  {
  }

  lemma {:induction false} PlausibleMore(rs: seq<Record>, h: nat, n: nat, b: Record)
    requires h <= |rs| && Plausible(rs, h, n)
    ensures Plausible(rs + [b], h, if n == 0 then |b| else n)
  {
    var more := rs + [b];
    assert more[|rs|] == b;
    if h < |rs| {
      var k :| h <= k < |rs| && n == |rs[k]| && (k == h || (rs[h] == [] && n > 0));
      assert more[k] == rs[k] && more[h] == rs[h];
    }
  }

  /** Such a length leads to a place in front of the footer. */
  lemma {:induction false} PlausibleStep(rs: seq<Record>, h: nat, n: nat)
    requires Small(rs) && h < |rs| && Plausible(rs, h, n)
    ensures n == |rs[h]| || Offset(rs, h) + n + 8 + 8 <= |Layout(rs)|
    ensures Offset(rs, h) + n + 8 <= |Layout(rs)| && n < TWO63
  {
    hide Layout, Offset;
    var k :| h <= k < |rs| && n == |rs[k]| && (k == h || (rs[h] == [] && n > 0));
    OffsetsGrow(rs, h, k);
    LayoutAt(rs, k);
  }

  /** The wrong length of the record right behind an empty one leads into that record. */
  lemma {:induction false} StraysInside(rs: seq<Record>, h: nat, j: nat)
    requires Small(rs) && h + 1 < |rs| && rs[h] == [] && rs[h + 1] != [] && j <= |rs|
    ensures Offset(rs, j) != Offset(rs, h) + |rs[h + 1]| + 8
  {
    hide Offset;
    LayoutAt(rs, h);
    LayoutAt(rs, h + 1);
    if j <= h + 1 {
      OffsetsGrow(rs, j, h + 1);
    } else {
      OffsetsGrow(rs, h + 2, j);
    }
  }

  class Segment {
    var size: nat
    /** The bytes of the file, its read/write offset, and whether it is open. */
    var file: seq<U8>
    var offset: nat
    var open: bool
    var pos: nat
    var currentSize: nat
    const maxSize: nat

    /** All records ever appended, and how many of them are behind the head. */
    ghost var records: seq<Record>
    ghost var head: nat

    /** The bytes are the records and the footer, and `pos` is the offset of the head record. */
    ghost predicate Placed()
      reads this
    {
      && maxSize < TWO63 - 16 && size == |file| < TWO63
      && Small(records) && head <= |records|
      && pos == Offset(records, head) < TWO64
      && file == FileBytes(records, head)
    }

    /** `currentSize` is the length of the head record, 0 behind the last one. */
    ghost predicate CurrentOk()
      reads this
    {
      currentSize == if head < |records| then |records[head]| else 0
    }

    /** Records never exceed the segment, and `currentSize` is a length that can be taken for that of the head. */
    ghost predicate Bounded()
      reads this
    {
      Fits(records, maxSize) && Plausible(records, head, currentSize)
    }

    ghost predicate Valid()
      reads this
    {
      Placed() && CurrentOk() && Bounded()
    }

    ghost function Unread(): seq<Record>
      requires head <= |records|
      reads this
    {
      records[head..]
    }

    // ---------------------------------------------------------------- file access

    method SeekEnd(back: nat) returns (ok: bool)
      modifies this`offset
      ensures ok <==> back <= |file|
      ensures ok ==> offset == |file| - back
    {
      if back > |file| {
        return false;
      }
      offset := |file| - back;
      return true;
    }

    method Seek(to: nat)
      modifies this`offset
      ensures offset == to
    {
      offset := to;
    }

    method WriteBytes(b: seq<U8>)
      requires offset <= |file|
      modifies this`file, this`offset
      ensures offset == old(offset) + |b|
      ensures file == old(file)[..old(offset)] + b + (if offset < |old(file)| then old(file)[offset..] else [])
    {
      file := file[..offset] + b + if offset + |b| < |file| then file[offset + |b|..] else [];
      offset := offset + |b|;
    }

    method ReadBytes(n: nat) returns (b: seq<U8>, ok: bool)
      modifies this`offset
      ensures ok <==> old(offset) + n <= |file|
      ensures ok ==> b == file[old(offset)..old(offset) + n] && offset == old(offset) + n
    {
      if offset + n > |file| {
        return [], false;
      }
      b := file[offset..offset + n];
      offset := offset + n;
      ok := true;
    }

    method ReadUint64() returns (x: nat, ok: bool)
      modifies this`offset
      ensures ok <==> old(offset) + 8 <= |file|
      ensures ok ==> x == FromBigEndian(file[old(offset)..old(offset) + 8]) && offset == old(offset) + 8
    {
      var b;
      b, ok := ReadBytes(8);
      x := if ok then FromBigEndian(b) else 0;
    }

    // ---------------------------------------------------------------- operations

    /** Reads the head pointer and the current length from the bytes, or writes the footer of a new file. */
    method Open() returns (st: Status)
      requires size == |file| && offset == 0 && pos == 0 && currentSize == 0
      modifies this`file, this`offset, this`size, this`pos, this`currentSize
      ensures old(size) == 0 ==> st == Ok && file == U64(0) && size == 8 && pos == 0 && currentSize == 0
      ensures 0 < old(size) < 8 ==> st == Malformed
      ensures old(size) > 0 ==> file == old(file) && size == old(size)
      ensures old(size) >= 8 ==>
                && pos == FromBigEndian(file[size - 8..])
                && st == (if pos >= TWO63 then Malformed else Ok)
                && (st == Ok ==> currentSize == if pos < size - 8 then FromBigEndian(file[pos..pos + 8]) else 0)
    {
      hide BigEndian, FromBigEndian;
      if size == 0 {
        pos := 0;
        currentSize := 0;
        WriteBytes(U64(pos));
        size := 8;
        return Ok;
      }
      var ok := SeekEnd(8);
      if !ok {
        return Malformed;
      }
      pos, ok := ReadUint64();
      assert file[size - 8..size - 8 + 8] == file[size - 8..];
      if pos >= TWO63 {
        return Malformed;
      }
      Seek(pos);
      if pos < size - 8 {
        currentSize, ok := ReadUint64();
      }
      return Ok;
    }

    /** A new, empty segment. */
    constructor (maxSize: nat)
      requires maxSize < TWO63 - 16
      ensures Valid() && open && records == [] && head == 0 && size == 8 && this.maxSize == maxSize
    {
      this.maxSize := maxSize;
      file, offset, size := [], 0, 0;
      open := true;
      pos, currentSize := 0, 0;
      records, head := [], 0;
      new;
      hide BigEndian, FromBigEndian;
      LayoutNone();
      var _ := Open();
    }

    /** Re-creates a segment from the bytes that a segment left on disk. */
    constructor Reopen(bytes: seq<U8>, maxSize: nat, ghost rs: seq<Record>, ghost h: nat)
      requires maxSize < TWO63 - 16 && |bytes| < TWO63
      requires Small(rs) && h <= |rs| && Offset(rs, h) < TWO64 && bytes == FileBytes(rs, h)
      requires Fits(rs, maxSize)
      ensures Valid() && open && file == bytes && records == rs && head == h && this.maxSize == maxSize
      ensures Unread() == UnreadOf(bytes)
    {
      this.maxSize := maxSize;
      file, offset, size := bytes, 0, |bytes|;
      open := true;
      pos, currentSize := 0, 0;
      records, head := rs, h;
      new;
      hide *;
      FileLong(rs, h);
      var st := Open();
      Restored(st);
      UnreadFromBytes(rs, h);
    }

    /** Opening the bytes of a segment finds its head again. */
    lemma {:induction false} Restored(st: Status)
      requires maxSize < TWO63 - 16 && size == |file| < TWO63 && Fits(records, maxSize)
      requires Small(records) && head <= |records| && Offset(records, head) < TWO64 && file == FileBytes(records, head)
      requires size >= 8 && pos == FromBigEndian(file[size - 8..]) && st == (if pos >= TWO63 then Malformed else Ok)
      requires st == Ok ==> currentSize == if pos < size - 8 then FromBigEndian(file[pos..pos + 8]) else 0
      ensures Valid() && Unread() == records[head..]
    {
      hide FileBytes, Offset, FromBigEndian, Layout, Fits, Small;
      FileAt(records, head);
    }

    /** Overwrites the footer with a record and a new footer. */
    method WriteRecord(b: Record)
      requires |file| >= 8 && |b| < TWO64 && pos < TWO64
      modifies this`file, this`offset
      ensures file == old(file)[..|old(file)| - 8] + U64(|b|) + b + U64(pos)
    {
      hide BigEndian;
      var _ := SeekEnd(8);
      WriteBytes(U64(|b|));
      WriteBytes(b);
      WriteBytes(U64(pos));
    }

    /** Adds a record in front of the footer, or refuses it if the segment is full. */
    method Append(b: Record) returns (st: Status)
      requires Placed() && Bounded()
      modifies this
      ensures Placed() && Bounded() && open == old(open) && head == old(head) && pos == old(pos)
      ensures st == if !open then NotOpen else if old(size) + |b| > maxSize then SegmentFull else Ok
      ensures st != Ok ==>
              records == old(records) && size == old(size) && file == old(file) && currentSize == old(currentSize)
      ensures st == Ok ==> records == old(records) + [b] && size == old(size) + |b| + 8
      ensures st == Ok ==> currentSize == if old(currentSize) == 0 then |b| else old(currentSize)
      ensures old(CurrentOk()) ==>
              (CurrentOk() <==> st != Ok || head == |old(records)| || old(records)[head] != [] || b == [])
    {
      hide FileBytes, Offset, BigEndian, FromBigEndian, Layout, Plausible;
      if !open {
        return NotOpen;
      }
      if size + |b| > maxSize {
        return SegmentFull;
      }
      PlausibleMore(records, head, currentSize, b);
      FileAt(records, head);
      AppendRecord(records, head, b);
      WriteRecord(b);
      if currentSize == 0 {
        currentSize := |b|;
      }
      size := size + |b| + 8;
      records := records + [b];
      return Ok;
    }

    /** The head record; also refreshes the current length from the file. */
    method Current() returns (b: Record, st: Status)
      requires Placed() && Bounded()
      modifies this`offset, this`currentSize
      ensures Placed() && Bounded()
      ensures if head < |records| then st == Ok && b == records[head] && CurrentOk()
              else st == EndOfFile && currentSize == old(currentSize)
    {
      hide FileBytes, Offset, BigEndian, FromBigEndian, Layout;
      FileAt(records, head);
      if pos == size - 8 {
        return [], EndOfFile;
      }
      Seek(pos);
      var sz, ok := ReadUint64();
      currentSize := sz;
      if sz > maxSize {
        return [], Malformed;
      }
      b, ok := ReadBytes(sz);
      return b, Ok;
    }

    method WriteFooter(x: nat)
      requires |file| >= 8 && x < TWO64
      modifies this`file, this`offset
      ensures file == old(file)[..|old(file)| - 8] + U64(x)
    {
      var _ := SeekEnd(8);
      WriteBytes(U64(x));
    }

    /** Points the footer and `pos` behind the current record, as far as its length is known. */
    method MoveOver()
      requires Placed() && Bounded() && head < |records|
      modifies this`file, this`offset, this`pos, this`head
      ensures pos == old(pos) + currentSize + 8 < TWO64 && file == Layout(records) + U64(pos) && |file| == |old(file)|
      ensures if old(CurrentOk()) then Placed() && head == old(head) + 1 else head == old(head) && pos + 16 <= |file|
    {
      hide FileBytes, Offset, BigEndian, FromBigEndian, Layout, Plausible;
      FileAt(records, head);
      LayoutAt(records, head);
      PlausibleStep(records, head, currentSize);
      Stem(records, head);
      if CurrentOk() {
        Stem(records, head + 1);
      }
      var next := pos + currentSize + 8;
      WriteFooter(next);
      if CurrentOk() {
        head := head + 1;
      }
      pos := next;
    }

    lemma {:induction false} AtEnd()
      requires Placed() && Bounded() && pos == size - 8
      ensures head == |records| && currentSize == 0 && CurrentOk()
    {
      hide FileBytes, Offset, BigEndian, FromBigEndian, Layout;
      FileAt(records, head);
    }

    /**
     * Moves the head over the current record; end-of-file if none is left then. If the length is wrong the head
     * is set to a place that it leads to.
     */
    method Advance() returns (st: Status)
      requires Placed() && Bounded()
      modifies this
      ensures open == old(open) && records == old(records) && size == old(size)
      ensures !open ==> st == NotOpen && head == old(head) && (old(CurrentOk()) ==> Valid())
      ensures open && old(CurrentOk()) ==> Valid() && head == if old(head) < |records| then old(head) + 1 else old(head)
      ensures open && old(CurrentOk()) ==> st == if head == |records| then EndOfFile else Ok
      ensures open && !old(CurrentOk()) ==> st == Ok && Strayed(old(records), old(pos + currentSize) + 8)
    {
      hide FileBytes, Offset, BigEndian, FromBigEndian, Layout, Plausible;
      if !open {
        return NotOpen;
      }
      FileAt(records, head);
      if pos == size - 8 {
        AtEnd();
        currentSize := 0;
        return EndOfFile;
      }
      MoveOver();
      ghost var known := Placed();
      if known {
        PlausibleSelf(records, head);
        FileAt(records, head);
      }
      Seek(pos);
      var sz, ok := ReadUint64();
      if !ok {
        return if pos >= |file| then EndOfFile else Malformed;
      }
      currentSize := sz;
      if pos == size - 8 {
        currentSize := 0;
        return EndOfFile;
      }
      return Ok;
    }

    /** The records are on disk, but the footer points to `p`. */
    ghost predicate Strayed(rs: seq<Record>, p: nat)
      reads this
    {
      Small(rs) && p < TWO64 && file == Layout(rs) + U64(p) && pos == p
    }
  }

  /** An empty record, one that is not, and an advance without a read before: no record is where the footer points. */
  method AdvanceUnread(b: Record, maxSize: nat) returns (s: Segment)
    requires b != [] && 16 + |b| <= maxSize < TWO63 - 16
    ensures s.Strayed([[], b], |b| + 8) && forall h :: 0 <= h <= 2 ==> Offset([[], b], h) != |b| + 8
  {
    hide FileBytes, Offset, Layout, Segment.Strayed, Plausible;
    s := new Segment(maxSize);
    var st := s.Append([]);
    st := s.Append(b);
    assert s.records == [[], b];
    OffsetEnd([[], b]);
    st := s.Advance();
    forall h | 0 <= h <= 2 ensures Offset([[], b], h) != |b| + 8 {
      StraysInside([[], b], 0, h);
    }
  }
}
