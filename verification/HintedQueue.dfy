/** The queue of segments as the program keeps it: a head to read from, a tail to append to. */
module HintedQueues {
  import opened Sequences
  import opened SegmentFile
  import opened Segments
  import opened QueueModel
  import opened ByteCodes

  /** An open segment that shows `p`. */
  ghost predicate Shows(s: Segment, p: Part, max: nat)
    reads s
  {
    && s.Placed() && s.Bounded() && s.open && s.maxSize == max
    && p == Part(s.records[s.head..], s.size)
  }

  /** Every segment knows the length of its head record. */
  ghost predicate AllCurrent(ss: seq<Segment>)
    reads ss
  {
    forall i :: 0 <= i < |ss| ==> ss[i].CurrentOk()
  }

  ghost predicate OthersCurrent(ss: seq<Segment>, k: nat)
    reads set i | 0 <= i < |ss| && i != k :: ss[i]
  {
    forall i :: 0 <= i < |ss| && i != k ==> ss[i].CurrentOk()
  }

  lemma {:induction false} CurrentApart(ss: seq<Segment>, k: nat)
    requires k < |ss|
    ensures AllCurrent(ss) <==> OthersCurrent(ss, k) && ss[k].CurrentOk()
  {
    hide Segment.CurrentOk;
  }

  lemma {:induction false} CurrentSnoc(ss: seq<Segment>, s: Segment)
    requires s.CurrentOk()
    ensures AllCurrent(ss) ==> AllCurrent(ss + [s])
  {
    hide Segment.CurrentOk;
  }

  lemma {:induction false} CurrentBehind(ss: seq<Segment>)
    requires ss != [] && OthersCurrent(ss, 0)
    ensures AllCurrent(ss[1..])
  {
    hide Segment.CurrentOk;
  }

  ghost predicate Among(ss: seq<Segment>, tt: seq<Segment>) {
    forall i :: 0 <= i < |ss| ==> ss[i] in tt
  }

  ghost predicate AllShow(ss: seq<Segment>, v: seq<Part>, max: nat)
    reads ss
  {
    |ss| == |v| && forall i :: 0 <= i < |ss| ==> Shows(ss[i], v[i], max)
  }

  /** All segments but one show their parts. */
  ghost predicate OthersShow(ss: seq<Segment>, v: seq<Part>, max: nat, k: nat)
    reads set i | 0 <= i < |ss| && i != k :: ss[i]
  {
    |ss| == |v| && forall i :: 0 <= i < |ss| && i != k ==> Shows(ss[i], v[i], max)
  }

  lemma {:induction false} Apart(ss: seq<Segment>, v: seq<Part>, max: nat, k: nat)
    requires k < |ss| && AllShow(ss, v, max)
    ensures |ss| == |v| && OthersShow(ss, v, max, k) && Shows(ss[k], v[k], max)
  {
    hide Shows;
  }

  lemma {:induction false} Together(ss: seq<Segment>, v: seq<Part>, max: nat, k: nat, p: Part)
    requires k < |ss| && OthersShow(ss, v, max, k) && Shows(ss[k], p, max)
    ensures |ss| == |v| && AllShow(ss, v[k := p], max)
  {
    hide Shows;
  }

  lemma {:induction false} Rejoined(ss: seq<Segment>, v: seq<Part>, max: nat, k: nat)
    requires k < |ss| && OthersShow(ss, v, max, k) && Shows(ss[k], v[k], max)
    ensures AllShow(ss, v, max)
  {
    hide Shows;
  }

  lemma {:induction false} Snoc(ss: seq<Segment>, v: seq<Part>, max: nat, s: Segment, p: Part)
    requires Distinct(ss) && AllShow(ss, v, max) && Shows(s, p, max)
    requires forall i :: 0 <= i < |ss| ==> ss[i] != s
    ensures Distinct(ss + [s]) && AllShow(ss + [s], v + [p], max)
  {
    hide Segment.Placed, Segment.Bounded;
  }

  lemma {:induction false} Behind(ss: seq<Segment>, v: seq<Part>, max: nat)
    requires ss != [] && Distinct(ss) && OthersShow(ss, v, max, 0)
    ensures Distinct(ss[1..]) && AllShow(ss[1..], v[1..], max)
  {
    hide Shows;
  }

  lemma {:induction false} AsMany(ss: seq<Segment>, v: seq<Part>, max: nat)
    requires AllShow(ss, v, max)
    ensures |v| == |ss|
  {
  }

  /** Behind an unread empty record a non-empty one is taken for the head record. */
  ghost predicate Hides(p: Part, b: Record) {
    p.unread != [] && p.unread[0] == [] && b != []
  }

  method AppendPart(s: Segment, b: Record, ghost p: Part, ghost max: nat) returns (st: Status, ghost q: Part)
    requires Shows(s, p, max)
    modifies s
    ensures Shows(s, q, max)
    ensures old(s.CurrentOk()) ==> (s.CurrentOk() <==> st != Ok || !Hides(p, b))
    ensures st == if p.size + |b| <= max then Ok else SegmentFull
    ensures q == if st == Ok then Part(p.unread + [b], p.size + |b| + 8) else p
  {
    hide Fits, Small, FileBytes, Offset;
    st := s.Append(b);
    q := Part(s.records[s.head..], s.size);
  }

  method CurrentPart(s: Segment, ghost p: Part, ghost max: nat) returns (b: Record, st: Status)
    requires Shows(s, p, max)
    modifies s
    ensures Shows(s, p, max) && (old(s.CurrentOk()) || st == Ok ==> s.CurrentOk())
    ensures if p.unread == [] then st == EndOfFile else st == Ok && b == p.unread[0]
  {
    hide Fits, Small, FileBytes, Offset;
    b, st := s.Current();
  }

  method AdvancePart(s: Segment, ghost p: Part, ghost max: nat) returns (st: Status, ghost q: Part)
    requires Shows(s, p, max)
    modifies s
    ensures old(s.CurrentOk()) ==> Shows(s, q, max) && s.CurrentOk()
    ensures old(s.CurrentOk()) ==> st == if |p.unread| <= 1 then EndOfFile else Ok
    ensures old(s.CurrentOk()) ==> q == Part(if p.unread == [] then [] else p.unread[1..], p.size)
    ensures !old(s.CurrentOk()) ==> st == Ok && q == p && s.Strayed(old(s.records), old(s.pos + s.currentSize) + 8)
  {
    hide Fits, Small, FileBytes, Offset, Plausible, Layout, Segment.Strayed;
    st := s.Advance();
    q := if old(s.CurrentOk()) then Part(s.records[s.head..], s.size) else p;
  }

  lemma {:induction false} NewShows(s: Segment, max: nat)
    requires s.Valid() && s.open && s.records == [] && s.head == 0 && s.size == 8 && s.maxSize == max
    ensures Shows(s, Part([], 8), max) && s.CurrentOk()
  {
    hide Segment.Placed, Segment.Bounded;
  }

  method CloseAll(ss: seq<Segment>)
    modifies ss
    ensures forall s :: s in ss ==> !s.open && s.file == old(s.file)
  {
    for i := 0 to |ss|
      invariant forall k :: 0 <= k < i ==> !ss[k].open
      invariant forall k :: 0 <= k < |ss| ==> ss[k].file == old(ss[k].file)
    {
      ss[i].open := false;
    }
  }

  lemma {:induction false} NoneShown(max: nat)
    ensures AllShow([], [], max)
  {
  }

  class Queue {
    var head: Segment?
    var tail: Segment?
    var segments: seq<Segment>
    const maxSegmentSize: nat
    const maxSize: nat

    ghost var view: seq<Part>

    ghost predicate IsOpen()
      reads this
    {
      head != null
    }

    ghost predicate Valid()
      reads this, segments
    {
      && maxSegmentSize < TWO63 - 16
      && |view| == |segments| && Distinct(segments) && AllShow(segments, view, maxSegmentSize)
      && if head == null then tail == null && segments == []
         else segments != [] && head == segments[0] && tail == segments[|segments| - 1]
    }

    /** An open queue whose segments show its view, whatever its tail is. */
    ghost predicate Linked()
      reads this, segments
    {
      && maxSegmentSize < TWO63 - 16
      && |view| == |segments| && Distinct(segments) && AllShow(segments, view, maxSegmentSize)
      && segments != [] && head == segments[0]
    }

    /** The tail is a segment that was closed and dropped. */
    ghost predicate Detached()
      reads this, segments, tail
    {
      Linked() && tail != null && tail !in segments && Dropped(tail)
    }

    lemma {:induction false} LinkedIf()
      requires Valid() && IsOpen()
      ensures Linked() && tail != null && tail in segments && tail == segments[|segments| - 1]
    {
      hide AllShow, Distinct;
    }

    lemma {:induction false} ValidIf()
      requires Linked() && tail == segments[|segments| - 1]
      ensures Valid() && IsOpen()
    {
      hide AllShow, Distinct;
    }

    /** Every segment knows the length of its head record, so that Advance can be called without Current. */
    ghost predicate Prompt()
      reads this, segments
    {
      AllCurrent(segments)
    }

    /** Advance reads the length of the head record from the head segment. */
    ghost predicate HeadKnown()
      reads this, head
    {
      head != null ==> head.CurrentOk()
    }

    lemma {:induction false} PromptHead()
      requires Valid() && Prompt()
      ensures HeadKnown()
    {
    }

    constructor (maxSegmentSize: nat, maxSize: nat)
      requires maxSegmentSize < TWO63 - 16
      ensures Valid() && !IsOpen() && view == [] && Prompt()
      ensures this.maxSegmentSize == maxSegmentSize && this.maxSize == maxSize
    {
      head, tail, segments := null, null, [];
      this.maxSegmentSize, this.maxSize := maxSegmentSize, maxSize;
      view := [];
    }

    /** The total size on disk. */
    method DiskUsage() returns (n: nat)
      requires AllShow(segments, view, maxSegmentSize)
      ensures n == Usage(view)
    {
      n := 0;
      NoParts();
      for i := 0 to |segments|
        invariant n == Usage(view[..i])
      {
        assert Shows(segments[i], view[i], maxSegmentSize);
        assert view[..i + 1][..i] == view[..i];
        Split(view[..i + 1]);
        n := n + segments[i].size;
      }
      assert view[..|segments|] == view;
    }

    /** A new empty segment behind the others. */
    method AddSegment() returns (s: Segment)
      requires maxSegmentSize < TWO63 - 16
      requires Distinct(segments) && AllShow(segments, view, maxSegmentSize)
      modifies this`segments, this`view
      ensures fresh(s) && segments == old(segments) + [s] && view == old(view) + Fresh()
      ensures Distinct(segments) && AllShow(segments, view, maxSegmentSize)
      ensures old(Prompt()) ==> Prompt()
    {
      hide AllShow, AllCurrent, Shows, Distinct, Segment.Placed, Segment.Bounded, Segment.CurrentOk;
      s := new Segment(maxSegmentSize);
      NewShows(s, maxSegmentSize);
      Snoc(segments, view, maxSegmentSize, s, Part([], 8));
      CurrentSnoc(segments, s);
      segments := segments + [s];
      view := view + Fresh();
    }

    /** Drops the head segment unless it is the only one. */
    method TrimHead()
      requires Linked()
      modifies this`segments, this`view, this`head, segments
      ensures Linked()
      ensures |old(segments)| <= 1 ==> segments == old(segments) && view == old(view)
      ensures |old(segments)| > 1 ==>
                segments == old(segments)[1..] && view == old(view)[1..] && Dropped(old(segments)[0])
      ensures old(Prompt()) ==> Prompt()
    {
      hide AllShow, OthersShow, Shows, AllCurrent, OthersCurrent, Segment.CurrentOk, Dropped;
      if |segments| > 1 {
        ghost var prompt := Prompt();
        Apart(segments, view, maxSegmentSize, 0);
        CurrentApart(segments, 0);
        DropPart(head, view[0], maxSegmentSize);
        Behind(segments, view, maxSegmentSize);
        if prompt {
          CurrentBehind(segments);
        }
        segments := segments[1..];
        view := view[1..];
        head := segments[0];
      }
    }

    /**
     * Opens the queue over the segments found on disk, in the order they were found; an empty
     * directory gets a new segment, and a head that is read to the end is trimmed.
     */
    method Open(found: seq<Segment>, ghost parts: seq<Part>)
      requires Valid() && !IsOpen()
      requires Distinct(found) && AllShow(found, parts, maxSegmentSize)
      modifies this, found
      ensures Valid() && IsOpen()
      ensures old(AllCurrent(found)) ==> Prompt()
      ensures found == [] ==> view == Fresh()
      ensures found != [] ==> view == if parts[0].unread == [] && |parts| > 1 then parts[1..] else parts
    {
      hide AllShow, Shows, Distinct, AllCurrent;
      AsMany(found, parts, maxSegmentSize);
      segments := found;
      view := parts;
      if |segments| == 0 {
        var _ := AddSegment();
      }
      head := segments[0];
      tail := segments[|segments| - 1];
      var b, st := Current();
      if st == EndOfFile {
        TrimFirst();
      }
    }

    /** The tail stays the last segment. */
    method TrimFirst()
      requires Valid() && IsOpen()
      modifies this`segments, this`view, this`head, segments
      ensures Valid() && IsOpen()
      ensures view == if |old(view)| > 1 then old(view)[1..] else old(view)
      ensures Among(segments, old(segments)) && (old(Prompt()) ==> Prompt())
    {
      hide AllShow, Distinct, AllCurrent, Linked, Valid, Dropped;
      LinkedIf();
      SameNumber();
      TrimHead();
      ValidIf();
    }

    lemma {:induction false} SameNumber()
      requires Linked()
      ensures |view| == |segments| > 0 && head == segments[0]
    {
      hide AllShow, Distinct;
    }

    /** The first record; end-of-file exactly if the head segment is used up. */
    method Current() returns (b: Record, st: Status)
      requires Valid()
      modifies segments
      ensures Valid() && view == old(view)
      ensures (st == Ok ==> HeadKnown()) && (old(Prompt()) ==> Prompt())
      ensures !IsOpen() ==> st == NotOpen
      ensures IsOpen() ==> if view[0].unread == [] then st == EndOfFile else st == Ok && b == view[0].unread[0]
    {
      if head == null {
        return [], NotOpen;
      }
      hide AllShow, Distinct, AllCurrent, Segment.CurrentOk;
      b, st := CurrentFirst();
    }

    /** The first record of the head segment. */
    method CurrentFirst() returns (b: Record, st: Status)
      requires Valid() && IsOpen()
      modifies head
      ensures Valid()
      ensures (st == Ok ==> HeadKnown()) && (old(Prompt()) ==> Prompt())
      ensures if view[0].unread == [] then st == EndOfFile else st == Ok && b == view[0].unread[0]
    {
      hide AllShow, OthersShow, Shows, AllCurrent, OthersCurrent, Segment.CurrentOk;
      Apart(segments, view, maxSegmentSize, 0);
      CurrentApart(segments, 0);
      b, st := CurrentPart(head, view[0], maxSegmentSize);
      CurrentApart(segments, 0);
      Rejoined(segments, view, maxSegmentSize, 0);
    }

    /** Adds a record at the end of the queue. */
    method Append(b: Record) returns (st: Status)
      requires Valid()
      modifies this, segments
      ensures Valid() && IsOpen() == old(IsOpen())
      ensures old(Prompt()) ==> (Prompt() <==> !(IsOpen() && Misleads(old(view), b, maxSegmentSize, maxSize)))
      ensures !IsOpen() ==> st == NotOpen && view == []
      ensures IsOpen() ==> st == if Usage(old(view)) + |b| > maxSize then QueueFull
                                 else if Taken(old(view), b, maxSegmentSize) then Ok else SegmentFull
      ensures IsOpen() ==> view == if st == QueueFull then old(view) else AppendTo(old(view), b, maxSegmentSize)
    {
      hide AllShow, Shows, Usage, Distinct, AppendTo, AllCurrent;
      if tail == null {
        return NotOpen;
      }
      var used := DiskUsage();
      if used + |b| > maxSize {
        return QueueFull;
      }
      st := AppendTail(b);
      if st == SegmentFull {
        RetryAppend(view, b, maxSegmentSize);
        tail := AddSegment();
        st := AppendTail(b);
        return;
      }
      return Ok;
    }

    /** The same code when the tail was dropped: the append to it fails, and that error is not passed on. */
    method AppendDetached(b: Record) returns (st: Status)
      requires Detached()
      modifies tail
      ensures Detached() && st == if Usage(view) + |b| > maxSize then QueueFull else Ok
    {
      hide AllShow, Shows, Usage, Distinct;
      var used := DiskUsage();
      if used + |b| > maxSize {
        return QueueFull;
      }
      st := AppendDropped(tail, b);
      assert st != SegmentFull;
      return Ok;
    }

    method AppendTail(b: Record) returns (st: Status)
      requires Valid() && IsOpen()
      modifies this`view, tail
      ensures Valid()
      ensures old(Prompt()) ==> (Prompt() <==> st != Ok || !Hides(old(view)[|old(view)| - 1], b))
      ensures st == if old(view)[|old(view)| - 1].size + |b| <= maxSegmentSize then Ok else SegmentFull
      ensures view == if st == Ok then AppendTo(old(view), b, maxSegmentSize) else old(view)
    {
      var k := |segments| - 1;
      hide AllShow, OthersShow, Shows, AllCurrent, OthersCurrent, Segment.CurrentOk, Hides;
      Apart(segments, view, maxSegmentSize, k);
      CurrentApart(segments, k);
      ghost var p;
      st, p := AppendPart(tail, b, view[k], maxSegmentSize);
      CurrentApart(segments, k);
      Together(segments, view, maxSegmentSize, k, p);
      view := view[k := p];
    }

    /** Advances the head segment. */
    method AdvanceFirst() returns (st: Status)
      requires Valid() && IsOpen()
      modifies this`view, head
      ensures |view| == |old(view)|
      ensures old(HeadKnown()) ==> Valid() && HeadKnown() && (old(Prompt()) ==> Prompt())
      ensures old(HeadKnown()) ==> st == if |old(view)[0].unread| <= 1 then EndOfFile else Ok
      ensures old(HeadKnown()) ==> Advanced(old(view)) == if st == EndOfFile && |view| > 1 then view[1..] else view
      ensures !old(HeadKnown()) ==>
              st == Ok && view == old(view) && LostHead(old(head.records), old(head.pos + head.currentSize) + 8)
    {
      hide AllShow, OthersShow, Shows, Advanced, AllCurrent, OthersCurrent, Segment.CurrentOk, Segment.Strayed;
      Apart(segments, view, maxSegmentSize, 0);
      CurrentApart(segments, 0);
      ghost var known, p := HeadKnown(), view[0];
      st, p := AdvancePart(head, view[0], maxSegmentSize);
      if known {
        CurrentApart(segments, 0);
        Together(segments, view, maxSegmentSize, 0, p);
        AdvanceHead(view, p);
        view := view[0 := p];
      }
    }

    /** The footer of the head segment points to `p`; its records and the other segments are as they were. */
    ghost predicate LostHead(rs: seq<Record>, p: nat)
      reads this, segments, head
    {
      && segments != [] && head == segments[0] && tail == segments[|segments| - 1]
      && OthersShow(segments, view, maxSegmentSize, 0) && head.Strayed(rs, p)
    }

    /** Moves the head over the first record; to where a wrong length leads if the length of that is not known. */
    method Advance() returns (st: Status)
      requires Valid()
      modifies this, segments
      ensures IsOpen() == old(IsOpen()) && Among(segments, old(segments))
      ensures !IsOpen() ==> Valid() && st == NotOpen && view == []
      ensures IsOpen() && old(HeadKnown()) ==> Valid() && st == Ok && view == Advanced(old(view))
      ensures old(HeadKnown()) && old(Prompt()) ==> Prompt()
      ensures !old(HeadKnown()) ==>
                && st == Ok && segments == old(segments) && view == old(view)
                && LostHead(old(head.records), old(head.pos + head.currentSize) + 8)
    {
      if head == null {
        return NotOpen;
      }
      hide AllShow, Distinct, Advanced, AllCurrent, Segment.CurrentOk, Segment.Strayed, OthersShow;
      st := AdvanceFirst();
      if st == EndOfFile {
        TrimFirst();
      }
      st := Ok;
    }

    /** Drops the head segment; the last one after adding an empty one behind it. */
    method PurgeOne()
      requires Linked()
      modifies this`segments, this`view, this`head, segments
      ensures Linked() && |segments| > 0 && head == segments[0]
      ensures |old(segments)| > 1 ==> segments == old(segments)[1..] && view == old(view)[1..]
      ensures |old(segments)| == 1 ==>
                |segments| == 1 && fresh(segments[0]) && view == Fresh() && Dropped(old(segments)[0])
    {
      hide AllShow, Distinct, Linked, Dropped, AllCurrent;
      LinkedParts();
      if |segments| == 1 {
        var _ := AddSegment();
        LinkedAgain();
      }
      TrimHead();
      SameNumber();
    }

    /** After the `i` aged segments in front were purged. */
    ghost predicate Purged(ss: seq<Segment>, v: seq<Part>, i: nat, aged: set<Segment>)
      reads this, segments, ss
    {
      && Linked() && i <= |ss| == |v| && ss != [] && tail == ss[|ss| - 1]
      && Leading(ss, aged) == i + Leading(ss[i..], aged)
      && if i < |ss| then segments == ss[i..] && view == v[i..]
         else view == Fresh() && |segments| == 1 && segments[0] !in ss && segments[0] !in aged && Dropped(ss[|ss| - 1])
    }

    lemma {:induction false} PurgeStart(aged: set<Segment>)
      requires Valid() && IsOpen()
      ensures Purged(segments, view, 0, aged)
    {
      hide AllShow, Distinct, Leading;
      assert segments[0..] == segments && view[0..] == view;
    }

    lemma {:induction false} PurgeAt(ss: seq<Segment>, v: seq<Part>, i: nat, aged: set<Segment>)
      requires Purged(ss, v, i, aged) && head != null && head in aged
      ensures Linked() && i < |ss| && segments == ss[i..] && segments != [] && head == segments[0]
      ensures forall k :: 0 <= k < |segments| ==> segments[k] in ss
    {
      hide AllShow, Distinct, Leading, Dropped;
    }

    lemma {:induction false} PurgeEnd(ss: seq<Segment>, v: seq<Part>, i: nat, aged: set<Segment>)
      requires Purged(ss, v, i, aged) && head != null && head !in aged
      ensures var k := Leading(ss, aged);
              if k < |ss| then |ss| == |v| && Valid() && IsOpen() && view == v[k..] else Detached() && view == Fresh()
    {
      hide AllShow, Distinct, Leading, Dropped;
      LeadingFrom(ss, i, aged);
    }

    /** One iteration of the purge. */
    method PurgeNext(aged: set<Segment>, ghost ss: seq<Segment>, ghost v: seq<Part>, ghost i: nat)
      requires Purged(ss, v, i, aged) && head != null && head in aged
      modifies this`segments, this`view, this`head, segments
      ensures i < |ss| && Purged(ss, v, i + 1, aged) && head != null
    {
      hide AllShow, Distinct, Linked, Leading, Dropped, AllCurrent;
      PurgeAt(ss, v, i, aged);
      LeadingFrom(ss, i, aged);
      assert ss[i..][1..] == ss[i + 1..] && v[i..][1..] == v[i + 1..];
      PurgeOne();
    }

    /**
     * Drops the leading segments that were last modified too long ago. If all of them were, a new segment becomes
     * the head, but the tail stays the last of the old ones.
     */
    method PurgeOlderThan(aged: set<Segment>)
      requires Valid()
      modifies this, segments
      ensures tail == old(tail)
      ensures !old(IsOpen()) ==> Valid() && !IsOpen() && view == []
      ensures old(IsOpen()) ==>
                var k := Leading(old(segments), aged);
                if k < |old(segments)|
                then |old(view)| == |old(segments)| && Valid() && IsOpen() && view == old(view)[k..]
                else Detached() && view == Fresh()
    {
      if |segments| == 0 {
        return;
      }
      hide *;
      ghost var ss, v, i := segments, view, 0;
      PurgeStart(aged);
      while head in aged
        invariant Purged(ss, v, i, aged) && tail == old(tail) && head != null
        decreases |ss| - i
      {
        PurgeAt(ss, v, i, aged);
        PurgeNext(aged, ss, v, i);
        i := i + 1;
      }
      PurgeEnd(ss, v, i, aged);
    }

    lemma {:induction false} LinkedParts()
      requires Linked()
      ensures maxSegmentSize < TWO63 - 16 && |view| == |segments| > 0 && head == segments[0]
      ensures Distinct(segments) && AllShow(segments, view, maxSegmentSize)
    {
      hide AllShow, Distinct;
    }

    lemma {:induction false} LinkedAgain()
      requires maxSegmentSize < TWO63 - 16 && Distinct(segments) && AllShow(segments, view, maxSegmentSize)
      requires segments != [] && head == segments[0]
      ensures Linked()
    {
      hide Shows, Distinct;
    }

    /** Closes every segment. */
    method Close()
      requires Valid()
      modifies this, segments
      ensures Valid() && !IsOpen() && view == []
      ensures forall s :: s in old(segments) ==> !s.open && s.file == old(s.file)
    {
      hide AllShow;
      CloseAll(segments);
      head, tail, segments, view := null, null, [], [];
      NoneShown(maxSegmentSize);
    }
  }

  /** How many segments in a row, from the first on, are aged. */
  ghost function Leading(ss: seq<Segment>, aged: set<Segment>): (k: nat)
    ensures k <= |ss|
  {
    if ss == [] || ss[0] !in aged then 0 else 1 + Leading(ss[1..], aged)
  }

  lemma {:induction false} LeadingFrom(ss: seq<Segment>, i: nat, aged: set<Segment>)
    requires i <= |ss|
    ensures i == 0 ==> ss[i..] == ss
    ensures i == |ss| || ss[i] !in aged ==> Leading(ss[i..], aged) == 0
    ensures i < |ss| && ss[i] in aged ==> Leading(ss[i..], aged) == 1 + Leading(ss[i + 1..], aged)
  {
    if i < |ss| {
      assert ss[i..][1..] == ss[i + 1..] && ss[i..][0] == ss[i];
    }
  }

  /** A segment that was closed. */
  ghost predicate Dropped(s: Segment)
    reads s
  {
    s.Placed() && s.Bounded() && !s.open
  }

  method DropPart(s: Segment, ghost p: Part, ghost max: nat)
    requires Shows(s, p, max)
    modifies s
    ensures Dropped(s)
  {
    hide Fits, Small, FileBytes, Offset;
    s.open := false;
  }

  method AppendDropped(s: Segment, b: Record) returns (st: Status)
    requires Dropped(s)
    modifies s
    ensures Dropped(s) && st == NotOpen
  {
    hide Fits, Small, FileBytes, Offset;
    st := s.Append(b);
  }

  /** Once every segment has been purged, a record that is answered with success is not in the queue. */
  method PurgedDrops(q: Queue, aged: set<Segment>, b: Record) returns (st: Status)
    requires q.Valid() && q.IsOpen() && forall i :: 0 <= i < |q.segments| ==> q.segments[i] in aged
    modifies q, q.segments
    ensures q.Detached() && q.view == Fresh() && (8 + |b| <= q.maxSize ==> st == Ok)
  {
    hide Queue.Valid, Queue.Detached, Usage, Leading;
    AllLeading(q.segments, aged);
    ghost var before := q.segments;
    q.LinkedIf();
    q.PurgeOlderThan(aged);
    OnePart(Part([], 8));
    st := q.AppendDetached(b);
  }

  lemma {:induction false} AllLeading(ss: seq<Segment>, aged: set<Segment>)
    requires forall i :: 0 <= i < |ss| ==> ss[i] in aged
    ensures Leading(ss, aged) == |ss|
  {
    if ss != [] {
      AllLeading(ss[1..], aged);
    }
  }

  /** The record goes into the tail, behind an unread empty one. */
  ghost predicate Misleads(v: seq<Part>, b: Record, max: nat, maxSize: nat)
    requires v != []
  {
    Usage(v) + |b| <= maxSize && v[|v| - 1].size + |b| <= max && Hides(v[|v| - 1], b)
  }

  lemma {:induction false} None(max: nat)
    ensures Distinct<Segment>([]) && AllShow([], [], max) && AllCurrent([])
  {
  }

  /** A queue opened over an empty directory. */
  method NewQueue(maxSegmentSize: nat, maxSize: nat) returns (q: Queue)
    requires maxSegmentSize < TWO63 - 16
    ensures fresh(q) && q.Valid() && q.IsOpen() && q.view == Fresh() && q.Prompt()
    ensures q.maxSegmentSize == maxSegmentSize && q.maxSize == maxSize
  {
    hide AllShow, Shows, Distinct, AllCurrent;
    None(maxSegmentSize);
    q := new Queue(maxSegmentSize, maxSize);
    q.Open([], []);
  }

  method ReopenPart(bytes: seq<U8>, max: nat, ghost was: Segment, ghost p: Part) returns (s: Segment)
    requires Shows(was, p, max) && was.file == bytes
    ensures fresh(s) && Shows(s, p, max) && s.CurrentOk()
  {
    hide Small, FileBytes, Offset, Fits, UnreadOf;
    s := new Segment.Reopen(bytes, max, was.records, was.head);
  }

  /** A queue of one segment is restored from the bytes of its file. */
  method Restart(q: Queue) returns (r: Queue)
    requires q.Valid() && q.IsOpen() && |q.segments| == 1
    ensures r.Valid() && r.IsOpen() && r.view == q.view && r.Prompt()
    ensures r.maxSegmentSize == q.maxSegmentSize && r.maxSize == q.maxSize
  {
    hide AllShow, OthersShow, Shows, Distinct, AllCurrent;
    Apart(q.segments, q.view, q.maxSegmentSize, 0);
    var s := ReopenPart(q.head.file, q.maxSegmentSize, q.segments[0], q.view[0]);
    r := new Queue(q.maxSegmentSize, q.maxSize);
    Alone(s, q.view[0], q.maxSegmentSize);
    r.Open([s], [q.view[0]]);
    assert q.view == [q.view[0]];
  }

  lemma {:induction false} Alone(s: Segment, p: Part, max: nat)
    requires Shows(s, p, max) && s.CurrentOk()
    ensures Distinct([s]) && AllShow([s], [p], max) && AllCurrent([s])
  {
    hide Shows;
  }
}
