/** The hinted-handoff sender: records go into the queue, and leave it when they were delivered. */
module Sender {
  import opened ByteCodes
  import opened SegmentFile
  import opened Segments
  import opened QueueModel
  import opened HintedQueues

  /** A write for one shard: its id and the points as text. */
  datatype Message = Message(shard: nat, text: seq<U8>)

  datatype Parsed = Readable(m: Message) | Unreadable

  const NEWLINE: U8 := 10

  ghost function Lines(points: seq<seq<U8>>): seq<U8> {
    if points == [] then [] else points[0] + [NEWLINE] + Lines(points[1..])
  }

  lemma {:induction false} LinesSnoc(points: seq<seq<U8>>, p: seq<U8>)
    ensures Lines(points + [p]) == Lines(points) + p + [NEWLINE]
  {
    if points == [] {
      assert [p][1..] == [] && points + [p] == [p];
      assert Lines([p]) == p + [NEWLINE] + Lines([]);
    } else {
      var q := points[1..];
      assert (points + [p])[1..] == q + [p];
      LinesSnoc(q, p);
      hide Lines;
      assert points[0] + [NEWLINE] + (Lines(q) + p + [NEWLINE]) == points[0] + [NEWLINE] + Lines(q) + p + [NEWLINE];
    }
  }

  /** The shard id as eight bytes, then one line for each point. */
  method MarshalWrite(shard: nat, points: seq<seq<U8>>) returns (b: Record)
    requires shard < TWO64
    ensures |b| >= 8 && FromBigEndian(b[..8]) == shard && b[8..] == Lines(points)
  {
    hide BigEndian, FromBigEndian;
    b := U64(shard);
    for i := 0 to |points|
      invariant b == U64(shard) + Lines(points[..i])
    {
      assert points[..i + 1] == points[..i] + [points[i]];
      LinesSnoc(points[..i], points[i]);
      b := b + points[i];
      b := b + [NEWLINE];
    }
    assert points[..|points|] == points;
    U64Back(shard);
    assert b[..8] == U64(shard) && b[8..] == Lines(points);
  }

  /** A record is bad if it is shorter than an id or if its text does not parse. */
  function Unmarshal(b: Record, parses: seq<U8> -> bool): Parsed {
    if |b| < 8 then Unreadable
    else if parses(b[8..]) then Readable(Message(FromBigEndian(b[..8]), b[8..])) else Unreadable
  }

  /** What the outside world answers to one attempt. */
  datatype World = World(lookupOk: bool, active: bool, writeOk: bool)

  datatype Outcome = Sent(bytes: nat) | NoMore | Closed | LookupFailed | Unparsable | WriteFailed

  /** The messages of the good records among `rs`. */
  ghost function Messages(rs: seq<Record>, parses: seq<U8> -> bool): seq<Message> {
    if rs == [] then []
    else Messages(rs[..|rs| - 1], parses)
         + match Unmarshal(rs[|rs| - 1], parses) case Readable(m) => [m] case Unreadable => []
  }

  lemma {:induction false} MessagesSnoc(rs: seq<Record>, r: Record, parses: seq<U8> -> bool)
    ensures Messages(rs + [r], parses)
         == Messages(rs, parses) + match Unmarshal(r, parses) case Readable(m) => [m] case Unreadable => []
  {
    hide Unmarshal;
    assert (rs + [r])[..|rs|] == rs;
  }

  ghost predicate AllReadable(rs: seq<Record>, parses: seq<U8> -> bool) {
    forall i :: 0 <= i < |rs| ==> Unmarshal(rs[i], parses).Readable?
  }

  lemma {:induction false} SuffixReadable(rs: seq<Record>, parses: seq<U8> -> bool)
    requires AllReadable(rs, parses)
    ensures rs != [] ==> Unmarshal(rs[0], parses).Readable? && AllReadable(rs[1..], parses)
  {
    hide Unmarshal;
  }

  /** A node that is known, active and takes every write. */
  const UP := World(true, true, true)

  /** The answer to a write: queued for later, refused by the queue, or refused because the processor is closed. */
  datatype Reply = Queued | Refused(st: Status) | ProcessorClosed

  /** Nothing is lost, reordered or sent twice, and only records that cannot be read are skipped. */
  ghost predicate Balanced(accepted: seq<Record>, handled: seq<Record>, waiting: seq<Record>, delivered: seq<Message>,
                           parses: seq<U8> -> bool)
  {
    handled + waiting == accepted && delivered == Messages(handled, parses)
  }

  lemma {:induction false} BalancedStart(parses: seq<U8> -> bool)
    ensures Balanced([], [], [], [], parses)
  {
  }

  lemma {:induction false} BalancedIn(accepted: seq<Record>, handled: seq<Record>, waiting: seq<Record>,
                                      delivered: seq<Message>, parses: seq<U8> -> bool, b: Record)
    requires Balanced(accepted, handled, waiting, delivered, parses)
    ensures Balanced(accepted + [b], handled, waiting + [b], delivered, parses)
  {
    hide Messages;
    assert handled + (waiting + [b]) == (handled + waiting) + [b];
  }

  lemma {:induction false} BalancedOut(accepted: seq<Record>, handled: seq<Record>, waiting: seq<Record>,
                                       delivered: seq<Message>, parses: seq<U8> -> bool)
    requires Balanced(accepted, handled, waiting, delivered, parses) && waiting != []
    ensures var sent := match Unmarshal(waiting[0], parses) case Readable(m) => [m] case Unreadable => [];
            Balanced(accepted, handled + [waiting[0]], waiting[1..], delivered + sent, parses)
  {
    hide Messages, Unmarshal;
    MessagesSnoc(handled, waiting[0], parses);
    assert (handled + [waiting[0]]) + waiting[1..] == handled + waiting;
  }

  lemma {:induction false} BalancedEnd(accepted: seq<Record>, handled: seq<Record>, delivered: seq<Message>,
                                       parses: seq<U8> -> bool)
    requires Balanced(accepted, handled, [], delivered, parses)
    ensures delivered == Messages(accepted, parses)
  {
    hide Messages;
    assert handled + [] == handled;
  }

  class NodeProcessor {
    const queue: Queue
    const parses: seq<U8> -> bool
    var open: bool

    /**
     * Everything that entered the queue, everything that left it, what is still in it (also on disk, after the
     * processor is closed), and what the writer was given with success.
     */
    ghost var accepted: seq<Record>
    ghost var handled: seq<Record>
    ghost var waiting: seq<Record>
    ghost var delivered: seq<Message>

    ghost predicate Valid()
      reads this, queue, queue.segments
    {
      && queue.Valid() && open == queue.IsOpen()
      && (open ==> queue.view != [] && waiting == Contents(queue.view))
      && Balanced(accepted, handled, waiting, delivered, parses)
    }

    constructor (maxSegmentSize: nat, maxSize: nat, parses: seq<U8> -> bool)
      requires maxSegmentSize < TWO63 - 16
      ensures Valid() && open && accepted == handled == waiting == [] && delivered == []
      ensures fresh(queue) && this.parses == parses
    {
      var q := NewQueue(maxSegmentSize, maxSize);
      queue := q;
      this.parses := parses;
      open := true;
      accepted, handled, waiting, delivered := [], [], [], [];
      new;
      hide *;
      Begin();
    }

    lemma {:induction false} Begin()
      requires queue.Valid() && queue.IsOpen() && queue.view == Fresh() && open
      requires accepted == handled == waiting == [] && delivered == []
      ensures Valid()
    {
      hide Queue.Valid, Usage, Contents, Messages, Balanced;
      OnePart(Part([], 8));
      BalancedStart(parses);
    }

    method Close()
      requires Valid()
      modifies this`open, queue, queue.segments
      ensures Valid() && !open
    {
      hide Contents, Balanced, Queue.Valid;
      if !open {
        return;
      }
      open := false;
      queue.Close();
    }

    /** Takes a write for later delivery, or refuses it. */
    method WriteShard(shard: nat, points: seq<seq<U8>>) returns (reply: Reply, ghost b: Record)
      requires Valid() && shard < TWO64
      modifies this`accepted, this`waiting, queue, queue.segments
      ensures Valid() && open == old(open)
      ensures reply == if !open then ProcessorClosed
                       else if Usage(old(queue.view)) + |b| > queue.maxSize then Refused(QueueFull)
                       else if Taken(old(queue.view), b, queue.maxSegmentSize) then Queued else Refused(SegmentFull)
      ensures accepted == old(accepted) + if reply == Queued then [b] else []
      ensures Unmarshal(b, parses) ==
              if parses(Lines(points)) then Readable(Message(shard, Lines(points))) else Unreadable
    {
      hide Contents, Balanced, AppendTo, Taken, Usage, Queue.Valid, Lines, FromBigEndian;
      var rec := MarshalWrite(shard, points);
      b := rec;
      if !open {
        return ProcessorClosed, b;
      }
      AppendContents(queue.view, rec, queue.maxSegmentSize);
      var st := queue.Append(rec);
      if st == Ok {
        BalancedIn(accepted, handled, waiting, delivered, parses, rec);
        accepted, waiting := accepted + [rec], waiting + [rec];
      }
      reply := if st == Ok then Queued else Refused(st);
    }

    /** Sends the first record and removes it, or skips it if it cannot be read. */
    method SendWrite(world: World) returns (out: Outcome)
      requires Valid()
      modifies this`handled, this`waiting, this`delivered, queue, queue.segments
      ensures Valid() && Among(queue.segments, old(queue.segments))
      ensures out == if !world.lookupOk then LookupFailed
                     else if !world.active then NoMore
                     else if !open then Closed
                     else if old(queue.view)[0].unread == [] then NoMore
                     else var r := old(queue.view)[0].unread[0];
                          if Unmarshal(r, parses).Unreadable? then Unparsable
                          else if !world.writeOk then WriteFailed else Sent(|r|)
      ensures out.Sent? || out.Unparsable? ==>
                && open && old(waiting) != [] && old(waiting)[0] == old(queue.view)[0].unread[0]
                && handled == old(handled) + [old(waiting)[0]] && waiting == old(waiting)[1..]
                && queue.view == Advanced(old(queue.view))
      ensures !(out.Sent? || out.Unparsable?) ==>
                && handled == old(handled) && waiting == old(waiting)
                && delivered == old(delivered) && queue.view == old(queue.view)
    {
      hide Contents, Balanced, Unmarshal, Advanced, Usage, Queue.Valid, Queue.HeadKnown, Queue.Prompt, Queue.LostHead;
      if !world.lookupOk {
        return LookupFailed;
      }
      if !world.active {
        return NoMore;
      }
      var buf, st := queue.Current();
      if st == NotOpen {
        return Closed;
      }
      AdvanceContents(queue.view);
      if st != Ok {
        return NoMore;
      }
      var parsed := Unmarshal(buf, parses);
      BalancedOut(accepted, handled, waiting, delivered, parses);
      if parsed.Readable? {
        if !world.writeOk {
          return WriteFailed;
        }
        delivered := delivered + [parsed.m];
      }
      assert parsed.Unreadable? ==> delivered + [] == delivered;
      handled, waiting := handled + [buf], waiting[1..];
      var _ := queue.Advance();
      return if parsed.Readable? then Sent(|buf|) else Unparsable;
    }

    /**
     * One round of the retry loop: sends until an attempt fails. With a reachable node, a
     * flowing queue of readable records is delivered completely; a stuck one not at all.
     */
    method SendAll(world: nat -> World)
      requires Valid()
      modifies this`handled, this`waiting, this`delivered, queue, queue.segments
      ensures Valid() && accepted == old(accepted)
      ensures open && Flowing(old(queue.view)) && AllReadable(old(waiting), parses) && (forall i :: world(i) == UP)
              ==> waiting == [] && delivered == Messages(accepted, parses)
      ensures !open || Stuck(old(queue.view)) ==> queue.view == old(queue.view) && delivered == old(delivered)
    {
      hide Contents, Balanced, Messages, Unmarshal, Advanced, Usage, Queue.Valid, Flowing, AllReadable;
      var more, n := true, 0;
      ghost var good := open && Flowing(queue.view) && AllReadable(waiting, parses) && forall i :: world(i) == UP;
      while more
        invariant Valid() && Among(queue.segments, old(queue.segments))
        invariant good ==> Flowing(queue.view) && AllReadable(waiting, parses)
        invariant good && !more ==> waiting == []
        invariant !open || Stuck(old(queue.view)) ==> queue.view == old(queue.view) && delivered == old(delivered)
        decreases more, |waiting|
      {
        ghost var v := queue.view;
        if open {
          AdvanceContents(v);
        }
        if good {
          SuffixReadable(waiting, parses);
        }
        var out := SendWrite(world(n));
        more := out.Sent?;
        n := n + 1;
        if good {
          FlowingAdvance(v);
        }
      }
      if waiting == [] {
        BalancedEnd(accepted, handled, delivered, parses);
      }
    }
  }
}
