/** The hinted-handoff queue on values: what every run of its operations keeps. */
module QueueModel {
  import opened SegmentFile

  /** What one segment still holds, and its size on disk. */
  datatype Part = Part(unread: seq<Record>, size: nat)

  /** The unread records over all segments, first to last. */
  ghost function Contents(v: seq<Part>): seq<Record> {
    if v == [] then [] else v[0].unread + Contents(v[1..])
  }

  ghost function Usage(v: seq<Part>): nat {
    if v == [] then 0 else v[0].size + Usage(v[1..])
  }

  /** The head segment is used up although the queue still holds records. */
  ghost predicate Stuck(v: seq<Part>)
    requires v != []
  {
    v[0].unread == [] && Contents(v) != []
  }

  /** Every segment behind the head holds a record, and so does the head if it is not alone. */
  ghost predicate Flowing(v: seq<Part>) {
    && (|v| > 1 ==> v[0].unread != [])
    && forall i :: 1 <= i < |v| ==> v[i].unread != []
  }

  ghost function Fresh(): seq<Part> {
    [Part([], 8)]
  }

  /** Appending behind the tail, in a new segment if the tail is full. */
  ghost function AppendTo(v: seq<Part>, b: Record, max: nat): seq<Part>
    requires v != []
  {
    var t := v[|v| - 1];
    if t.size + |b| <= max then v[..|v| - 1] + [Part(t.unread + [b], t.size + |b| + 8)]
    else if 8 + |b| <= max then v + [Part([b], 16 + |b|)]
    else v + Fresh()
  }

  /** A record is taken if the tail or an empty segment has room for it. */
  ghost predicate Taken(v: seq<Part>, b: Record, max: nat)
    requires v != []
  {
    v[|v| - 1].size + |b| <= max || 8 + |b| <= max
  }

  /** Removes the first record of the head segment and, when that is used up, the segment. */
  ghost function Advanced(v: seq<Part>): seq<Part>
    requires v != []
  {
    if |v[0].unread| > 1 then [Part(v[0].unread[1..], v[0].size)] + v[1..]
    else if |v| > 1 then v[1..]
    else [Part([], v[0].size)]
  }

  /** Retrying in a new segment is what AppendTo does behind a full tail. */
  lemma {:induction false} RetryAppend(v: seq<Part>, b: Record, max: nat)
    requires v != [] && v[|v| - 1].size + |b| > max
    ensures AppendTo(v, b, max) == if 8 + |b| <= max then AppendTo(v + Fresh(), b, max) else v + Fresh()
  {
    assert (v + Fresh())[..|v|] == v;
    assert [] + [b] == [b];
  }

  /** Advancing the head segment and trimming it if it is used up. */
  lemma {:induction false} AdvanceHead(v: seq<Part>, p: Part)
    requires v != []
    requires p == Part(if v[0].unread == [] then [] else v[0].unread[1..], v[0].size)
    ensures Advanced(v) == if |v[0].unread| <= 1 && |v| > 1 then v[0 := p][1..] else v[0 := p]
  {
    assert v[0 := p] == [p] + v[1..];
    assert |v[0].unread| <= 1 ==> p == Part([], v[0].size);
  }

  // ---------------------------------------------------------------- one step

  lemma {:induction false} ContentsAppend(v: seq<Part>, w: seq<Part>)
    ensures Contents(v + w) == Contents(v) + Contents(w)
  {
    if v == [] {
      assert v + w == w;
    } else {
      assert (v + w)[1..] == v[1..] + w;
      ContentsAppend(v[1..], w);
    }
  }

  lemma {:induction false} UsageAppend(v: seq<Part>, w: seq<Part>)
    ensures Usage(v + w) == Usage(v) + Usage(w)
  {
    if v == [] {
      assert v + w == w;
    } else {
      assert (v + w)[1..] == v[1..] + w;
      UsageAppend(v[1..], w);
    }
  }

  lemma {:induction false} OnePart(p: Part)
    ensures Contents([p]) == p.unread && Usage([p]) == p.size
  {
  }

  lemma {:induction false} NoParts()
    ensures Contents([]) == [] && Usage([]) == 0
  {
  }

  lemma {:induction false} Lone(v: seq<Part>)
    requires |v| == 1
    ensures Contents(v) == v[0].unread
  {
    OnePart(v[0]);
    assert v == [v[0]];
  }

  lemma {:induction false} Split(v: seq<Part>)
    requires v != []
    ensures v == v[..|v| - 1] + [v[|v| - 1]]
    ensures Contents(v) == Contents(v[..|v| - 1]) + v[|v| - 1].unread
    ensures Usage(v) == Usage(v[..|v| - 1]) + v[|v| - 1].size
  {
    hide Contents, Usage;
    ContentsAppend(v[..|v| - 1], [v[|v| - 1]]);
    UsageAppend(v[..|v| - 1], [v[|v| - 1]]);
    OnePart(v[|v| - 1]);
  }

  /** Append adds at the end or changes nothing, and uses at most 16 bytes beyond the record. */
  lemma {:induction false} AppendContents(v: seq<Part>, b: Record, max: nat)
    requires v != []
    ensures AppendTo(v, b, max) != []
    ensures Contents(AppendTo(v, b, max)) == Contents(v) + if Taken(v, b, max) then [b] else []
    ensures Usage(v) < Usage(AppendTo(v, b, max)) <= Usage(v) + |b| + 16
  {
    hide Contents, Usage;
    var t := v[|v| - 1];
    Split(v);
    if t.size + |b| <= max {
      var p := Part(t.unread + [b], t.size + |b| + 8);
      ContentsAppend(v[..|v| - 1], [p]);
      UsageAppend(v[..|v| - 1], [p]);
      OnePart(p);
      assert Contents(v[..|v| - 1]) + (t.unread + [b]) == Contents(v[..|v| - 1]) + t.unread + [b];
    } else {
      var p := if 8 + |b| <= max then Part([b], 16 + |b|) else Part([], 8);
      ContentsAppend(v, [p]);
      UsageAppend(v, [p]);
      OnePart(p);
      assert Contents(v) + [] == Contents(v);
    }
  }

  /** Advance removes exactly the first record, and only if the head segment holds one. */
  lemma {:induction false} AdvanceContents(v: seq<Part>)
    requires v != []
    ensures Advanced(v) != []
    ensures v[0].unread == [] ==> Contents(Advanced(v)) == Contents(v)
    ensures v[0].unread != [] ==> Contents(v) != [] && Contents(v)[0] == v[0].unread[0]
    ensures v[0].unread != [] ==> Contents(Advanced(v)) == Contents(v)[1..]
    ensures Usage(Advanced(v)) <= Usage(v)
  {
    hide Contents, Usage;
    assert v == [v[0]] + v[1..];
    ContentsAppend([v[0]], v[1..]);
    UsageAppend([v[0]], v[1..]);
    OnePart(v[0]);
    if |v[0].unread| > 1 {
      var p := Part(v[0].unread[1..], v[0].size);
      ContentsAppend([p], v[1..]);
      UsageAppend([p], v[1..]);
      OnePart(p);
      assert (v[0].unread + Contents(v[1..]))[1..] == v[0].unread[1..] + Contents(v[1..]);
    } else {
      OnePart(Part([], v[0].size));
      NoParts();
      assert (v[0].unread + Contents(v[1..]))[|v[0].unread|..] == Contents(v[1..]);
    }
  }

  // ---------------------------------------------------------------- when the queue can be drained

  /** A flowing queue is not stuck, and stays flowing under Advance. */
  lemma {:induction false} FlowingAdvance(v: seq<Part>)
    requires v != [] && Flowing(v)
    ensures !Stuck(v) && Flowing(Advanced(v))
  {
    if |v| == 1 {
      Lone(v);
    }
  }

  /**
   * An append keeps a queue flowing exactly if the tail has room, or if a new
   * segment has room and the head segment is not used up.
   */
  lemma {:induction false} FlowingAppend(v: seq<Part>, b: Record, max: nat)
    requires v != [] && Flowing(v)
    ensures Flowing(AppendTo(v, b, max)) <==>
            v[|v| - 1].size + |b| <= max || (8 + |b| <= max && v[0].unread != [])
  {
    var w := AppendTo(v, b, max);
    if v[|v| - 1].size + |b| <= max {
      forall i | 1 <= i < |w| ensures w[i].unread != [] {
        assert i < |v| - 1 ==> w[i] == v[i];
      }
    } else {
      assert w[|v|].unread == if 8 + |b| <= max then [b] else [];
      assert w[0] == v[0];
    }
  }

  /** A stuck queue stays stuck under appends: only Advance, which no reader of a stuck queue calls, helps. */
  lemma {:induction false} StuckAppend(v: seq<Part>, b: Record, max: nat)
    requires v != [] && Stuck(v)
    ensures Stuck(AppendTo(v, b, max))
  {
    hide Contents, Usage;
    if |v| == 1 {
      Lone(v);
    }
    AppendContents(v, b, max);
    assert AppendTo(v, b, max)[0] == v[0];
  }

  /**
   * Exactly when an append sticks a queue: its head segment is read to the end, the record is taken, and it
   * does not go into the head segment.
   */
  lemma {:induction false} AppendSticks(v: seq<Part>, b: Record, max: nat)
    requires v != []
    ensures Stuck(AppendTo(v, b, max)) <==>
            Stuck(v) || (v[0].unread == [] && Taken(v, b, max) && (|v| > 1 || v[0].size + |b| > max))
  {
    hide Contents, Usage;
    if |v| == 1 {
      Lone(v);
    }
    AppendContents(v, b, max);
    if |v| > 1 || v[0].size + |b| > max {
      assert AppendTo(v, b, max)[0] == v[0];
    }
  }

  /** The first way: the only segment is read to the end and full, and a new one is added. */
  lemma {:induction false} BecomesStuck(s: nat, b: Record, max: nat)
    ensures var v := [Part([], s)];
            Stuck(AppendTo(v, b, max)) <==> s + |b| > max && 8 + |b| <= max
  {
    hide Contents;
    var v := [Part([], s)];
    AppendSticks(v, b, max);
    OnePart(v[0]);
  }

  /** Exactly when Advance does: it uses up the head segment, and the next one is used up with records behind it. */
  lemma {:induction false} AdvanceSticks(v: seq<Part>)
    requires v != []
    ensures Stuck(Advanced(v)) <==>
            |v[0].unread| <= 1 && |v| > 1 && v[1].unread == [] && Contents(v[1..]) != []
  {
    hide Contents;
    OnePart(Part([], v[0].size));
  }

  // ---------------------------------------------------------------- whole runs

  datatype Op = Append(b: Record) | Advance

  /** One operation of a queue that may use `maxSize` bytes on disk. */
  ghost function Step(v: seq<Part>, op: Op, max: nat, maxSize: nat): (w: seq<Part>)
    requires v != []
    ensures w != []
  {
    match op
    case Append(b) => if Usage(v) + |b| > maxSize then v else AppendContents(v, b, max); AppendTo(v, b, max)
    case Advance => AdvanceContents(v); Advanced(v)
  }

  ghost function Run(v: seq<Part>, ops: seq<Op>, max: nat, maxSize: nat): (w: seq<Part>)
    requires v != []
    ensures w != []
    decreases |ops|
  {
    if ops == [] then v else Run(Step(v, ops[0], max, maxSize), ops[1..], max, maxSize)
  }

  /** The record that an operation puts into the queue. */
  ghost function Took(v: seq<Part>, op: Op, max: nat, maxSize: nat): seq<Record>
    requires v != []
  {
    if op.Append? && Usage(v) + |op.b| <= maxSize && Taken(v, op.b, max) then [op.b] else []
  }

  /** The record that an operation takes off the head segment. */
  ghost function Gave(v: seq<Part>, op: Op): seq<Record>
    requires v != []
  {
    if op.Advance? && v[0].unread != [] then [v[0].unread[0]] else []
  }

  ghost function Accepted(v: seq<Part>, ops: seq<Op>, max: nat, maxSize: nat): seq<Record>
    requires v != []
    decreases |ops|
  {
    if ops == [] then []
    else Took(v, ops[0], max, maxSize) + Accepted(Step(v, ops[0], max, maxSize), ops[1..], max, maxSize)
  }

  ghost function Removed(v: seq<Part>, ops: seq<Op>, max: nat, maxSize: nat): seq<Record>
    requires v != []
    decreases |ops|
  {
    if ops == [] then [] else Gave(v, ops[0]) + Removed(Step(v, ops[0], max, maxSize), ops[1..], max, maxSize)
  }

  lemma {:induction false} StepContents(v: seq<Part>, op: Op, max: nat, maxSize: nat)
    requires v != []
    ensures Gave(v, op) + Contents(Step(v, op, max, maxSize)) == Contents(v) + Took(v, op, max, maxSize)
  {
    hide Contents, Usage;
    if op.Advance? {
      AdvanceContents(v);
      assert v[0].unread != [] ==> Contents(v) == [v[0].unread[0]] + Contents(v)[1..];
    } else {
      AppendContents(v, op.b, max);
    }
  }

  /** First in, first out: over any run nothing is lost, reordered or duplicated. */
  lemma {:induction false} Fifo(v: seq<Part>, ops: seq<Op>, max: nat, maxSize: nat)
    requires v != []
    ensures Removed(v, ops, max, maxSize) + Contents(Run(v, ops, max, maxSize))
         == Contents(v) + Accepted(v, ops, max, maxSize)
    decreases |ops|
  {
    hide Contents, Usage, Step, Took, Gave;
    if ops != [] {
      var w := Step(v, ops[0], max, maxSize);
      Fifo(w, ops[1..], max, maxSize);
      StepContents(v, ops[0], max, maxSize);
      Regroup(Gave(v, ops[0]), Removed(w, ops[1..], max, maxSize), Contents(Run(w, ops[1..], max, maxSize)),
              Contents(v), Contents(w), Took(v, ops[0], max, maxSize), Accepted(w, ops[1..], max, maxSize));
    }
  }

  lemma {:induction false} Regroup(g: seq<Record>, r: seq<Record>, c: seq<Record>,
                                   v: seq<Record>, w: seq<Record>, t: seq<Record>, a: seq<Record>)
    requires r + c == w + a && g + w == v + t
    ensures (g + r) + c == v + (t + a)
  {
    assert (g + r) + c == g + (r + c);
    assert g + (w + a) == (g + w) + a;
    assert (v + t) + a == v + (t + a);
  }

  /** The disk usage never exceeds the limit by more than 16 bytes. */
  lemma {:induction false} UsageBound(v: seq<Part>, ops: seq<Op>, max: nat, maxSize: nat)
    requires v != [] && Usage(v) <= maxSize + 16
    ensures Usage(Run(v, ops, max, maxSize)) <= maxSize + 16
    decreases |ops|
  {
    hide Contents, Usage;
    if ops != [] {
      if ops[0].Advance? {
        AdvanceContents(v);
      } else {
        AppendContents(v, ops[0].b, max);
      }
      UsageBound(Step(v, ops[0], max, maxSize), ops[1..], max, maxSize);
    }
  }

  /** A queue that is flowing is emptied, in order, by as many advances as it holds records. */
  lemma {:induction false} Drains(v: seq<Part>, ops: seq<Op>, max: nat, maxSize: nat)
    requires v != [] && Flowing(v)
    requires |ops| == |Contents(v)| && forall i :: 0 <= i < |ops| ==> ops[i] == Advance
    ensures Removed(v, ops, max, maxSize) == Contents(v) && Contents(Run(v, ops, max, maxSize)) == []
    decreases |ops|
  {
    hide Contents, Usage;
    if ops != [] {
      FlowingAdvance(v);
      NotStuck(v);
      AdvanceContents(v);
      Drains(Advanced(v), ops[1..], max, maxSize);
      assert Contents(v) == [v[0].unread[0]] + Contents(v)[1..];
    }
  }

  lemma {:induction false} NotStuck(v: seq<Part>)
    requires v != [] && !Stuck(v) && Contents(v) != []
    ensures v[0].unread != []
  {
  }

  // ---------------------------------------------------------------- whole runs and stuck queues

  /** The operation sticks the queue. */
  ghost predicate Sticks(v: seq<Part>, op: Op, max: nat, maxSize: nat)
    requires v != []
  {
    match op
    case Append(b) =>
      && Usage(v) + |b| <= maxSize && Taken(v, b, max)
      && v[0].unread == [] && (|v| > 1 || v[0].size + |b| > max)
    case Advance =>
      |v[0].unread| <= 1 && |v| > 1 && v[1].unread == [] && Contents(v[1..]) != []
  }

  ghost predicate SomeSticks(v: seq<Part>, ops: seq<Op>, max: nat, maxSize: nat)
    requires v != []
    decreases |ops|
  {
    ops != [] && (Sticks(v, ops[0], max, maxSize) || SomeSticks(Step(v, ops[0], max, maxSize), ops[1..], max, maxSize))
  }

  /** The queue is stuck at the start or after some of the operations. */
  ghost predicate GetsStuck(v: seq<Part>, ops: seq<Op>, max: nat, maxSize: nat)
    requires v != []
    decreases |ops|
  {
    Stuck(v) || (ops != [] && GetsStuck(Step(v, ops[0], max, maxSize), ops[1..], max, maxSize))
  }

  lemma {:induction false} StepSticks(v: seq<Part>, op: Op, max: nat, maxSize: nat)
    requires v != [] && !Stuck(v)
    ensures Stuck(Step(v, op, max, maxSize)) <==> Sticks(v, op, max, maxSize)
  {
    hide Contents, Usage, Stuck, AppendTo, Advanced, Taken;
    if op.Advance? {
      AdvanceSticks(v);
    } else {
      AppendSticks(v, op.b, max);
    }
  }

  /** Over any run, a queue gets stuck exactly by an append or an Advance of the two kinds. */
  lemma {:induction false} RunSticks(v: seq<Part>, ops: seq<Op>, max: nat, maxSize: nat)
    requires v != [] && !Stuck(v)
    ensures GetsStuck(v, ops, max, maxSize) <==> SomeSticks(v, ops, max, maxSize)
    decreases |ops|
  {
    hide Stuck, Step, Sticks;
    if ops != [] {
      var w := Step(v, ops[0], max, maxSize);
      StepSticks(v, ops[0], max, maxSize);
      if !Stuck(w) {
        RunSticks(w, ops[1..], max, maxSize);
      }
    }
  }

  lemma {:induction false} RunFirst(v: seq<Part>, a: Op, ops: seq<Op>, max: nat, maxSize: nat)
    requires v != []
    ensures Run(v, [a] + ops, max, maxSize) == Run(Step(v, a, max, maxSize), ops, max, maxSize)
  {
    hide Step;
    assert ([a] + ops)[1..] == ops;
  }

  /** A refused record leaves an empty segment behind; the next record sticks the queue. */
  lemma {:induction false} RefusalSticks(big: Record, b: Record, max: nat, maxSize: nat)
    requires 8 + |big| > max && 8 + |b| <= max && 8 + |big| <= maxSize && 16 + |b| <= maxSize
    ensures var one := Run(Fresh(), [Append(big)], max, maxSize);
            one == [Part([], 8), Part([], 8)] && !Stuck(one)
    ensures Stuck(Run(Fresh(), [Append(big), Append(b)], max, maxSize))
  {
    hide Run, Usage, Contents;
    var one := [Part([], 8), Part([], 8)];
    FreshPair();
    RunFirst(Fresh(), Append(big), [], max, maxSize);
    RunFirst(Fresh(), Append(big), [Append(b)], max, maxSize);
    RunFirst(one, Append(b), [], max, maxSize);
    assert [Append(big)] + [Append(b)] == [Append(big), Append(b)] && [Append(b)] + [] == [Append(b)];
    assert Fresh() + Fresh() == one;
    assert [Append(big)] + [] == [Append(big)];
    AppendSticks(one, b, max);
    RunNone(one, max, maxSize);
    RunNone(AppendTo(one, b, max), max, maxSize);
  }

  lemma {:induction false} FreshPair()
    ensures Usage(Fresh()) == 8 && Contents(Fresh()) == []
    ensures Usage([Part([], 8), Part([], 8)]) == 16 && Contents([Part([], 8), Part([], 8)]) == []
  {
    assert [Part([], 8), Part([], 8)][1..] == Fresh();
    assert Fresh()[1..] == [];
  }

  lemma {:induction false} RunNone(v: seq<Part>, max: nat, maxSize: nat)
    requires v != []
    ensures Run(v, [], max, maxSize) == v
  {
  }

  /** So does Advance when it reaches such a segment. */
  lemma {:induction false} EmptySegmentSticks(r: Record, b: Record, n: nat, m: nat)
    ensures var v := [Part([r], n), Part([], 8), Part([b], m)];
            !Stuck(v) && Stuck(Advanced(v))
  {
    var v := [Part([r], n), Part([], 8), Part([b], m)];
    hide Contents;
    AdvanceSticks(v);
    assert v[1..] == [Part([], 8)] + [Part([b], m)];
    ContentsAppend([Part([], 8)], [Part([b], m)]);
    OnePart(Part([b], m));
  }
}
