/**
 The merge iterator of TSM compaction for one key: it holds the key's blocks from all
 files, reads them window by window (or passes them through), and emits re-chunked blocks.
 */
module Compaction {
  import opened Sequences
  import opened Values
  import opened Windows
  import opened Rounds
  import opened Scatter
  import opened Progress
  import opened Lengths

  /** A block the iterator hands to the writer. */
  datatype OutBlock = OutBlock(minTime: int, maxTime: int, values: seq<Value>) {
    ghost predicate Proper() {
      values != [] && minTime == values[0].time && maxTime == values[|values| - 1].time
    }
  }

  function Encoded(values: seq<Value>): OutBlock
    requires values != []
  {
    OutBlock(values[0].time, values[|values| - 1].time, values)
  }

  ghost function Payloads(os: seq<OutBlock>): seq<seq<Value>> {
    seq(|os|, i requires 0 <= i < |os| => os[i].values)
  }

  /** The values of the blocks one after the other. */
  ghost function Flat(os: seq<OutBlock>): seq<Value> {
    Concat(Payloads(os))
  }

  ghost function OutLens(os: seq<OutBlock>): seq<nat> {
    seq(|os|, i requires 0 <= i < |os| => |os[i].values|)
  }

  lemma {:induction false} LensSnoc(os: seq<OutBlock>, o: OutBlock)
    ensures OutLens([]) == [] && OutLens(os + [o]) == OutLens(os) + [|o.values|]
  {
  }

  /** The blocks are as long as the first `i` of the key's blocks that are not read. */
  ghost predicate Mirrors(os: seq<OutBlock>, rs: seq<Reading>, i: nat)
    requires ValidReadings(rs) && i <= |rs|
  {
    OutLens(os) == Left(rs[..i])
  }

  lemma {:induction false} MirrorsMore(os: seq<OutBlock>, o: OutBlock, rs: seq<Reading>, i: nat)
    requires ValidReadings(rs) && i < |rs| && Mirrors(os, rs, i) && |o.values| == |rs[i].stored.values|
    ensures Mirrors(if rs[i].Done() then os else os + [o], rs, i + 1)
  {
    hide Left, OutLens;
    LeftSnoc(rs, i);
    LensSnoc(os, o);
    assert Left(rs[..i]) + [] == Left(rs[..i]);
  }

  lemma {:induction false} MirrorsNone(rs: seq<Reading>)
    requires ValidReadings(rs)
    ensures Mirrors([], rs, 0)
  {
    assert rs[..0] == [];
  }

  /** The lengths of what was emitted and of what is to come. */
  ghost predicate Accounts(out: seq<OutBlock>, ahead: seq<nat>, total: seq<nat>) {
    OutLens(out) + ahead == total
  }

  /** After the first queued block, if any, was handed out. */
  ghost predicate Follows(queue: seq<OutBlock>, before: seq<nat>, after: seq<nat>) {
    if queue == [] then after == before else before == [|queue[0].values|] + after
  }

  lemma {:induction false} FollowsIf(queue: seq<OutBlock>, before: seq<nat>, after: seq<nat>)
    ensures Follows(queue, before, after) <==>
            if queue == [] then after == before else before == [|queue[0].values|] + after
  {
  }

  lemma {:induction false} AccountsNext(out: seq<OutBlock>, queue: seq<OutBlock>, before: seq<nat>, ahead: seq<nat>,
                                        total: seq<nat>)
    requires Accounts(out, before, total) && Follows(queue, before, ahead)
    ensures Accounts(if queue == [] then out else out + [queue[0]], ahead, total)
  {
    hide OutLens;
    if queue != [] {
      LensSnoc(out, queue[0]);
      Regrouped(OutLens(out), [|queue[0].values|], ahead);
    }
  }

  lemma {:induction false} AccountsEnds(out: seq<OutBlock>, ahead: seq<nat>)
    ensures Accounts([], ahead, ahead) && (Accounts(out, [], ahead) ==> OutLens(out) == ahead)
  {
    assert [] + ahead == ahead && OutLens(out) + [] == OutLens(out);
  }

  lemma {:induction false} LensHead(os: seq<OutBlock>)
    requires os != []
    ensures OutLens(os) == [|os[0].values|] + OutLens(os[1..])
  {
  }

  lemma {:induction false} FlatSnoc(os: seq<OutBlock>, o: OutBlock)
    ensures Flat(os + [o]) == Flat(os) + o.values
  {
    hide Concat;
    assert Payloads(os + [o]) == Payloads(os) + [o.values];
    ConcatSnoc(Payloads(os), o.values);
  }

  lemma {:induction false} FlatNil()
    ensures Flat([]) == []
  {
  }

  lemma {:induction false} FlatHead(os: seq<OutBlock>)
    requires os != []
    ensures Flat(os) == os[0].values + Flat(os[1..])
  {
    hide Concat;
    assert Payloads(os) == [os[0].values] + Payloads(os[1..]);
    ConcatCons(os[0].values, Payloads(os[1..]));
  }

  /** The block starts with the first of the given values. */
  ghost predicate Begins(o: OutBlock, values: seq<Value>) {
    o.values != [] && values != [] && o.values[0] == values[0]
  }

  class Block {
    const stored: Stored
    const minTime: int
    const maxTime: int
    var readMin: int
    var readMax: int

    ghost predicate Valid() {
      stored.Valid() && minTime == stored.MinTime() && maxTime == stored.MaxTime()
    }

    ghost function State(): Reading
      reads this
    {
      Reading(stored, readMin, readMax)
    }

    constructor (stored: Stored)
      requires stored.Valid()
      ensures Valid() && this.stored == stored && State() == Unread(stored)
    {
      this.stored := stored;
      minTime := stored.values[0].time;
      maxTime := stored.values[|stored.values| - 1].time;
      readMin := MAX_TIME;
      readMax := MIN_TIME;
    }

    predicate OverlapsTimeRange(min: int, max: int) {
      minTime <= max && maxTime >= min
    }

    predicate Read()
      reads this
    {
      readMin <= minTime && readMax >= maxTime
    }

    predicate PartiallyRead()
      reads this
    {
      if readMin == MAX_TIME && readMax == MIN_TIME then false
      else readMin != minTime || readMax != maxTime
    }

    /** Widens the window down to this block and narrows it to this block's end, if they overlap. */
    method NarrowWindow(minTime: int, maxTime: int) returns (min: int, max: int)
      requires Valid()
      ensures TimeRange(min, max) == Narrow(TimeRange(minTime, maxTime), State())
    {
      min, max := minTime, maxTime;
      if OverlapsTimeRange(min, max) && !Read() {
        if this.minTime < min {
          min := this.minTime;
        }
        if this.maxTime > min && this.maxTime < max {
          max := this.maxTime;
        }
      }
    }

    method MarkRead(min: int, max: int)
      modifies this
      ensures readMin == if min < old(readMin) then min else old(readMin)
      ensures readMax == if max > old(readMax) then max else old(readMax)
    {
      if min < readMin {
        readMin := min;
      }
      if max > readMax {
        readMax := max;
      }
    }

    /** Decodes the block, takes its unread values in [min, max], marks them read, applies the tombstones. */
    method ReadWindow(min: int, max: int) returns (v: seq<Value>)
      requires Valid()
      modifies this
      ensures State() == Marked(old(State()), Fresh(old(State()), TimeRange(min, max)))
      ensures v == Alive(Fresh(old(State()), TimeRange(min, max)), stored.tombstones)
      ensures Ascending(v)
    {
      hide Within, Without, Alive;
      var s := stored.values;
      var a := new Value[|s|](i requires 0 <= i < |s| => s[i]);
      assert a[..|s|] == s;
      WithoutAscending(s, readMin, readMax);
      var n := Exclude(a, |s|, readMin, readMax);
      WithinAscending(a[..n], min, max);
      n := Include(a, n, min, max);
      ghost var fresh' := a[..n];
      assert fresh' == Fresh(old(State()), TimeRange(min, max));
      if n > 0 {
        MarkRead(a[0].time, a[n - 1].time);
      }
      n := ApplyTombstones(a, n, stored.tombstones);
      v := a[..n];
    }
  }

  method ApplyTombstones(a: array<Value>, n: nat, ts: seq<TimeRange>) returns (m: nat)
    requires n <= a.Length && Ascending(a[..n])
    modifies a
    ensures m <= n
    ensures a[..m] == Alive(old(a[..n]), ts) && Ascending(a[..m])
  {
    hide Within, Without;
    m := n;
    for i := 0 to |ts|
      invariant m <= n
      invariant a[..m] == Alive(old(a[..n]), ts[..i]) && Ascending(a[..m])
    {
      WithoutAscending(a[..m], ts[i].min, ts[i].max);
      assert ts[..i + 1][..i] == ts[..i];
      m := Exclude(a, m, ts[i].min, ts[i].max);
    }
    assert ts[..|ts|] == ts;
  }

  // ---------------------------------------------------------------- block sizes

  /** The block is one of the stored ones, passed on whole. */
  ghost predicate Passed(o: OutBlock, all: seq<Stored>) {
    exists i :: 0 <= i < |all| && all[i].values == o.values && all[i].tombstones == []
  }

  /**
   * The block holds exactly `size` values, or it was passed on whole; a full compaction only does so if it is
   * large.
   */
  ghost predicate Sized(o: OutBlock, all: seq<Stored>, size: nat, fast: bool) {
    |o.values| == size || (Passed(o, all) && (fast || |o.values| > size))
  }

  /** A last block may also be smaller. */
  ghost predicate Ending(o: OutBlock, all: seq<Stored>, size: nat) {
    |o.values| <= size || Passed(o, all)
  }

  ghost predicate Divided(os: seq<OutBlock>, all: seq<Stored>, size: nat, fast: bool, final: bool) {
    forall i :: 0 <= i < |os| ==>
      Sized(os[i], all, size, fast) || (final && i == |os| - 1 && Ending(os[i], all, size))
  }

  lemma {:induction false} DividedNone(all: seq<Stored>, size: nat, fast: bool, final: bool)
    ensures Divided([], all, size, fast, final)
  {
  }

  lemma {:induction false} DividedMore(os: seq<OutBlock>, o: OutBlock, all: seq<Stored>, size: nat, fast: bool)
    requires Divided(os, all, size, fast, false)
    ensures Divided(os, all, size, fast, true)
    ensures Sized(o, all, size, fast) ==>
            Divided(os + [o], all, size, fast, false) && Divided(os + [o], all, size, fast, true)
    ensures Ending(o, all, size) ==> Divided(os + [o], all, size, fast, true)
  {
    hide Sized, Ending;
  }

  lemma {:induction false} DividedTail(os: seq<OutBlock>, all: seq<Stored>, size: nat, fast: bool, final: bool)
    requires os != [] && Divided(os, all, size, fast, final)
    ensures Divided(os[1..], all, size, fast, final)
    ensures Sized(os[0], all, size, fast) || (final && |os| == 1 && Ending(os[0], all, size))
  {
    hide Sized, Ending;
    var tail := os[1..];
    assert forall i :: 0 <= i < |tail| ==> tail[i] == os[i + 1];
  }

  /** The head of a disjoint rest of the key, passed on. */
  lemma {:induction false} HeadPassed(all: seq<Stored>, rs: seq<Reading>, o: OutBlock)
    requires ValidReadings(rs) && LastOf(all, rs) && rs != [] && Disjoint(rs) && o.values == rs[0].stored.values
    ensures Passed(o, all)
  {
    assert rs[0].stored == all[|all| - |rs|];
  }

  lemma {:induction false} SizedIf(o: OutBlock, all: seq<Stored>, size: nat, fast: bool)
    ensures Passed(o, all) && (fast || |o.values| >= size) ==> Sized(o, all, size, fast)
    ensures Passed(o, all) ==> Ending(o, all, size)
    ensures |o.values| == size ==> Sized(o, all, size, fast)
    ensures |o.values| <= size ==> Ending(o, all, size)
  {
  }

  class KeyIterator {
    const size: nat
    const fast: bool
    var blocks: seq<Block>
    var merged: seq<OutBlock>
    var mergedValues: seq<Value>

    /** The key's blocks at the start, the values handed out so far, the time up to which blocks are consumed. */
    ghost const all: seq<Stored>
    ghost var emitted: seq<Value>
    ghost var frontier: int

    ghost predicate BlocksOk()
      reads this`blocks
    {
      && (forall i :: 0 <= i < |blocks| ==> blocks[i].Valid())
      && (forall i, j :: 0 <= i < j < |blocks| ==> blocks[i] != blocks[j])
    }

    ghost predicate Shape()
      reads this`blocks, this`merged, this`mergedValues
    {
      && size > 0 && BlocksOk()
      && Ascending(mergedValues) && MergedOk()
    }

    ghost predicate MergedOk()
      reads this`merged
    {
      forall i :: 0 <= i < |merged| ==> merged[i].Proper()
    }

    ghost function States(): (rs: seq<Reading>)
      requires BlocksOk()
      reads this`blocks, blocks
      ensures |rs| == |blocks| && ValidReadings(rs)
      ensures forall i :: 0 <= i < |rs| ==> rs[i] == blocks[i].State()
    {
      var bs := blocks;
      seq(|bs|, i requires 0 <= i < |bs| reads bs => bs[i].State())
    }

    /** `rs` is what is left of the key, and the output means what is gone. */
    ghost predicate Tracks(rs: seq<Reading>)
      reads this`emitted, this`merged, this`mergedValues, this`frontier
    {
      AllValid(all) && ValidReadings(rs) && InStep(all, size, rs, emitted + Flat(merged), mergedValues, frontier)
    }

    ghost predicate MergedSized(final: bool)
      reads this`merged
    {
      Divided(merged, all, size, fast, final)
    }

    /** The queued blocks have their sizes; the last of them may be smaller if nothing will follow it. */
    ghost predicate QueueSized()
      reads this
    {
      MergedSized(blocks == [] && mergedValues == [])
    }

    ghost predicate Synced()
      reads this, blocks
    {
      Shape() && Tracks(States())
    }

    /** The number of blocks with unread values. */
    ghost function Work(): nat
      requires Synced()
      reads this, blocks
    {
      Pending(States())
    }

    /** At most one block is queued, and it is a full chunk or the last one. */
    ghost predicate OneChunk()
      reads this
    {
      && |merged| <= 1
      && (merged != [] && |merged[0].values| != size ==>
         |merged[0].values| < size && blocks == [] && mergedValues == [])
    }

    /** The next merge will de-duplicate (or find nothing to do). */
    ghost predicate Dedups()
      requires Synced()
      reads this, blocks
    {
      mergedValues != [] || blocks == [] || !Disjoint(States())
    }

    /** The first round will take exactly the head block and leave an earlier block behind. */
    ghost predicate Stranding()
      requires Synced()
      reads this, blocks
    {
      Strands(States(), size) && mergedValues == []
    }

    ghost function HeadValues(): seq<Value>
      requires Synced()
      reads this, blocks
    {
      if blocks == [] then [] else blocks[0].stored.values
    }

    /** The key's blocks follow each other, and none of those left is partially read. */
    ghost predicate Lined()
      requires Synced()
      reads this, blocks
    {
      LinedUp(all) && Disjoint(States())
    }

    /** The lengths of the blocks that are not read. */
    ghost function Rest(): seq<nat>
      requires Synced()
      reads this, blocks
    {
      Left(States())
    }

    /** The lengths of the blocks to come, if the next one is filled up from the values that wait. */
    ghost function Filling(): seq<nat>
      requires Synced()
      reads this, blocks
    {
      Fill(|mergedValues|, Rest(), size, fast)
    }

    /** The lengths of the queued blocks and of those to come. */
    ghost function Ahead(): seq<nat>
      requires Synced()
      reads this, blocks
    {
      OutLens(merged) + Plan(|mergedValues|, Rest(), size, fast)
    }

    constructor (blocks: seq<Block>, size: nat, fast: bool)
      requires size > 0
      requires forall i :: 0 <= i < |blocks| ==> blocks[i].Valid() && blocks[i].State() == Unread(blocks[i].stored)
      requires forall i, j :: 0 <= i < j < |blocks| ==> blocks[i] != blocks[j]
      ensures this.size == size && this.fast == fast && this.blocks == blocks
      ensures merged == [] && mergedValues == [] && emitted == []
      ensures all == Contents(blocks)
      ensures Synced()
    {
      this.size := size;
      this.fast := fast;
      this.blocks := blocks;
      merged := [];
      mergedValues := [];
      emitted := [];
      frontier := START;
      all := Contents(blocks);
      new;
      Start();
    }

    lemma {:induction false} Start()
      requires size > 0 && BlocksOk() && merged == [] && mergedValues == [] && emitted == [] && frontier == START
      requires all == Contents(blocks)
      requires forall i :: 0 <= i < |blocks| ==> blocks[i].State() == Unread(blocks[i].stored)
      ensures Synced()
    {
      hide InStep, Flat, Ascending;
      assert Ascending(mergedValues) by { NoneAscending(); }
      StartKeeps(all, size);
      FlatNil();
      assert States() == UnreadAll(all);
      assert emitted + Flat(merged) == [];
    }

    method DropHead()
      requires Synced() && blocks != [] && blocks[0].Read()
      modifies this`blocks
      ensures Synced()
      ensures blocks == old(blocks)[1..] && !old(Stranding())
      ensures Work() == old(Work())
      ensures old(Lined()) ==> Lined() && Rest() == old(Rest())
    {
      hide InStep, AllValid, Ascending, Strands, LinedUp, Disjoint, Left;
      ghost var rs := States();
      assert rs[0].Done();
      LeftHead(rs);
      if Disjoint(rs) {
        DisjointTail(rs, 1);
      }
      DropKeeps(all, size, rs, emitted + Flat(merged), mergedValues, frontier);
      if Stranding() {
        StrandsNotDone(rs, size);
      }
      blocks := blocks[1..];
      assert States() == rs[1..];
    }

    /** Drops fully read blocks from the front. */
    method DropRead()
      requires Synced()
      modifies this`blocks
      ensures Synced()
      ensures |blocks| <= |old(blocks)| && blocks == old(blocks)[|old(blocks)| - |blocks|..]
      ensures blocks != [] ==> !blocks[0].Read()
      ensures old(Stranding()) ==> blocks == old(blocks)
      ensures Work() == old(Work())
      ensures old(Lined()) ==> Lined() && Rest() == old(Rest())
    {
      hide *;
      while |blocks| > 0 && blocks[0].Read()
        invariant Synced()
        invariant |blocks| <= |old(blocks)| && blocks == old(blocks)[|old(blocks)| - |blocks|..]
        invariant old(Stranding()) ==> blocks == old(blocks)
        invariant Work() == old(Work())
        invariant old(Lined()) ==> Lined() && Rest() == old(Rest())
      {
        DropHead();
      }
    }

    /** The time window of the next round. */
    method SelectWindow() returns (minTime: int, maxTime: int)
      requires Shape() && blocks != []
      ensures TimeRange(minTime, maxTime) == Window(States())
    {
      hide Narrow, WindowAfter, Ascending;
      ghost var rs := States();
      minTime := blocks[0].minTime;
      maxTime := blocks[0].maxTime;
      WindowStart(rs);
      for i := 0 to |blocks|
        invariant TimeRange(minTime, maxTime) == WindowAfter(rs, i)
      {
        WindowNext(rs, i);
        minTime, maxTime := blocks[i].NarrowWindow(minTime, maxTime);
      }
    }

    /** One block of a round: skip it, or read its part of the window and merge that in. */
    method ReadOne(i: nat, minTime: int, maxTime: int)
      requires Shape() && i < |blocks|
      modifies this`mergedValues, blocks[i]
      ensures Shape()
      ensures States() == old(States())[i := Step(old(States())[i], TimeRange(minTime, maxTime))]
      ensures View(mergedValues) == View(old(mergedValues)) + View(Part(old(States())[i], TimeRange(minTime, maxTime)))
    {
      hide View, Fresh, Alive, Marked;
      if !blocks[i].OverlapsTimeRange(minTime, maxTime) || blocks[i].Read() {
        EmptyView();
      } else {
        var v := blocks[i].ReadWindow(minTime, maxTime);
        mergedValues := MergeAscending(mergedValues, v);
      }
    }

    /** Merges in, block by block, the unread values of the window. */
    method ReadRound(minTime: int, maxTime: int)
      requires Shape()
      modifies this`mergedValues, blocks
      ensures Shape()
      ensures States() == StepAll(old(States()), TimeRange(minTime, maxTime))
      ensures View(mergedValues) == View(old(mergedValues)) + Parts(old(States()), TimeRange(minTime, maxTime))
    {
      hide View, Parts, PartsTo, Part, Step, StepAll, Stepped, Ascending;
      ghost var rs, w := States(), TimeRange(minTime, maxTime);
      RoundStart(rs, w, View(mergedValues));
      for i := 0 to |blocks|
        invariant Shape()
        invariant States() == Stepped(rs, i, w)
        invariant View(mergedValues) == View(old(mergedValues)) + PartsTo(rs, i, w)
      {
        RoundStep(rs, i, w, View(old(mergedValues)));
        ReadOne(i, minTime, maxTime);
      }
      RoundEnd(rs, w);
    }

    /** One round: every unread block gives its values of the window, the frontier moves to the window's end. */
    method Round()
      requires Synced() && blocks != [] && !blocks[0].Read() && |mergedValues| < size
      modifies this`mergedValues, this`frontier, blocks
      ensures Synced()
      ensures Work() < old(Work())
      ensures old(Stranding()) ==> mergedValues == old(HeadValues()) && |mergedValues| >= size
      ensures old(Lined()) ==> Lined() && Filling() == old(Filling())
    {
      hide *;
      Unpack();
      ghost var lined, f := Lined(), frontier;
      ghost var rs, before, pre, lone := States(), mergedValues, emitted + Flat(merged), Stranding();
      var minTime, maxTime := SelectWindow();
      RoundProgress(rs);
      ReadRound(minTime, maxTime);
      Ordered();
      if lone {
        LoneRound(rs, size, mergedValues);
      }
      RoundKeeps(all, size, rs, pre, before, mergedValues, frontier);
      if InOrder(all) {
        frontier := maxTime;
      }
      Repack();
      if lined {
        RoundFills(rs, pre, before, f);
      }
    }

    lemma {:induction false} RoundFills(rs: seq<Reading>, pre: seq<Value>, m: seq<Value>, f: int)
      requires Synced() && AllValid(all) && ValidReadings(rs) && LinedUp(all) && Disjoint(rs) && size > 0
      requires rs != [] && !rs[0].Done() && |m| < size && InStep(all, size, rs, pre, m, f)
      requires States() == StepAll(rs, Window(rs)) && pre == emitted + Flat(merged)
      ensures Lined() && Filling() == Fill(|m|, Left(rs), size, fast)
    {
      hide InStep, Left, LinedUp, Disjoint, StepAll, Window, Flat, Ascending;
      RoundLeft(all, size, rs, pre, m, f);
      TakenOver(all, size, rs, pre, m, f, States(), mergedValues, frontier);
    }

    /** What being in step consists of. */
    lemma {:induction false} Unpack()
      requires Synced()
      ensures size > 0 && Shape() && BlocksOk() && AllValid(all) && Ascending(mergedValues) && ValidReadings(States())
      ensures |States()| == |blocks| && Work() == Pending(States())
      ensures blocks != [] ==> (States()[0].Done() <==> blocks[0].Read())
      ensures InStep(all, size, States(), emitted + Flat(merged), mergedValues, frontier)
      ensures Stranding() ==>
              blocks != [] && Strands(States(), size) && mergedValues == [] && HeadValues() == States()[0].stored.values
      ensures (Lined() <==> LinedUp(all) && Disjoint(States())) && Rest() == Left(States())
      ensures Filling() == Fill(|mergedValues|, Rest(), size, fast)
      ensures Ahead() == OutLens(merged) + Plan(|mergedValues|, Rest(), size, fast)
    {
      hide Ascending, InStep, Pending, AllValid, LinedUp, Disjoint, Left, Fill, Plan;
    }

    lemma {:induction false} Ordered()
      requires Shape()
      ensures Ascending(mergedValues)
    {
    }

    lemma {:induction false} Repack()
      requires Shape() && BlocksOk() && AllValid(all)
               && InStep(all, size, States(), emitted + Flat(merged), mergedValues, frontier)
      ensures Synced() && Work() == Pending(States())
    {
      hide Ascending, InStep, Pending, AllValid;
    }

    /** Moves the first `size` merged values, or all of them if fewer, into a new block. */
    method Chunk(dst: seq<OutBlock>) returns (r: seq<OutBlock>)
      requires size > 0 && Ascending(mergedValues)
      requires forall i :: 0 <= i < |dst| ==> dst[i].Proper()
      modifies this`mergedValues
      ensures var n := if |old(mergedValues)| > size then size else |old(mergedValues)|;
              && r == (if n == 0 then dst else dst + [Encoded(old(mergedValues)[..n])])
              && mergedValues == old(mergedValues)[n..]
              && Flat(r) == Flat(dst) + old(mergedValues)[..n]
      ensures Ascending(mergedValues) && forall i :: 0 <= i < |r| ==> r[i].Proper()
    {
      hide Flat;
      if |mergedValues| > size {
        var values := mergedValues[..size];
        r := dst + [Encoded(values)];
        FlatSnoc(dst, Encoded(values));
        mergedValues := mergedValues[size..];
        return;
      }
      r := dst;
      if |mergedValues| > 0 {
        r := dst + [Encoded(mergedValues)];
        FlatSnoc(dst, Encoded(mergedValues));
        assert mergedValues[..|mergedValues|] == mergedValues;
        mergedValues := [];
      }
    }

    /** Rounds until a chunk is full or the blocks are exhausted. */
    method FillChunk()
      requires Synced() && size > 0
      modifies this`blocks, this`mergedValues, this`frontier, blocks
      ensures Synced()
      ensures |blocks| <= |old(blocks)| && blocks == old(blocks)[|old(blocks)| - |blocks|..]
      ensures |mergedValues| >= size || blocks == []
      ensures Work() < old(Work()) || (Work() == old(Work()) && mergedValues == old(mergedValues))
      ensures old(Stranding()) && old(mergedValues) == [] && old(blocks) != [] ==>
              mergedValues == old(HeadValues()) && |mergedValues| >= size
      ensures old(Lined()) ==> Lined() && Filling() == old(Filling())
    {
      hide *;
      ghost var lone := Stranding() && mergedValues == [] && blocks != [];
      ghost var head := HeadValues();
      while |mergedValues| < size && |blocks| > 0
        invariant Synced()
        invariant |blocks| <= |old(blocks)| && blocks == old(blocks)[|old(blocks)| - |blocks|..]
        invariant Work() < old(Work()) || (Work() == old(Work()) && mergedValues == old(mergedValues))
        invariant lone ==>
                    || (mergedValues == [] && Stranding() && HeadValues() == head && blocks == old(blocks))
                    || (mergedValues == head && |mergedValues| >= size)
        invariant old(Lined()) ==> Lined() && Filling() == old(Filling())
        decreases Work(), |blocks|
      {
        FillRound();
      }
    }

    /** Drops the blocks that are read and reads one round of the others. */
    method FillRound()
      requires Synced() && size > 0 && |blocks| > 0 && |mergedValues| < size
      modifies this`blocks, this`mergedValues, this`frontier, blocks
      ensures Synced()
      ensures |blocks| <= |old(blocks)| && blocks == old(blocks)[|old(blocks)| - |blocks|..]
      ensures Work() < old(Work()) || (Work() == old(Work()) && mergedValues == old(mergedValues) && blocks == [])
      ensures old(Stranding()) ==> mergedValues == old(HeadValues()) && |mergedValues| >= size
      ensures old(Lined()) ==> Lined() && Filling() == old(Filling())
    {
      hide *;
      Unpack();
      DropRead();
      Unpack();
      if |blocks| == 0 {
        return;
      }
      Round();
    }

    /** Cuts one chunk off the merged values and queues it. */
    method EmitChunk()
      requires Synced() && size > 0 && (|mergedValues| >= size || blocks == [])
      modifies this`merged, this`mergedValues
      ensures Synced() && Work() == old(Work())
      ensures var n := if |old(mergedValues)| > size then size else |old(mergedValues)|;
              && merged == (if n == 0 then old(merged) else old(merged) + [Encoded(old(mergedValues)[..n])])
              && mergedValues == old(mergedValues)[n..]
      ensures old(Lined()) ==> Lined() && Ahead() == OutLens(old(merged)) + old(Filling())
    {
      hide *;
      Unpack();
      MergedProper();
      ghost var os, lined := merged, Lined();
      ghost var rs, values, pre := States(), mergedValues, emitted + Flat(merged);
      ghost var k := if |values| > size then size else |values|;
      CutKeeps(all, size, rs, pre, values, k, frontier);
      var r := Chunk(merged);
      Regrouped(emitted, Flat(merged), values[..k]);
      merged := r;
      Reshape();
      Repack();
      if lined {
        Unpack();
        ChunkLens(os, values, rs);
      }
    }

    /** The chunk that is cut off is the next block of the plan. */
    lemma {:induction false} ChunkLens(os: seq<OutBlock>, m: seq<Value>, rs: seq<Reading>)
      requires size > 0 && ValidReadings(rs) && (|m| >= size || rs == [])
      requires var n := if |m| > size then size else |m|;
               merged == (if n == 0 then os else os + [Encoded(m[..n])]) && mergedValues == m[n..]
      ensures OutLens(merged) + Plan(|mergedValues|, Left(rs), size, fast) ==
              OutLens(os) + Fill(|m|, Left(rs), size, fast)
    {
      hide Plan, Left, OutLens;
      if rs == [] {
        LeftNone();
        PlanNothing(size, fast);
      }
      var n := if |m| > size then size else |m|;
      if n > 0 {
        LensSnoc(os, Encoded(m[..n]));
        Regrouped(OutLens(os), [n], Plan(|m| - n, Left(rs), size, fast));
      }
    }

    lemma {:induction false} Reshape()
      requires size > 0 && BlocksOk() && Ascending(mergedValues) && forall i :: 0 <= i < |merged| ==> merged[i].Proper()
      ensures Shape()
    {
    }

    /** The de-duplicating merge: fill, then cut off one chunk. */
    method CombineDedup()
      requires Synced() && merged == [] && size > 0
      modifies this`blocks, this`merged, this`mergedValues, this`frontier, blocks
      ensures Synced()
      ensures |blocks| <= |old(blocks)| && blocks == old(blocks)[|old(blocks)| - |blocks|..]
      ensures OneChunk() && (merged == [] ==> blocks == [] && mergedValues == [])
      ensures old(blocks) != [] || old(mergedValues) != [] ==>
                Smaller(Work(), |blocks|, |mergedValues|, old(Work()), |old(blocks)|, |old(mergedValues)|)
      ensures old(Stranding()) && old(mergedValues) == [] && old(blocks) != [] && old(HeadValues()) != [] ==>
                merged != [] && Begins(merged[0], old(HeadValues()))
      ensures old(Lined()) && (old(mergedValues) != [] || old(blocks) == []) ==> Lined() && Ahead() == old(Ahead())
    {
      hide Synced, Work, Stranding, HeadValues, Lined, Rest, Filling, Ahead, OutLens;
      if mergedValues != [] || blocks == [] {
        PlanFills();
      }
      FillChunk();
      EmitChunk();
    }

    /** With values waiting, or without blocks, the next block is filled up. */
    lemma {:induction false} PlanFills()
      requires Synced() && merged == [] && (mergedValues != [] || blocks == [])
      ensures Ahead() == OutLens(merged) + Filling()
    {
      hide Ascending, Tracks, Left, Fill;
      LeftNone();
      if mergedValues == [] {
        PlanNothing(size, fast);
      }
    }

    /** Passes the block through as it is, unless it was read already. */
    method Pass(b: Block, ghost rs: seq<Reading>)
      requires b.Valid() && rs != [] && rs[0] == b.State() && ValidReadings(rs) && Disjoint(rs)
      requires Tracks(rs) && mergedValues == [] && MergedOk()
      modifies this`merged, this`frontier
      ensures Tracks(rs[1..]) && MergedOk()
      ensures merged == old(merged) + if b.Read() then [] else [OutBlock(b.minTime, b.maxTime, b.stored.values)]
      ensures !b.Read() ==> Passed(merged[|merged| - 1], all)
    {
      hide View, InStep, InOrder, AllValid, Flat, Ascending, Disjoint, Passed;
      ghost var done := emitted + Flat(merged);
      if b.Read() {
        DropKeeps(all, size, rs, done, [], frontier);
        return;
      }
      var o := OutBlock(b.minTime, b.maxTime, b.stored.values);
      FlatSnoc(merged, o);
      InStepLast(all, size, rs, done, [], frontier);
      HeadPassed(all, rs, o);
      PassKeeps(all, size, rs, done, frontier);
      merged := merged + [o];
      assert emitted + Flat(merged) == done + b.stored.values;
      if InOrder(all) {
        frontier := b.maxTime;
      }
    }

    /** Decodes the block and merges it in, unless it was read already. */
    method Absorb(b: Block, ghost rs: seq<Reading>)
      requires b.Valid() && rs != [] && rs[0] == b.State() && ValidReadings(rs) && Disjoint(rs)
      requires Tracks(rs) && Ascending(mergedValues) && |mergedValues| < size
      modifies this`mergedValues, this`frontier, b
      ensures Tracks(rs[1..]) && Ascending(mergedValues)
      ensures rs[0].Done() ==> mergedValues == old(mergedValues)
      ensures b.Read()
    {
      hide View, InStep, InOrder, AllValid, Flat, Ascending, Disjoint;
      ghost var done, before := emitted + Flat(merged), mergedValues;
      if b.Read() {
        DropKeeps(all, size, rs, done, before, frontier);
        return;
      }
      var s := b.stored.values;
      var a := new Value[|s|](i requires 0 <= i < |s| => s[i]);
      assert a[..|s|] == s;
      var n := ApplyTombstones(a, |s|, b.stored.tombstones);
      assert a[..n] == s by { DisjointHead(rs); }
      b.MarkRead(b.minTime, b.maxTime);
      mergedValues := MergeAscending(mergedValues, a[..n]);
      AbsorbKeeps(all, size, rs, done, before, mergedValues, frontier);
      if InOrder(all) {
        frontier := b.maxTime;
      }
    }

    /** Passes blocks through from index `from`: all of them, or up to the first unread block that is not full. */
    method PassBlocks(from: nat, everything: bool, ghost rs: seq<Reading>) returns (i: nat)
      requires Shape() && BlocksOk() && States() == rs && Disjoint(rs) && from <= |blocks|
      requires Tracks(rs[from..]) && mergedValues == []
      modifies this`merged, this`frontier
      ensures from <= i <= |blocks| && (everything ==> i == |blocks|)
      ensures Tracks(rs[i..]) && Shape() && MergedOk() && Ascending(mergedValues)
      ensures (!everything || fast) && old(MergedSized(false)) ==> MergedSized(false)
      ensures old(Mirrors(merged, rs, from)) ==> Mirrors(merged, rs, i)
      ensures !everything ==> LargeFrom(rs, from, i, size)
      ensures !everything && i < |rs| ==> !rs[i].Done() && |rs[i].stored.values| < size
    {
      hide Disjoint, Tracks, Ascending, MergedOk, MergedSized, Mirrors, LargeFrom;
      i := from;
      LargeNone(rs, from, size);
      while i < |blocks|
        invariant from <= i <= |blocks|
        invariant old(Mirrors(merged, rs, from)) ==> Mirrors(merged, rs, i)
        invariant !everything ==> LargeFrom(rs, from, i, size)
        invariant Tracks(rs[i..]) && MergedOk()
        invariant (!everything || fast) && old(MergedSized(false)) ==> MergedSized(false)
      {
        if !everything && !blocks[i].Read() && |blocks[i].stored.values| < size {
          return;
        }
        LargeMore(rs, from, i, size);
        PassAt(i, rs);
        i := i + 1;
      }
    }

    method PassAt(i: nat, ghost rs: seq<Reading>)
      requires Shape() && BlocksOk() && States() == rs && Disjoint(rs) && i < |blocks|
      requires Tracks(rs[i..]) && mergedValues == [] && MergedOk()
      modifies this`merged, this`frontier
      ensures Tracks(rs[i + 1..]) && MergedOk()
      ensures old(MergedSized(false)) ==> MergedSized(true)
      ensures old(MergedSized(false)) && (fast || blocks[i].Read() || |blocks[i].stored.values| >= size) ==>
                MergedSized(false)
      ensures old(Mirrors(merged, rs, i)) ==> Mirrors(merged, rs, i + 1)
    {
      hide Disjoint, Tracks, Ascending, MergedOk, Divided, Passed, Sized, Ending, Mirrors;
      DisjointTail(rs, i);
      var b := blocks[i];
      ghost var o := OutBlock(b.minTime, b.maxTime, b.stored.values);
      if MergedSized(false) {
        DividedMore(merged, o, all, size, fast);
      }
      Pass(b, rs[i..]);
      assert b.Read() ==> merged == old(merged);
      if old(Mirrors(merged, rs, i)) {
        MirrorsMore(old(merged), o, rs, i);
      }
      SizedIf(o, all, size, fast);
      assert rs[i..][1..] == rs[i + 1..];
    }

    /** Drops the first `i` blocks. */
    method DropTo(i: nat, ghost rs: seq<Reading>)
      requires BlocksOk() && MergedOk() && Ascending(mergedValues) && size > 0
      requires ValidReadings(rs) && |rs| == |blocks| && i <= |blocks| && Untouched(i, rs) && Tracks(rs[i..])
      modifies this`blocks
      ensures Synced() && blocks == old(blocks)[i..] && Work() <= Pending(rs) && States() == rs[i..]
    {
      hide Tracks, Ascending, Pending;
      PendingTail(rs, i);
      blocks := blocks[i..];
      assert States() == rs[i..];
    }

    /** From index `i` on the blocks are as recorded in `rs`. */
    ghost predicate Untouched(i: nat, rs: seq<Reading>)
      reads this`blocks, blocks
    {
      |rs| == |blocks| && forall k :: i <= k < |blocks| ==> blocks[k].State() == rs[k]
    }

    lemma {:induction false} UntouchedFrom(i: nat)
      requires BlocksOk()
      ensures Untouched(i, States())
    {
    }

    method AbsorbAt(i: nat, ghost rs: seq<Reading>)
      requires BlocksOk() && i < |blocks| && Untouched(i, rs) && ValidReadings(rs) && Disjoint(rs)
      requires Tracks(rs[i..]) && Ascending(mergedValues) && |mergedValues| < size
      modifies this`mergedValues, this`frontier, blocks[i]
      ensures Untouched(i + 1, rs) && Tracks(rs[i + 1..]) && Ascending(mergedValues)
      ensures AllValid(all) && LinedUp(all) ==>
                FillFrom(|mergedValues|, rs, i + 1, size, fast) == FillFrom(|old(mergedValues)|, rs, i, size, fast)
    {
      hide Disjoint, Ascending, InStep, Left, LinedUp, Flat;
      DisjointTail(rs, i);
      ghost var m, f := mergedValues, frontier;
      Absorb(blocks[i], rs[i..]);
      assert rs[i..][1..] == rs[i + 1..];
      LeftHead(rs[i..]);
      if LinedUp(all) && !rs[i].Done() {
        TakenOver(all, size, rs[i..], emitted + Flat(merged), m, f, rs[i + 1..], mergedValues, frontier);
      }
    }

    /** Combines blocks from index `from` until a chunk is full, then drops what was consumed. */
    method AbsorbBlocks(from: nat, ghost rs: seq<Reading>)
      requires BlocksOk() && MergedOk() && ValidReadings(rs) && |rs| == |blocks| && Disjoint(rs) && from <= |blocks|
               && blocks != []
      requires Untouched(from, rs) && Tracks(rs[from..]) && mergedValues == [] && Ascending(mergedValues) && size > 0
      modifies this`blocks, this`mergedValues, this`frontier, blocks
      ensures Synced()
      ensures |blocks| < |old(blocks)| && blocks == old(blocks)[|old(blocks)| - |blocks|..]
      ensures mergedValues == [] ==> blocks == []
      ensures |mergedValues| >= size || blocks == []
      ensures from == |old(blocks)| ==> blocks == [] && mergedValues == []
      ensures Work() <= Pending(rs)
      ensures LinedUp(all) ==> Lined() && Filling() == FillFrom(0, rs, from, size, fast)
    {
      hide *;
      KeyValid(rs[from..]);
      var i := from;
      while i < |blocks| && |mergedValues| < size
        invariant from <= i <= |blocks| && blocks == old(blocks) && BlocksOk() && MergedOk()
        invariant Untouched(i, rs) && Tracks(rs[i..]) && Ascending(mergedValues)
        invariant i == from ==> mergedValues == []
        invariant LinedUp(all) ==>
                    FillFrom(|mergedValues|, rs, i, size, fast) == FillFrom(0, rs, from, size, fast)
      {
        AbsorbAt(i, rs);
        i := i + 1;
      }
      DropTo(i, rs);
      Unpack();
      DisjointTail(rs, i);
      FillFromIs(|mergedValues|, rs, i, size, fast);
    }

    lemma {:induction false} NothingAhead()
      requires Synced() && blocks == [] && merged == [] && mergedValues == []
      ensures Ahead() == []
    {
      hide Tracks, Ascending;
      LeftNone();
      PlanNothing(size, fast);
    }

    lemma {:induction false} OpenFrom(rs: seq<Reading>)
      requires AllValid(all) && LinedUp(all) && size > 0 && Tracks(rs) && (rs != [] ==> !rs[0].Done())
      ensures |Left(rs)| == |rs|
    {
      hide InStep, Left, LinedUp, Flat;
      AllOpen(all, size, rs, emitted + Flat(merged), mergedValues, frontier);
    }

    lemma {:induction false} MirrorLens(rs: seq<Reading>, i: nat)
      requires ValidReadings(rs) && i <= |rs| && Mirrors(merged, rs, i)
      ensures OutLens(merged) == Left(rs[..i])
    {
    }

    lemma {:induction false} NoLens()
      ensures merged == [] ==> OutLens(merged) == []
    {
    }

    lemma {:induction false} KeyValid(rs: seq<Reading>)
      requires Tracks(rs)
      ensures AllValid(all)
    {
    }

    /** Passes on the large blocks in front, on the fast path all blocks, and a single last one. */
    method PassLarge(ghost rs: seq<Reading>) returns (i: nat)
      requires Shape() && BlocksOk() && States() == rs && Tracks(rs) && size > 0
      requires Disjoint(rs) && merged == [] && mergedValues == []
      modifies this`merged, this`frontier
      ensures i <= |blocks| && Tracks(rs[i..]) && Shape() && MergedOk() && Ascending(mergedValues)
      ensures MergedSized(false) || (MergedSized(true) && i == |blocks|)
      ensures AllValid(all) && LinedUp(all) ==>
                OutLens(merged) + FillFrom(0, rs, i, size, fast) == Plan(0, Left(rs), size, fast)
    {
      hide *;
      assert rs[0..] == rs;
      MirrorsNone(rs);
      DividedNone(all, size, fast, false);
      SizedNow();
      i := PassBlocks(0, false, rs);
      ghost var p := i;
      if AllValid(all) && LinedUp(all) {
        OpenFrom(rs[p..]);
      }
      if fast {
        i := PassBlocks(i, true, rs);
      }
      if i == |blocks| - 1 {
        PassAt(i, rs);
        i := i + 1;
        StillShaped();
      }
      if AllValid(all) && LinedUp(all) {
        PlanPasses(rs, p, i, size, fast);
        MirrorLens(rs, i);
      }
    }

    lemma {:induction false} StillShaped()
      requires size > 0 && BlocksOk() && MergedOk() && Ascending(mergedValues)
      ensures Shape()
    {
    }

    /** The merge of blocks that need no de-duplication: full blocks pass, small ones are combined. */
    method CombineDisjoint()
      requires Shape() && BlocksOk() && Tracks(States()) && size > 0
      requires Disjoint(States()) && merged == [] && mergedValues == [] && blocks != []
      modifies this`blocks, this`merged, this`mergedValues, this`frontier, blocks
      ensures Synced()
      ensures |blocks| < |old(blocks)| && blocks == old(blocks)[|old(blocks)| - |blocks|..]
      ensures merged == [] ==> blocks == [] && mergedValues == []
      ensures QueueSized()
      ensures Work() <= Pending(old(States()))
      ensures AllValid(all) && LinedUp(all) ==> Lined() && Ahead() == Plan(0, old(Left(States())), size, fast)
    {
      hide *;
      ghost var rs := States();
      var i := PassLarge(rs);
      UntouchedFrom(i);
      AbsorbBlocks(i, rs);
      ghost var os, m := merged, mergedValues;
      SizedNow();
      EmitChunk();
      Queued(os, m);
    }

    lemma {:induction false} SizedNow()
      ensures MergedSized(false) == Divided(merged, all, size, fast, false)
      ensures MergedSized(true) == Divided(merged, all, size, fast, true)
    {
      hide Divided;
    }

    /** Queueing a chunk behind blocks that have their sizes, or nothing behind a smaller one. */
    lemma {:induction false} Queued(os: seq<OutBlock>, m: seq<Value>)
      requires size > 0 && (|m| >= size || blocks == [])
      requires Divided(os, all, size, fast, false) || (Divided(os, all, size, fast, true) && m == [])
      requires var n := if |m| > size then size else |m|;
               merged == (if n == 0 then os else os + [Encoded(m[..n])]) && mergedValues == m[n..]
      ensures QueueSized()
    {
      hide Divided, Sized, Ending;
      var n := if |m| > size then size else |m|;
      if n > 0 {
        var o := Encoded(m[..n]);
        DividedMore(os, o, all, size, fast);
        SizedIf(o, all, size, fast);
      } else if Divided(os, all, size, fast, false) {
        DividedMore(os, OutBlock(0, 0, []), all, size, fast);
      }
    }

    lemma {:induction false} ChunkSized()
      requires OneChunk()
      ensures QueueSized()
    {
    }

    lemma {:induction false} EmptySized()
      ensures merged == [] ==> QueueSized()
    {
    }

    /** Whether the blocks have to be de-duplicated. */
    method NeedsDedup() returns (dedup: bool)
      requires Shape() && blocks != []
      ensures dedup <==> !Disjoint(States())
    {
      hide Ascending;
      ghost var rs := States();
      dedup := |blocks[0].stored.tombstones| > 0 || blocks[0].PartiallyRead();
      var i := 1;
      while !dedup && i < |blocks|
        invariant 1 <= i <= |blocks|
        invariant !dedup ==> Disjoint(rs[..i])
        invariant dedup ==> !Disjoint(rs)
      {
        dedup := blocks[i].PartiallyRead() || blocks[i].minTime <= blocks[i - 1].maxTime
            || |blocks[i].stored.tombstones| > 0;
        DisjointNext(rs, i);
        i := i + 1;
      }
      assert rs[..|rs|] == rs;
    }

    /** Merges the next blocks of the key into `merged`. */
    method MergeFloat()
      requires Synced() && merged == []
      modifies this`blocks, this`merged, this`mergedValues, this`frontier, blocks
      ensures Synced()
      ensures |blocks| <= |old(blocks)| && blocks == old(blocks)[|old(blocks)| - |blocks|..]
      ensures merged == [] ==> blocks == [] && mergedValues == []
      ensures old(blocks) != [] || old(mergedValues) != [] ==>
                Smaller(Work(), |blocks|, |mergedValues|, old(Work()), |old(blocks)|, |old(mergedValues)|)
      ensures QueueSized() && (old(Dedups()) ==> OneChunk())
      ensures old(Stranding()) ==>
                merged != [] && Begins(merged[0], old(HeadValues()))
      ensures old(Lined()) ==> Lined() && Ahead() == old(Ahead())
    {
      hide *;
      if |blocks| == 0 && |merged| == 0 && |mergedValues| == 0 {
        NothingLeft();
        EmptySized();
        return;
      }
      var dedup := ChoosePath();
      if dedup {
        MergeDedup();
      } else {
        MergeDisjoint();
      }
    }

    /** The merge while values wait or the blocks need it. */
    method MergeDedup()
      requires Synced() && merged == [] && Dedups() && (Stranding() ==> blocks != [] && HeadValues() != [])
      modifies this`blocks, this`merged, this`mergedValues, this`frontier, blocks
      ensures Synced()
      ensures |blocks| <= |old(blocks)| && blocks == old(blocks)[|old(blocks)| - |blocks|..]
      ensures merged == [] ==> blocks == [] && mergedValues == []
      ensures old(blocks) != [] || old(mergedValues) != [] ==>
                Smaller(Work(), |blocks|, |mergedValues|, old(Work()), |old(blocks)|, |old(mergedValues)|)
      ensures QueueSized() && OneChunk()
      ensures old(Stranding()) ==> merged != [] && Begins(merged[0], old(HeadValues()))
      ensures old(Lined()) ==> Lined() && Ahead() == old(Ahead())
    {
      hide *;
      if Lined() {
        LinedPath();
      }
      StrandingEmpty();
      CombineDedup();
      ChunkSized();
    }

    lemma {:induction false} StrandingEmpty()
      requires Synced()
      ensures size > 0 && (Stranding() ==> mergedValues == [])
    {
    }

    /** The merge of blocks that need no de-duplication. */
    method MergeDisjoint()
      requires Synced() && merged == [] && !Dedups()
      modifies this`blocks, this`merged, this`mergedValues, this`frontier, blocks
      ensures Synced()
      ensures |blocks| <= |old(blocks)| && blocks == old(blocks)[|old(blocks)| - |blocks|..]
      ensures merged == [] ==> blocks == [] && mergedValues == []
      ensures Smaller(Work(), |blocks|, |mergedValues|, old(Work()), |old(blocks)|, |old(mergedValues)|)
      ensures QueueSized()
      ensures old(Lined()) ==> Lined() && Ahead() == old(Ahead())
    {
      hide *;
      if Lined() {
        LinedPath();
      }
      PassPath();
      ghost var work, left, values := Work(), |blocks|, |mergedValues|;
      CombineDisjoint();
      SmallerIf(Work(), |blocks|, |mergedValues|, work, left, values);
    }

    lemma {:induction false} PassPath()
      requires Synced() && !Dedups()
      ensures size > 0 && Shape() && BlocksOk() && Tracks(States()) && Work() == Pending(States())
      ensures blocks != [] && mergedValues == [] && Disjoint(States())
    {
      hide Tracks, Ascending, Disjoint, Pending;
    }

    /** A key whose blocks follow each other is only de-duplicated while values wait. */
    lemma {:induction false} LinedPath()
      requires Synced() && merged == [] && Lined()
      ensures AllValid(all) && LinedUp(all) && (Dedups() <==> mergedValues != [] || blocks == [])
      ensures mergedValues == [] ==> Ahead() == Plan(0, Left(States()), size, fast)
    {
      hide Tracks, Ascending, Disjoint, Plan, Left, LinedUp;
      WasValid();
      NoLens();
      assert [] + Plan(|mergedValues|, Rest(), size, fast) == Plan(|mergedValues|, Rest(), size, fast);
    }

    lemma {:induction false} NothingLeft()
      requires Synced() && blocks == [] && merged == []
      ensures OneChunk() && !Stranding()
    {
    }

    /** Whether the next merge de-duplicates. */
    method ChoosePath() returns (dedup: bool)
      requires Synced() && (blocks != [] || mergedValues != [])
      ensures (dedup <==> Dedups())
              && (Stranding() ==> dedup && blocks != [] && mergedValues == [] && HeadValues() != [])
    {
      hide Tracks, Ascending, Disjoint, Pending;
      dedup := |mergedValues| != 0;
      if |blocks| > 0 && !dedup {
        dedup := NeedsDedup();
        if Stranding() {
          StrandsNotDone(States(), size);
        }
      }
    }

    lemma {:induction false} StrandingBlocks()
      requires Synced() && Stranding()
      ensures blocks != []
    {
    }

    lemma {:induction false} WasValid()
      requires Synced()
      ensures AllValid(all)
    {
    }

    lemma {:induction false} InitiallyStranding()
      requires Synced() && mergedValues == [] && all == Contents(blocks)
      requires forall i :: 0 <= i < |blocks| ==> blocks[i].State() == Unread(blocks[i].stored)
      requires AllValid(all) && LeavesBehind(all, size)
      ensures Stranding() && all != [] && HeadValues() == all[0].values
    {
      hide Ascending, Tracks, Strands, BlockView;
      assert States() == UnreadAll(all);
    }

    lemma {:induction false} InitiallyLined()
      requires AllValid(all) && LinedUp(all) && size > 0 && merged == [] && mergedValues == []
      requires Synced() && all == Contents(blocks)
      requires forall i :: 0 <= i < |blocks| ==> blocks[i].State() == Unread(blocks[i].stored)
      ensures Lined() && Ahead() == Plan(0, Lens(all), size, fast)
    {
      hide Ascending, Tracks, LinedUp, Left, Plan, Disjoint, Lens;
      assert States() == UnreadAll(all);
      LinedUpDisjoint(all);
      LeftUnread(all);
      NoLens();
      assert [] + Plan(0, Lens(all), size, fast) == Plan(0, Lens(all), size, fast);
    }

    /** The blocks left are always the last ones of the key. */
    lemma {:induction false} TombstonesDedup(bs: seq<Block>)
      requires Synced() && LastTombstoned(Contents(bs))
      requires |blocks| <= |bs| && blocks == bs[|bs| - |blocks|..]
      ensures Dedups()
    {
      hide Ascending, Tracks;
      if blocks != [] {
        assert blocks[|blocks| - 1] == bs[|bs| - 1];
        assert States()[|blocks| - 1].stored.tombstones != [];
      }
    }

    lemma {:induction false} QueueHead()
      requires merged != [] && QueueSized()
      ensures Sized(merged[0], all, size, fast) ||
              (Ending(merged[0], all, size) && |merged| == 1 && blocks == [] && mergedValues == [])
    {
      hide Sized, Ending;
    }

    lemma {:induction false} ChunkHead()
      requires merged != [] && OneChunk()
      ensures |merged| == 1 && |merged[0].values| <= size
      ensures |merged[0].values| == size || (blocks == [] && mergedValues == [])
    {
    }

    lemma {:induction false} EmptyIsOneChunk()
      ensures merged == [] ==> OneChunk()
    {
    }

    lemma {:induction false} MergedProper()
      requires Synced()
      ensures forall i :: 0 <= i < |merged| ==> merged[i].Proper()
    {
    }

    /** At the end everything has been handed out. */
    lemma {:induction false} Exhausted()
      requires Synced() && blocks == [] && merged == [] && mergedValues == []
      ensures AllValid(all) && size > 0 && View(emitted) == Yield(all)
      ensures InOrder(all) ==> Ascending(emitted) && View(emitted) == Meaning(all)
      ensures Apart(all) ==> View(emitted) == Meaning(all) && (Ascending(emitted) <==> AllWellCut(all, size))
    {
      hide View, Meaning, Ascending, InOrder, AllValid, Apart, InStep, Yield, AllWellCut;
      assert States() == [];
      FlatNil();
      assert emitted + Flat(merged) == emitted;
      EndKeeps(all, size, emitted, frontier);
    }

    /** Hands out the first queued block. */
    method Pop()
      requires Synced() && merged != []
      modifies this`merged, this`emitted
      ensures Synced() && Work() == old(Work()) && Dedups() == old(Dedups()) && (old(QueueSized()) ==> QueueSized())
      ensures merged == old(merged)[1..] && emitted == old(emitted) + old(merged)[0].values
      ensures Lined() == old(Lined()) && old(Ahead()) == [|old(merged)[0].values|] + Ahead()
    {
      hide InStep, AllValid, Ascending, Pending, Flat, Divided, Disjoint, LinedUp, Left, Plan, OutLens;
      LensHead(merged);
      Regrouped([|merged[0].values|], OutLens(merged[1..]), Plan(|mergedValues|, Rest(), size, fast));
      FlatHead(merged);
      assert emitted + Flat(merged) == (emitted + merged[0].values) + Flat(merged[1..]);
      if QueueSized() {
        DividedTail(merged, all, size, fast, blocks == [] && mergedValues == []);
      }
      emitted := emitted + merged[0].values;
      merged := merged[1..];
    }

    /** Merges until a block is queued; false when there is nothing left. */
    method Refill() returns (ok: bool)
      requires Synced() && merged == []
      modifies this`blocks, this`merged, this`mergedValues, this`frontier, blocks
      ensures Synced() && QueueSized()
      ensures |blocks| <= |old(blocks)| && blocks == old(blocks)[|old(blocks)| - |blocks|..]
      ensures ok <==> merged != []
      ensures !ok ==> blocks == [] && mergedValues == []
      ensures old(blocks) == [] && old(mergedValues) == [] ==> !ok
      ensures ok ==> Smaller(Work(), |blocks|, |mergedValues|, old(Work()), |old(blocks)|, |old(mergedValues)|)
      ensures old(Dedups()) ==> OneChunk()
      ensures old(Stranding()) ==> merged != [] && Begins(merged[0], old(HeadValues()))
      ensures old(Lined()) ==> Lined() && Ahead() == old(Ahead())
    {
      hide *;
      EmptyIsOneChunk();
      EmptySized();
      if Stranding() {
        StrandingBlocks();
      }
      if |mergedValues| > 0 {
        MergeFloat();
        if |merged| > 0 || |mergedValues| > 0 {
          return true;
        }
      }
      if |blocks| > 0 {
        MergeFloat();
        if |merged| > 0 || |mergedValues| > 0 {
          return true;
        }
      }
      return false;
    }

    /** Moves to the next block of the key; false when the key is exhausted. */
    method Next() returns (ok: bool)
      requires Synced() && QueueSized()
      modifies this`blocks, this`merged, this`mergedValues, this`emitted, this`frontier, blocks
      ensures Synced() && QueueSized()
      ensures |blocks| <= |old(blocks)| && blocks == old(blocks)[|old(blocks)| - |blocks|..]
      ensures emitted == old(emitted) + if old(merged) == [] then [] else old(merged)[0].values
      ensures ok <==> merged != []
      ensures !ok ==> blocks == [] && mergedValues == []
      ensures old(blocks) == [] && old(mergedValues) == [] && |old(merged)| <= 1 ==> !ok
      ensures ok ==>
                || Smaller(Work(), |blocks|, |mergedValues|, old(Work()), |old(blocks)|, |old(mergedValues)|)
                || (Work() == old(Work()) && |blocks| == |old(blocks)| && |mergedValues| == |old(mergedValues)|
                   && |merged| < |old(merged)|)
      ensures |old(merged)| <= 1 && old(Dedups()) ==> OneChunk()
      ensures old(Stranding()) && old(merged) == [] ==>
                merged != [] && Begins(merged[0], old(HeadValues()))
      ensures old(Lined()) ==> Lined() && Follows(old(merged), old(Ahead()), Ahead())
    {
      hide *;
      if |merged| > 0 {
        Pop();
        FollowsIf(old(merged), old(Ahead()), Ahead());
        if |merged| > 0 {
          return true;
        }
      }
      ok := Refill();
      FollowsIf(old(merged), old(Ahead()), Ahead());
    }
  }

  /** The last listed block carries tombstones. */
  ghost predicate LastTombstoned(all: seq<Stored>) {
    all != [] && all[|all| - 1].tombstones != []
  }

  /** What the given blocks hold. */
  ghost function Contents(blocks: seq<Block>): seq<Stored> {
    seq(|blocks|, i requires 0 <= i < |blocks| => blocks[i].stored)
  }

  /** The emitted blocks hold exactly the ascending overlay of the stored ones. */
  ghost predicate Faithful(all: seq<Stored>, out: seq<OutBlock>) {
    Ascending(Flat(out)) && View(Flat(out)) == Meaning(all)
  }

  /** Some block with a surviving value is left behind by the first chunk. */
  ghost predicate LeavesBehind(all: seq<Stored>, size: nat)
    requires AllValid(all)
  {
    && ValidReadings(UnreadAll(all)) && Strands(UnreadAll(all), size)
    && exists j, t :: 0 < j < |all| && t in BlockView(all[j]) && t < all[0].MinTime()
  }

  /** Compacts one key: runs the iterator to exhaustion. */
  method CompactKey(blocks: seq<Block>, size: nat, fast: bool) returns (out: seq<OutBlock>)
    requires size > 0
    requires forall i :: 0 <= i < |blocks| ==> blocks[i].Valid() && blocks[i].State() == Unread(blocks[i].stored)
    requires forall i, j :: 0 <= i < j < |blocks| ==> blocks[i] != blocks[j]
    modifies blocks
    ensures AllProper(out) && AllValid(Contents(blocks))
    ensures View(Flat(out)) == Yield(Contents(blocks))
    ensures InOrder(Contents(blocks)) ==> Faithful(Contents(blocks), out)
    ensures Apart(Contents(blocks)) ==> View(Flat(out)) == Meaning(Contents(blocks))
    ensures Apart(Contents(blocks)) ==> (Faithful(Contents(blocks), out) <==> AllWellCut(Contents(blocks), size))
    ensures LeavesBehind(Contents(blocks), size) ==> !Faithful(Contents(blocks), out)
    ensures forall i :: 0 <= i < |out| - 1 ==> Sized(out[i], Contents(blocks), size, fast)
    ensures !fast ==> forall i :: 0 <= i < |out| - 1 ==> |out[i].values| >= size
    ensures out != [] ==> Ending(out[|out| - 1], Contents(blocks), size)
    ensures LastTombstoned(Contents(blocks)) ==> Chunked(out, size)
    ensures LinedUp(Contents(blocks)) ==>
              && OutLens(out) == Plan(0, Lens(Contents(blocks)), size, fast)
              && Flat(out) == Concat(Payload(Contents(blocks)))
    ensures LinedUp(Contents(blocks)) && fast ==> Payloads(out) == Payload(Contents(blocks))
    ensures LinedUp(Contents(blocks)) ==>
              var n := Leading(Lens(Contents(blocks)), size);
              n <= |out| && forall i :: 0 <= i < n ==> out[i].values == Contents(blocks)[i].values
  {
    hide *;
    var k := new KeyIterator(blocks, size, fast);
    k.WasValid();
    ghost var all := k.all;
    if LinedUp(all) {
      k.InitiallyLined();
    }
    k.EmptySized();
    if LeavesBehind(k.all, size) {
      k.InitiallyStranding();
    }
    out := Drain(k);
    k.Exhausted();
    FaithfulIf(k.all, out);
    Sizes(out, k.all, size, fast);
    if LeavesBehind(k.all, size) {
      BehindUnfaithful(k.all, size, out);
    }
    if LinedUp(all) {
      LinedUpApart(all);
      LinedOutput(all, out, size, fast);
    }
  }

  ghost function Payload(all: seq<Stored>): seq<seq<Value>> {
    seq(|all|, i requires 0 <= i < |all| => all[i].values)
  }

  lemma {:induction false} LiveConcat(all: seq<Stored>)
    requires AllValid(all) && LinedUp(all)
    ensures AllLive(all) == Concat(Payload(all))
  {
    hide Concat, Ascending;
    if all == [] {
      ConcatNone<Value>();
    } else {
      var p, b := all[..|all| - 1], all[|all| - 1];
      assert forall i :: 0 <= i < |p| ==> p[i] == all[i];
      LiveConcat(p);
      LiveBlock(b);
      assert Payload(all) == Payload(p) + [b.values];
      ConcatSnoc(Payload(p), b.values);
    }
  }

  /** The lengths and the values together give the blocks. */
  lemma {:induction false} LinedOutput(all: seq<Stored>, out: seq<OutBlock>, size: nat, fast: bool)
    requires AllValid(all) && LinedUp(all) && SortedFrom(all, 0) && Faithful(all, out) && size > 0
    requires OutLens(out) == Plan(0, Lens(all), size, fast)
    ensures Flat(out) == Concat(Payload(all))
    ensures fast ==> Payloads(out) == Payload(all)
    ensures var n := Leading(Lens(all), size);
            n <= |out| && forall i :: 0 <= i < n ==> out[i].values == all[i].values
  {
    hide LinedUp, SortedFrom, Faithful, Plan, Leading, Concat;
    DisjointOutput(all, out);
    LiveConcat(all);
    var n := Leading(Lens(all), size);
    PlanLeading(Lens(all), size, fast);
    assert |OutLens(out)| == |out| && |Lens(all)| == |all|;
    assert forall i :: 0 <= i < n ==> OutLens(out)[i] == Lens(all)[i];
    assert forall i :: 0 <= i < n ==> |out[i].values| == OutLens(out)[i] == Lens(all)[i] == |all[i].values|;
    SamePieces(Payloads(out), Payload(all), n);
    forall i | 0 <= i < n ensures out[i].values == all[i].values {
      assert Payloads(out)[i] == Payload(all)[i];
    }
    if fast {
      PlanFast(Lens(all), size);
      assert forall i :: 0 <= i < |all| ==> OutLens(out)[i] == |out[i].values| == Lens(all)[i] == |all[i].values|;
      SamePieces(Payloads(out), Payload(all), |all|);
    }
  }

  lemma {:induction false} Sizes(out: seq<OutBlock>, all: seq<Stored>, size: nat, fast: bool)
    requires Divided(out, all, size, fast, true)
    ensures forall i :: 0 <= i < |out| - 1 ==> Sized(out[i], all, size, fast)
    ensures !fast ==> forall i :: 0 <= i < |out| - 1 ==> |out[i].values| >= size
    ensures out != [] ==> Ending(out[|out| - 1], all, size)
  {
    hide Passed;
  }

  /** Runs a fresh iterator to exhaustion. */
  method Drain(k: KeyIterator) returns (out: seq<OutBlock>)
    requires k.Synced() && k.merged == [] && k.emitted == [] && k.QueueSized()
    modifies k, k.blocks
    ensures k.Synced() && k.blocks == [] && k.merged == [] && k.mergedValues == []
    ensures Flat(out) == k.emitted && AllProper(out) && Divided(out, k.all, k.size, k.fast, true)
    ensures LastTombstoned(Contents(old(k.blocks))) ==> Chunked(out, k.size)
    ensures old(k.Stranding()) ==> out != [] && Begins(out[0], old(k.HeadValues()))
    ensures old(k.Lined()) ==> OutLens(out) == old(k.Ahead())
  {
    hide *;
    ghost var bs := k.blocks;
    ghost var t := Origin(k.all, k.size, k.fast, LastTombstoned(Contents(bs)), k.Stranding(), k.HeadValues(),
                          k.Lined(), k.Ahead());
    out := [];
    if t.tombstoned {
      k.TombstonesDedup(bs);
    }
    var ok := k.Next();
    EmittingStart(t, k.emitted, ok, k.merged, k.Ahead());
    while ok
      invariant k.Synced() && k.QueueSized() && (t.tombstoned ==> k.OneChunk()) && (t.lined ==> k.Lined())
      invariant |k.blocks| <= |bs| && k.blocks == bs[|bs| - |k.blocks|..]
      invariant ok <==> k.merged != []
      invariant !ok ==> k.blocks == [] && k.mergedValues == []
      invariant Emitting(t, out, k.emitted, ok, k.merged, k.Ahead())
      decreases ok, k.Work(), |k.blocks|, |k.mergedValues|, |k.merged|
    {
      ghost var work, left, values := k.Work(), |k.blocks|, |k.mergedValues|;
      ok, out := EmitNext(k, t, bs, out);
      if ok {
        SmallerIf(k.Work(), |k.blocks|, |k.mergedValues|, work, left, values);
      }
    }
    k.NothingAhead();
    EmittingEnd(t, out, k.emitted);
  }

  /** What a run of the iterator started from. */
  datatype Origin = Origin(all: seq<Stored>, size: nat, fast: bool, tombstoned: bool, behind: bool, head: seq<Value>,
                           lined: bool, ahead: seq<nat>)

  /**
   * How the output stands to where the run started: `queue` is ready, and blocks of the lengths `ahead` are to
   * come.
   */
  ghost predicate Emitting(t: Origin, out: seq<OutBlock>, emitted: seq<Value>, ok: bool, queue: seq<OutBlock>,
                           ahead: seq<nat>)
  {
    && Flat(out) == emitted && AllProper(out) && Divided(out, t.all, t.size, t.fast, !ok)
    && (t.tombstoned ==> if ok then AllFull(out, t.size) else Chunked(out, t.size))
    && (t.behind ==> if out == [] then queue != [] && Begins(queue[0], t.head) else Begins(out[0], t.head))
    && (t.lined ==> Accounts(out, ahead, t.ahead))
  }

  lemma {:induction false} EmittingStart(t: Origin, emitted: seq<Value>, ok: bool, queue: seq<OutBlock>,
                                         ahead: seq<nat>)
    requires emitted == [] && (t.behind ==> queue != [] && Begins(queue[0], t.head))
    requires t.lined ==> Follows([], t.ahead, ahead)
    ensures Emitting(t, [], emitted, ok, queue, ahead)
  {
    hide Flat, AllProper, Divided, AllFull, Chunked, Begins, Accounts;
    FlatNil();
    EmitNone(t.size);
    DividedNone(t.all, t.size, t.fast, !ok);
    AccountsEnds([], t.ahead);
  }

  /** The first queued block `o` was handed out. */
  lemma {:induction false} EmittingNext(t: Origin, out: seq<OutBlock>, emitted: seq<Value>, was: seq<OutBlock>,
                                        before: seq<nat>, ok: bool, queue: seq<OutBlock>, after: seq<nat>)
    requires Emitting(t, out, emitted, true, was, before) && was != [] && was[0].Proper()
    requires Sized(was[0], t.all, t.size, t.fast) || (!ok && Ending(was[0], t.all, t.size))
    requires t.tombstoned ==> |was[0].values| <= t.size && (|was[0].values| == t.size || !ok)
    requires t.lined ==> Follows(was, before, after)
    ensures Emitting(t, out + [was[0]], emitted + was[0].values, ok, queue, after)
  {
    hide Flat, AllProper, Divided, AllFull, Chunked, Begins, Accounts, Sized, Ending, Follows, OutBlock.Proper;
    var o := was[0];
    FlatSnoc(out, o);
    EmitOne(out, o, t.size);
    DividedMore(out, o, t.all, t.size, t.fast);
    if t.lined {
      AccountsNext(out, was, before, after, t.ahead);
    }
  }

  lemma {:induction false} EmittingEnd(t: Origin, out: seq<OutBlock>, emitted: seq<Value>)
    requires Emitting(t, out, emitted, false, [], [])
    ensures Flat(out) == emitted && AllProper(out) && Divided(out, t.all, t.size, t.fast, true)
    ensures t.tombstoned ==> Chunked(out, t.size)
    ensures t.behind ==> out != [] && Begins(out[0], t.head)
    ensures t.lined ==> OutLens(out) == t.ahead
  {
    hide Flat, AllProper, Divided, AllFull, Chunked, Begins, Accounts, OutLens;
    AccountsEnds(out, t.ahead);
  }

  /** Takes the first queued block over and moves on. */
  method EmitNext(k: KeyIterator, ghost t: Origin, ghost bs: seq<Block>, out: seq<OutBlock>)
    returns (ok: bool, next: seq<OutBlock>)
    requires k.Synced() && k.QueueSized() && k.merged != [] && k.all == t.all && k.size == t.size && k.fast == t.fast
    requires |k.blocks| <= |bs| && k.blocks == bs[|bs| - |k.blocks|..]
    requires (t.tombstoned ==> k.OneChunk() && LastTombstoned(Contents(bs))) && (t.lined ==> k.Lined())
    requires Emitting(t, out, k.emitted, true, k.merged, k.Ahead())
    modifies k, k.blocks
    ensures k.Synced() && k.QueueSized() && (t.tombstoned ==> k.OneChunk()) && (t.lined ==> k.Lined())
    ensures |k.blocks| <= |bs| && k.blocks == bs[|bs| - |k.blocks|..] && |k.blocks| <= |old(k.blocks)|
    ensures ok <==> k.merged != []
    ensures !ok ==> k.blocks == [] && k.mergedValues == []
    ensures Emitting(t, next, k.emitted, ok, k.merged, k.Ahead())
    ensures ok ==>
              || Smaller(k.Work(), |k.blocks|, |k.mergedValues|, old(k.Work()), |old(k.blocks)|, |old(k.mergedValues)|)
              || (k.Work() == old(k.Work()) && |k.blocks| == |old(k.blocks)|
                 && |k.mergedValues| == |old(k.mergedValues)|
                 && |k.merged| < |old(k.merged)|)
  {
    hide *;
    k.MergedProper();
    k.QueueHead();
    if t.tombstoned {
      k.ChunkHead();
      k.TombstonesDedup(bs);
    }
    next := out + [k.merged[0]];
    ghost var emitted, was, before := k.emitted, k.merged, k.Ahead();
    ok := k.Next();
    EmittingNext(t, out, emitted, was, before, ok, k.merged, k.Ahead());
  }

  /** Every block is labelled with the first and last of its timestamps. */
  ghost predicate AllProper(out: seq<OutBlock>) {
    forall i :: 0 <= i < |out| ==> out[i].Proper()
  }

  ghost predicate AllFull(out: seq<OutBlock>, size: nat) {
    forall i :: 0 <= i < |out| ==> |out[i].values| == size
  }

  /** Every block but the last holds exactly `size` values, the last at most that. */
  ghost predicate Chunked(out: seq<OutBlock>, size: nat) {
    && (forall i :: 0 <= i < |out| - 1 ==> |out[i].values| == size)
    && (out != [] ==> |out[|out| - 1].values| <= size)
  }

  lemma {:induction false} EmitNone(size: nat)
    ensures AllProper([]) && AllFull([], size) && Chunked([], size)
  {
  }

  lemma {:induction false} EmitOne(out: seq<OutBlock>, o: OutBlock, size: nat)
    ensures AllProper(out) && o.Proper() ==> AllProper(out + [o])
    ensures AllFull(out, size) && |o.values| == size ==> AllFull(out + [o], size)
    ensures AllFull(out, size) && |o.values| <= size ==> Chunked(out + [o], size)
  {
  }

  lemma {:induction false} FaithfulIf(all: seq<Stored>, out: seq<OutBlock>)
    ensures Ascending(Flat(out)) && View(Flat(out)) == Meaning(all) <==> Faithful(all, out)
  {
  }

  lemma {:induction false} BehindUnfaithful(all: seq<Stored>, size: nat, out: seq<OutBlock>)
    requires AllValid(all) && LeavesBehind(all, size)
    requires out != [] && Begins(out[0], all[0].values)
    ensures !Faithful(all, out)
  {
    hide Flat, View, Ascending, Meaning, BlockView, Strands;
    var j, t :| 0 < j < |all| && t in BlockView(all[j]) && t < all[0].MinTime();
    FlatHead(out);
    StrandedOutput(all, j, t, Flat(out));
  }

  /** Two compactions of the same ordered key, fast or full, in chunks of any size, emit the same values. */
  lemma {:induction false} FastAndFullAgree(all: seq<Stored>, out: seq<OutBlock>, out': seq<OutBlock>)
    requires Faithful(all, out) && Faithful(all, out')
    ensures Flat(out) == Flat(out')
  {
    hide View, Meaning, Flat;
    AscendingUnique(Flat(out), Flat(out'));
  }

  /** New, unread blocks with the given contents. */
  method NewBlocks(all: seq<Stored>) returns (bs: seq<Block>)
    requires AllValid(all)
    ensures |bs| == |all| && Contents(bs) == all && fresh(bs)
    ensures forall i :: 0 <= i < |bs| ==> bs[i].Valid() && bs[i].State() == Unread(bs[i].stored)
    ensures forall i, j :: 0 <= i < j < |bs| ==> bs[i] != bs[j]
  {
    hide Ascending;
    bs := [];
    for k := 0 to |all|
      invariant |bs| == k && fresh(bs) && forall i :: 0 <= i < k ==> bs[i].stored == all[i]
      invariant forall i :: 0 <= i < |bs| ==> bs[i].Valid() && bs[i].State() == Unread(bs[i].stored)
      invariant forall i, j :: 0 <= i < j < |bs| ==> bs[i] != bs[j]
    {
      var b := new Block(all[k]);
      bs := bs + [b];
    }
  }

  /** Fast and full compaction of one ordered key, in chunks of whatever sizes, emit the same values. */
  method CompactBothWays(all: seq<Stored>, size: nat, size': nat) returns (fast: seq<OutBlock>, full: seq<OutBlock>)
    requires AllValid(all) && size > 0 && size' > 0
    ensures InOrder(all) ==> Faithful(all, fast) && Faithful(all, full) && Flat(fast) == Flat(full)
    ensures LinedUp(all) ==> Payloads(fast) == Payload(all) && OutLens(full) == Plan(0, Lens(all), size', false)
  {
    hide *;
    var bs := NewBlocks(all);
    fast := CompactKey(bs, size, true);
    var cs := NewBlocks(all);
    full := CompactKey(cs, size', false);
    if InOrder(all) {
      FastAndFullAgree(all, fast, full);
    }
  }

  /** The surviving values of the blocks one after the other. */
  ghost function AllLive(all: seq<Stored>): seq<Value> {
    if all == [] then [] else AllLive(all[..|all| - 1]) + Live(all[|all| - 1])
  }

  /** For blocks listed one after the other a faithful output is the concatenation of their surviving values. */
  lemma {:induction false} DisjointOutput(all: seq<Stored>, out: seq<OutBlock>)
    requires AllValid(all) && SortedFrom(all, 0) && Faithful(all, out)
    ensures Flat(out) == AllLive(all)
  {
    hide View, Meaning, Flat, Ascending, SortedFrom;
    LiveMeaning(all);
    LiveAscending(all);
    AscendingUnique(Flat(out), AllLive(all));
  }

  lemma {:induction false} LiveMeaning(all: seq<Stored>)
    requires AllValid(all)
    ensures View(AllLive(all)) == Meaning(all)
  {
    hide View, BlockView, Live;
    if all == [] {
      EmptyView();
    } else {
      var p, b := all[..|all| - 1], all[|all| - 1];
      LiveMeaning(p);
      LiveBlock(b);
      ViewAppend(AllLive(p), Live(b));
    }
  }

  /** Which block a value comes from. */
  lemma {:induction false} LiveFrom(all: seq<Stored>, k: nat) returns (i: nat)
    requires AllValid(all) && k < |AllLive(all)|
    ensures i < |all| && Live(all[i]) != [] && AllLive(all)[k].time <= all[i].MaxTime()
  {
    hide Live, Ascending;
    var p, b := all[..|all| - 1], all[|all| - 1];
    if k < |AllLive(p)| {
      i := LiveFrom(p, k);
    } else {
      LiveTimes(b, k - |AllLive(p)|);
      i := |all| - 1;
    }
  }

  lemma {:induction false} LiveAscending(all: seq<Stored>)
    requires AllValid(all) && SortedFrom(all, 0)
    ensures Ascending(AllLive(all))
  {
    hide Live, Ascending;
    if all == [] {
      NoneAscending();
    } else {
      var p, b := all[..|all| - 1], all[|all| - 1];
      assert forall i :: 0 <= i < |p| ==> p[i] == all[i];
      LiveAscending(p);
      LiveBlock(b);
      forall i, j | 0 <= i < |AllLive(p)| && 0 <= j < |Live(b)| ensures AllLive(p)[i].time < Live(b)[j].time {
        var k := LiveFrom(p, i);
        assert p[k] == all[k] && all[k].MaxTime() < all[|all| - 1].MinTime();
        LiveTimes(b, j);
      }
      JoinedAscending(AllLive(p), Live(b));
    }
  }

  lemma {:induction false} NoneAscending()
    ensures Ascending([])
  {
  }

  /**
   * For two untombstoned blocks the conditions are simple: they are in order unless the second ends before
   * the first starts, and then they are well cut exactly if the first alone does not fill a chunk.
   */
  lemma {:induction false} TwoBlocks(a: Stored, b: Stored, size: nat)
    requires a.Valid() && b.Valid() && a.tombstones == [] && b.tombstones == [] && size > 0
    ensures AllValid([a, b])
    ensures InOrder([a, b]) <==> a.MinTime() <= b.MaxTime()
    ensures !InOrder([a, b]) ==> Apart([a, b]) && (AllWellCut([a, b], size) <==> |a.values| < size)
    ensures !InOrder([a, b]) && size <= |a.values| ==> LeavesBehind([a, b], size)
  {
    hide View;
    var all := [a, b];
    if b.MaxTime() < a.MinTime() {
      assert all[1].MaxTime() < all[0].MinTime();
      SpanOf(b);
      TwoWellCut(a, b, size);
      var rs := UnreadAll(all);
      assert rs[1].stored.MaxTime() < rs[0].stored.MinTime();
      ViewAt(b.values, 0);
      assert b.values[0].time in BlockView(all[1]);
    }
  }

  lemma {:induction false} OneCounted(a: Stored, t: int)
    requires a.Valid() && a.tombstones == []
    ensures Count([a]) == |a.values| && Earlier([a], t) == if a.MaxTime() < t then |a.values| else 0
  {
    hide Live, Ascending;
    LiveBlock(a);
    assert [a][..0] == [];
    assert Count([a][..0]) == 0 && Earlier([a][..0], t) == 0;
  }

  lemma {:induction false} TwoWellCut(a: Stored, b: Stored, size: nat)
    requires a.Valid() && b.Valid() && a.tombstones == [] && b.tombstones == [] && size > 0
    requires b.MaxTime() < a.MinTime()
    ensures AllValid([a, b]) && (AllWellCut([a, b], size) <==> |a.values| < size)
  {
    hide Ascending, Live, Count, Earlier;
    var all := [a, b];
    SpanOf(a);
    SpanOf(b);
    LiveBlock(b);
    assert all[..0] == [] && all[..1] == [a];
    NoneCounted(a.MinTime());
    OneCounted(a, b.MinTime());
    NoChunk(|a.values|, size);
    NoChunk(0, size);
    assert WellCut(all, size, 0);
    assert WellCut(all, size, 1) <==> |a.values| < size;
  }

  lemma {:induction false} NoneCounted(t: int)
    ensures Count([]) == 0 && Earlier([], t) == 0
  {
  }

  lemma {:induction false} NoChunk(n: nat, size: nat)
    requires size > 0
    ensures size * (n / size) <= 0 <==> n < size
  {
    if n >= size {
      assert n / size >= 1;
    } else {
      assert n / size == 0;
    }
  }

  /** Two blocks of one value, the later one listed first, in chunks of one. */
  lemma {:induction false} OutOfOrderExample()
    ensures var a, b := Stored([Value(10, 0)], []), Stored([Value(1, 0)], []);
            AllValid([a, b]) && !InOrder([a, b]) && LeavesBehind([a, b], 1)
  {
    hide LeavesBehind, InOrder;
    var a, b := Stored([Value(10, 0)], []), Stored([Value(1, 0)], []);
    TwoBlocks(a, b, 1);
  }

  lemma {:induction false} DisjointNext(rs: seq<Reading>, i: nat)
    requires ValidReadings(rs) && 0 < i < |rs| && Disjoint(rs[..i])
    ensures ValidReadings(rs[..i + 1])
    ensures Disjoint(rs[..i + 1]) <==>
              rs[i].stored.tombstones == [] && !rs[i].PartiallyRead()
                  && rs[i - 1].stored.MaxTime() < rs[i].stored.MinTime()
    ensures !Disjoint(rs[..i + 1]) ==> !Disjoint(rs)
  {
  }

  lemma {:induction false} DisjointHead(rs: seq<Reading>)
    requires ValidReadings(rs) && Disjoint(rs) && rs != []
    ensures rs[0].stored.tombstones == []
  {
  }

  /** Lexicographic descent of the work left: unread blocks, blocks, merged values. */
  ghost predicate Smaller(pending: nat, blocks: nat, values: nat, pending0: nat, blocks0: nat, values0: nat) {
    || pending < pending0
    || (pending == pending0 && blocks < blocks0)
    || (pending == pending0 && blocks == blocks0 && values < values0)
  }

  lemma {:induction false} SmallerIf(pending: nat, blocks: nat, values: nat, pending0: nat, blocks0: nat, values0: nat)
    ensures Smaller(pending, blocks, values, pending0, blocks0, values0) <==>
            || pending < pending0
            || (pending == pending0 && blocks < blocks0)
            || (pending == pending0 && blocks == blocks0 && values < values0)
  {
  }

  lemma {:induction false} LoneRound(rs: seq<Reading>, size: nat, m: seq<Value>)
    requires ValidReadings(rs) && Strands(rs, size)
    requires Ascending(m) && View(m) == View([]) + Parts(rs, Window(rs))
    ensures m == rs[0].stored.values && |m| >= size
  {
    hide View, Parts, Window;
    EmptyView();
    StrandsRound(rs, size);
    AscendingUnique(m, rs[0].stored.values);
  }

  /** The readings when a round has passed the first `i` blocks. */
  ghost function Stepped(rs: seq<Reading>, i: nat, w: TimeRange): (ts: seq<Reading>)
    requires ValidReadings(rs)
    ensures |ts| == |rs|
  {
    seq(|rs|, k requires 0 <= k < |rs| => if k < i then Step(rs[k], w) else rs[k])
  }

  ghost function PartsTo(rs: seq<Reading>, i: nat, w: TimeRange): map<int, int>
    requires ValidReadings(rs) && i <= |rs|
  {
    Parts(rs[..i], w)
  }

  lemma {:induction false} RoundStart(rs: seq<Reading>, w: TimeRange, base: map<int, int>)
    requires ValidReadings(rs)
    ensures Stepped(rs, 0, w) == rs
    ensures base + PartsTo(rs, 0, w) == base
  {
  }

  lemma {:induction false} RoundEnd(rs: seq<Reading>, w: TimeRange)
    requires ValidReadings(rs)
    ensures Stepped(rs, |rs|, w) == StepAll(rs, w)
    ensures PartsTo(rs, |rs|, w) == Parts(rs, w)
  {
    assert rs[..|rs|] == rs;
  }

  lemma {:induction false} RoundStep(rs: seq<Reading>, i: nat, w: TimeRange, base: map<int, int>)
    requires ValidReadings(rs) && i < |rs|
    ensures Stepped(rs, i, w)[i] == rs[i] && rs[i].Valid()
    ensures Stepped(rs, i + 1, w) == Stepped(rs, i, w)[i := Step(rs[i], w)]
    ensures base + PartsTo(rs, i + 1, w) == base + PartsTo(rs, i, w) + View(Part(rs[i], w))
  {
    hide View, Part, Step;
    assert rs[..i + 1][..i] == rs[..i];
  }

  /** Merge of lists that are already de-duplicated. */
  method MergeAscending(a: seq<Value>, b: seq<Value>) returns (out: seq<Value>)
    requires Ascending(a) && Ascending(b)
    ensures Ascending(out) && View(out) == View(a) + View(b)
  {
    hide View;
    out := Merge(a, b);
    if a == [] { assert a + b == b; }
    if b == [] { assert a + b == a; }
  }
}
