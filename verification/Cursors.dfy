/** The batch cursors: cached values merged over the blocks of the TSM files, one batch at a time. */
module Cursors {
  import opened Sequences
  import opened Values
  import opened Merging

  /** Stands for "no stored value left"; it lies below every timestamp. */
  const EOF: int := -0x8000_0000_0000_0000

  ghost predicate Timed(s: seq<Value>) {
    forall i :: 0 <= i < |s| ==> EOF < s[i].time
  }

  ghost predicate NonEmpty(bs: seq<seq<Value>>) {
    forall i :: 0 <= i < |bs| ==> bs[i] != []
  }

  function Zip(ts: seq<int>, vs: seq<int>): (s: seq<Value>)
    requires |ts| == |vs|
    ensures |s| == |ts| && forall i :: 0 <= i < |s| ==> s[i] == Value(ts[i], vs[i])
  {
    seq(|ts|, i requires 0 <= i < |ts| => Value(ts[i], vs[i]))
  }

  /** What is left of the cached (`c`) and stored (`t`) values, fit to be merged. */
  ghost predicate Mergeable(asc: bool, c: seq<Value>, t: seq<Value>) {
    Ordered(asc, c) && Ordered(asc, t) && Timed(c) && Timed(t)
  }

  lemma {:induction false} MergeableTails(asc: bool, c: seq<Value>, t: seq<Value>)
    requires Mergeable(asc, c, t)
    ensures c != [] ==> Mergeable(asc, c[1..], t) && c[0].time > EOF
    ensures t != [] ==> Mergeable(asc, c, t[1..]) && t[0].time > EOF
    ensures c != [] && t != [] ==> Mergeable(asc, c[1..], t[1..])
  {
  }

  // ---------------------------------------------------------------- ascending

  /** The stored values from `pos` on, and those of the blocks behind. */
  ghost function AscLeft(values: seq<Value>, pos: nat, blocks: seq<seq<Value>>): seq<Value> {
    if pos >= |values| then [] else values[pos..] + Concat(blocks)
  }

  lemma {:induction false} AscNext(values: seq<Value>, pos: nat, blocks: seq<seq<Value>>)
    requires pos < |values| && NonEmpty(blocks)
    ensures AscLeft(values, pos, blocks) != [] && AscLeft(values, pos, blocks)[0] == values[pos]
    ensures AscLeft(values, pos, blocks)[1..]
         == if pos + 1 < |values| then AscLeft(values, pos + 1, blocks)
            else if blocks == [] then [] else AscLeft(blocks[0], 0, blocks[1..])
  {
    assert values[pos..][1..] == values[pos + 1..];
    assert (values[pos..] + Concat(blocks))[1..] == values[pos + 1..] + Concat(blocks);
    if pos + 1 == |values| && blocks != [] {
      assert blocks[0][0..] == blocks[0];
    }
  }

  /** The first block reaches the seek time, or no block does. */
  ghost predicate AscReached(blocks: seq<seq<Value>>, seek: int)
    requires NonEmpty(blocks)
  {
    blocks == [] || blocks[0][|blocks[0]| - 1].time >= seek || Inside(false, Concat(blocks), seek) == []
  }

  /** Seeking within the first block finds the values from `seek` on exactly if that block reaches it. */
  lemma {:induction false} AscSeek(blocks: seq<seq<Value>>, seek: int, pos: nat)
    requires NonEmpty(blocks) && blocks != [] && Ordered(true, Concat(blocks)) && Timed(Concat(blocks))
    requires pos <= |blocks[0]|
    requires forall k :: 0 <= k < pos ==> blocks[0][k].time < seek
    requires forall k :: pos <= k < |blocks[0]| ==> seek <= blocks[0][k].time
    ensures var left := AscLeft(blocks[0], pos, blocks[1..]);
            && Ordered(true, left) && Timed(left)
            && (left == Inside(false, Concat(blocks), seek) <==> AscReached(blocks, seek))
            && (AscReached(blocks, seek) || left == [])
  {
    hide Inside;
    var all, b := Concat(blocks), blocks[0];
    assert all == b + Concat(blocks[1..]);
    if pos < |b| {
      assert AscLeft(b, pos, blocks[1..]) == all[pos..];
      forall k | pos <= k < |all| ensures !Precedes(false, seek, all[k].time) {
        assert all[pos] == b[pos];
      }
      InsideSuffix(false, all, seek, pos);
    }
  }

  /** A first block that ends before the seek time hides the block behind it. */
  lemma {:induction false} UnreachedExample()
    ensures var blocks := [[Value(1, 0)], [Value(5, 0)]];
            NonEmpty(blocks) && Ascending(Concat(blocks)) && Timed(Concat(blocks)) && !AscReached(blocks, 3)
  {
    var blocks := [[Value(1, 0)], [Value(5, 0)]];
    assert blocks[1..] == [[Value(5, 0)]] && blocks[1..][1..] == [];
    assert Concat(blocks) == [Value(1, 0), Value(5, 0)];
    InsideSuffix(false, Concat(blocks), 3, 1);
  }

  lemma {:induction false} Unread(left: seq<Value>, out: seq<Value>, rest: seq<Value>, n: nat)
    requires left == out + rest && |out| <= n && (rest == [] || |out| == n)
    ensures out == left[..BatchSize(left, n)] && rest == left[BatchSize(left, n)..]
  {
  }

  lemma {:induction false} NoBlocks(seek: int)
    ensures Concat<Value>([]) == [] && Inside(false, Concat([]), seek) == []
  {
  }

  lemma {:induction false} FirstAscending(blocks: seq<seq<Value>>)
    requires blocks != [] && Ascending(Concat(blocks))
    ensures Sorted(blocks[0]) && Ordered(true, Concat(blocks))
  {
    var b, all := blocks[0], Concat(blocks);
    assert all == b + Concat(blocks[1..]);
    forall i, j | 0 <= i < j < |b| ensures b[i].time <= b[j].time {
      assert all[i] == b[i] && all[j] == b[j];
    }
  }

  class AscendingCursor {
    const cacheValues: seq<Value>
    var cachePos: nat
    var tsmValues: seq<Value>
    var tsmPos: nat
    /** The blocks the key cursor has not read yet. */
    var blocks: seq<seq<Value>>
    const t: array<int>
    const v: array<int>

    ghost function CacheLeft(): seq<Value>
      requires cachePos <= |cacheValues|
      reads this`cachePos
    {
      cacheValues[cachePos..]
    }

    ghost function TsmLeft(): seq<Value>
      reads this`tsmValues, this`tsmPos, this`blocks
    {
      AscLeft(tsmValues, tsmPos, blocks)
    }

    ghost predicate Valid()
      reads this`cachePos, this`tsmValues, this`tsmPos, this`blocks
    {
      && cachePos <= |cacheValues| && NonEmpty(blocks)
      && Mergeable(true, CacheLeft(), TsmLeft())
      && t != v && t.Length == v.Length > 0
    }

    /** Everything the cursor has still to return. */
    ghost function Remaining(): seq<Value>
      requires cachePos <= |cacheValues|
      reads this`cachePos, this`tsmValues, this`tsmPos, this`blocks
    {
      Merged(true, CacheLeft(), TsmLeft())
    }

    lemma {:induction false} InTimeOrder()
      requires Valid()
      ensures Ordered(true, Remaining())
    {
      hide Merged, Ordered;
      MergedOrdered(true, CacheLeft(), TsmLeft());
    }

    /** Positions the cursor at the first cached and the first stored value from `seek` on. */
    constructor (seek: int, cache: seq<Value>, found: seq<seq<Value>>, n: nat)
      requires n > 0 && Ascending(cache) && Timed(cache)
      requires NonEmpty(found) && Ascending(Concat(found)) && Timed(Concat(found))
      ensures Valid() && t.Length == n && fresh(t) && fresh(v)
      ensures CacheLeft() == Inside(false, cache, seek)
      ensures TsmLeft() == Inside(false, Concat(found), seek) <==> AscReached(found, seek)
      ensures AscReached(found, seek) || TsmLeft() == []
    {
      hide Inside, Concat;
      cacheValues := cache;
      var c := Search(cache, seek);
      cachePos := c;
      InsideSuffix(false, cache, seek, c);
      if found == [] {
        tsmValues, tsmPos, blocks := [], 0, [];
        NoBlocks(seek);
      } else {
        FirstAscending(found);
        var p := Search(found[0], seek);
        tsmValues, tsmPos, blocks := found[0], p, found[1..];
        AscSeek(found, seek, p);
      }
      t := new int[n];
      v := new int[n];
    }

    method PeekTSM() returns (time: int, value: int)
      requires NonEmpty(blocks)
      ensures if TsmLeft() == [] then time == EOF else Value(time, value) == TsmLeft()[0]
    {
      if tsmPos >= |tsmValues| {
        return EOF, 0;
      }
      AscNext(tsmValues, tsmPos, blocks);
      return tsmValues[tsmPos].time, tsmValues[tsmPos].payload;
    }

    method NextTSM()
      requires NonEmpty(blocks) && TsmLeft() != []
      modifies this`tsmValues, this`tsmPos, this`blocks
      ensures NonEmpty(blocks) && TsmLeft() == old(TsmLeft())[1..]
    {
      AscNext(tsmValues, tsmPos, blocks);
      tsmPos := tsmPos + 1;
      if tsmPos >= |tsmValues| {
        if blocks == [] {
          tsmValues := [];
        } else {
          tsmValues, blocks := blocks[0], blocks[1..];
        }
        tsmPos := 0;
      }
    }

    method NextCache()
      requires cachePos < |cacheValues|
      modifies this`cachePos
      ensures cachePos <= |cacheValues| && CacheLeft() == old(CacheLeft())[1..]
    {
      cachePos := cachePos + 1;
    }

    /** Takes the next value of the merge, if there is one. */
    method Take() returns (found: bool, time: int, value: int)
      requires Valid()
      modifies this`cachePos, this`tsmValues, this`tsmPos, this`blocks
      ensures Valid()
      ensures found <==> old(Remaining()) != []
      ensures !found ==> Remaining() == []
      ensures found ==> old(Remaining()) == [Value(time, value)] + Remaining()
    {
      hide AscLeft, Mergeable, NonEmpty;
      MergeableTails(true, CacheLeft(), TsmLeft());
      time, value := PeekTSM();
      if cachePos < |cacheValues| {
        var ckey, cvalue := cacheValues[cachePos].time, cacheValues[cachePos].payload;
        var cache, tsm := false, false;
        if ckey == time {
          cache, tsm := true, true;
          time, value := ckey, cvalue;
        } else if ckey < time || time == EOF {
          cache := true;
          time, value := ckey, cvalue;
        } else {
          tsm := true;
        }
        if cache {
          NextCache();
        }
        if tsm {
          NextTSM();
        }
      } else {
        if time == EOF {
          return false, 0, 0;
        }
        NextTSM();
      }
      found := true;
    }

    /** The next batch: as many of the remaining values as fit. */
    method Next() returns (ts: seq<int>, vs: seq<int>)
      requires Valid()
      modifies this`cachePos, this`tsmValues, this`tsmPos, this`blocks, t, v
      ensures Valid() && |ts| == |vs|
      ensures var left := old(Remaining());
              var k := BatchSize(left, t.Length);
              Zip(ts, vs) == left[..k] && Remaining() == left[k..]
    {
      hide Merged, Mergeable, AscLeft;
      var pos := 0;
      ghost var out: seq<Value> := [];
      while pos < t.Length
        invariant Valid() && pos == |out| <= t.Length
        invariant old(Remaining()) == out + Remaining()
        invariant forall i :: 0 <= i < pos ==> out[i] == Value(t[i], v[i])
      {
        var found, time, value := Take();
        if !found {
          break;
        }
        t[pos] := time;
        v[pos] := value;
        out := out + [Value(time, value)];
        pos := pos + 1;
      }
      Unread(old(Remaining()), out, Remaining(), t.Length);
      ts, vs := t[..pos], v[..pos];
      assert Zip(ts, vs) == out;
    }

    /** Reads batches until an empty one. */
    method ReadAll() returns (bs: seq<seq<Value>>)
      requires Valid()
      modifies this`cachePos, this`tsmValues, this`tsmPos, this`blocks, t, v
      ensures Valid() && Remaining() == [] && bs == Batches(old(Remaining()), t.Length)
    {
      hide Merged, Mergeable, AscLeft, Batches, NonEmpty;
      bs := [];
      var more := true;
      ghost var total := Batches(Remaining(), t.Length);
      while more
        invariant Valid() && (!more ==> Remaining() == [] && bs == total)
        invariant more ==> bs + Batches(Remaining(), t.Length) == total
        decreases more, |Remaining()|
      {
        ReadBatch(bs, Remaining(), t.Length, total);
        var ts, vs := Next();
        if |ts| == 0 {
          more := false;
        } else {
          bs := bs + [Zip(ts, vs)];
        }
      }
    }
  }

  // ---------------------------------------------------------------- descending

  /** The stored values from `pos` back, and those of the blocks behind. */
  ghost function DescLeft(values: seq<Value>, pos: int, blocks: seq<seq<Value>>): seq<Value>
    requires -1 <= pos < |values|
  {
    if pos < 0 then [] else Back(values[..pos + 1]) + FlatBack(blocks)
  }

  lemma {:induction false} DescNext(values: seq<Value>, pos: int, blocks: seq<seq<Value>>)
    requires 0 <= pos < |values| && NonEmpty(blocks)
    ensures DescLeft(values, pos, blocks) != [] && DescLeft(values, pos, blocks)[0] == values[pos]
    ensures DescLeft(values, pos, blocks)[1..]
         == if pos > 0 then DescLeft(values, pos - 1, blocks)
            else if blocks == [] then [] else DescLeft(blocks[0], |blocks[0]| - 1, blocks[1..])
  {
    assert values[..pos + 1][..pos] == values[..pos];
    assert (Back(values[..pos + 1]) + FlatBack(blocks))[1..] == Back(values[..pos]) + FlatBack(blocks);
    if pos == 0 && blocks != [] {
      assert blocks[0][..|blocks[0]|] == blocks[0];
    }
  }

  lemma {:induction false} PeekBack(values: seq<Value>, pos: int)
    requires -1 <= pos < |values|
    ensures |Back(values[..pos + 1])| == pos + 1
    ensures pos >= 0 ==> Back(values[..pos + 1])[0] == values[pos]
  {
    hide Back;
    BackAt(values[..pos + 1], 0);
  }

  /** The first block reaches down to the seek time, or no block does. */
  ghost predicate DescReached(blocks: seq<seq<Value>>, seek: int)
    requires NonEmpty(blocks)
  {
    blocks == [] || blocks[0][0].time <= seek || Inside(true, FlatBack(blocks), seek) == []
  }

  /** The index of the last value stamped at or before `seek`, or -1. */
  method LastUpTo(values: seq<Value>, seek: int) returns (pos: int)
    requires Ascending(values)
    ensures -1 <= pos < |values|
    ensures forall k :: 0 <= k <= pos ==> values[k].time <= seek
    ensures forall k :: pos < k < |values| ==> seek < values[k].time
  {
    if |values| > 0 {
      pos := Search(values, seek);
      if pos == |values| {
        pos := pos - 1;
      } else if values[pos].time != seek {
        pos := pos - 1;
      }
    } else {
      pos := -1;
    }
  }

  lemma {:induction false} BackSeek(values: seq<Value>, seek: int, pos: int)
    requires Ascending(values) && Timed(values) && -1 <= pos < |values|
    requires forall k :: 0 <= k <= pos ==> values[k].time <= seek
    requires forall k :: pos < k < |values| ==> seek < values[k].time
    ensures Back(values[..pos + 1]) == Inside(true, Back(values), seek)
    ensures Ordered(false, Back(values[..pos + 1])) && Timed(Back(values[..pos + 1]))
  {
    hide Inside, Back;
    var a, b := values[..pos + 1], values[pos + 1..];
    assert values == a + b;
    BackAppend(a, b);
    InsideAppend(true, Back(b), Back(a), seek);
    BackTimes(a);
    BackTimes(b);
    InsideNone(true, Back(b), seek);
    InsideAll(true, Back(a), seek);
    BackOrdered(a);
  }

  /** Reading backwards changes no value. */
  lemma {:induction false} BackTimes(s: seq<Value>)
    ensures |Back(s)| == |s| && forall i :: 0 <= i < |s| ==> Back(s)[i] == s[|s| - 1 - i]
  {
    hide Back;
    BackAt(s, 0);
    forall i | 0 <= i < |s| ensures Back(s)[i] == s[|s| - 1 - i] {
      BackAt(s, i);
    }
  }

  lemma {:induction false} NoBlocksBack(seek: int)
    ensures FlatBack([]) == [] && Inside(true, FlatBack([]), seek) == [] && DescReached([], seek)
  {
  }

  lemma {:induction false} FirstDescending(blocks: seq<seq<Value>>)
    requires blocks != [] && Ordered(false, FlatBack(blocks))
    ensures Ascending(blocks[0])
  {
    var b, all := blocks[0], FlatBack(blocks);
    assert all == Back(b) + FlatBack(blocks[1..]);
    BackTimes(b);
    forall i, j | 0 <= i < j < |b| ensures b[i].time < b[j].time {
      assert all[|b| - 1 - i] == b[i] && all[|b| - 1 - j] == b[j];
    }
  }

  /** The stored values are those of the first block behind `pos`, then those left at `pos`. */
  lemma {:induction false} DescSplit(blocks: seq<seq<Value>>, pos: int)
    requires NonEmpty(blocks) && blocks != [] && -1 <= pos < |blocks[0]|
    ensures var b, left := blocks[0], DescLeft(blocks[0], pos, blocks[1..]);
            if pos < 0 then left == []
            else FlatBack(blocks) == Back(b[pos + 1..]) + left && left != [] && left[0] == b[pos]
  {
    hide Back;
    var b := blocks[0];
    if pos >= 0 {
      assert b == b[..pos + 1] + b[pos + 1..];
      BackAppend(b[..pos + 1], b[pos + 1..]);
      PeekBack(b, pos);
    }
  }

  /** Seeking within the first block finds the values down from `seek` exactly if that block reaches it. */
  lemma {:induction false} DescSeek(blocks: seq<seq<Value>>, seek: int, pos: int)
    requires NonEmpty(blocks) && blocks != [] && Ordered(false, FlatBack(blocks)) && Timed(FlatBack(blocks))
    requires Ascending(blocks[0]) && -1 <= pos < |blocks[0]|
    requires forall k :: 0 <= k <= pos ==> blocks[0][k].time <= seek
    requires forall k :: pos < k < |blocks[0]| ==> seek < blocks[0][k].time
    ensures var left := DescLeft(blocks[0], pos, blocks[1..]);
            && Ordered(false, left) && Timed(left)
            && (left == Inside(true, FlatBack(blocks), seek) <==> DescReached(blocks, seek))
            && (DescReached(blocks, seek) || left == [])
  {
    hide Inside, Back, FlatBack, DescLeft;
    var all, b := FlatBack(blocks), blocks[0];
    DescSplit(blocks, pos);
    if pos >= 0 {
      var k := |b| - 1 - pos;
      BackTimes(b[pos + 1..]);
      forall i | k <= i < |all| ensures !Precedes(true, seek, all[i].time) {
        assert i == k || Precedes(false, all[k].time, all[i].time);
      }
      InsideSuffix(true, all, seek, k);
    }
  }

  class DescendingCursor {
    const cacheValues: seq<Value>
    var cachePos: int
    var tsmValues: seq<Value>
    var tsmPos: int
    /** The blocks the key cursor has not read yet. */
    var blocks: seq<seq<Value>>
    const t: array<int>
    const v: array<int>

    ghost function CacheLeft(): seq<Value>
      requires -1 <= cachePos < |cacheValues|
      reads this`cachePos
    {
      Back(cacheValues[..cachePos + 1])
    }

    ghost function TsmLeft(): seq<Value>
      requires -1 <= tsmPos < |tsmValues|
      reads this`tsmValues, this`tsmPos, this`blocks
    {
      DescLeft(tsmValues, tsmPos, blocks)
    }

    ghost predicate Valid()
      reads this`cachePos, this`tsmValues, this`tsmPos, this`blocks
    {
      && -1 <= cachePos < |cacheValues| && -1 <= tsmPos < |tsmValues| && NonEmpty(blocks)
      && Mergeable(false, CacheLeft(), TsmLeft())
      && t != v && t.Length == v.Length > 0
    }

    /** Everything the cursor has still to return. */
    ghost function Remaining(): seq<Value>
      requires -1 <= cachePos < |cacheValues| && -1 <= tsmPos < |tsmValues|
      reads this`cachePos, this`tsmValues, this`tsmPos, this`blocks
    {
      Merged(false, CacheLeft(), TsmLeft())
    }

    lemma {:induction false} InTimeOrder()
      requires Valid()
      ensures Ordered(false, Remaining())
    {
      hide Merged, Ordered;
      MergedOrdered(false, CacheLeft(), TsmLeft());
    }

    /** Positions the cursor at the last cached and the last stored value up to `seek`. */
    constructor (seek: int, cache: seq<Value>, found: seq<seq<Value>>, n: nat)
      requires n > 0 && Ascending(cache) && Timed(cache)
      requires NonEmpty(found) && Ordered(false, FlatBack(found)) && Timed(FlatBack(found))
      ensures Valid() && t.Length == n && fresh(t) && fresh(v)
      ensures CacheLeft() == Inside(true, Back(cache), seek)
      ensures TsmLeft() == Inside(true, FlatBack(found), seek) <==> DescReached(found, seek)
      ensures DescReached(found, seek) || TsmLeft() == []
    {
      hide Inside, Back, FlatBack, DescReached;
      cacheValues := cache;
      var c := LastUpTo(cache, seek);
      cachePos := c;
      BackSeek(cache, seek, c);
      if found == [] {
        tsmValues, tsmPos, blocks := [], -1, [];
        NoBlocksBack(seek);
      } else {
        FirstDescending(found);
        var p := LastUpTo(found[0], seek);
        tsmValues, tsmPos, blocks := found[0], p, found[1..];
        DescSeek(found, seek, p);
      }
      t := new int[n];
      v := new int[n];
    }

    method PeekTSM() returns (time: int, value: int)
      requires NonEmpty(blocks) && -1 <= tsmPos < |tsmValues|
      ensures if TsmLeft() == [] then time == EOF else Value(time, value) == TsmLeft()[0]
    {
      if tsmPos < 0 {
        return EOF, 0;
      }
      DescNext(tsmValues, tsmPos, blocks);
      return tsmValues[tsmPos].time, tsmValues[tsmPos].payload;
    }

    method NextTSM()
      requires NonEmpty(blocks) && -1 <= tsmPos < |tsmValues| && TsmLeft() != []
      modifies this`tsmValues, this`tsmPos, this`blocks
      ensures NonEmpty(blocks) && -1 <= tsmPos < |tsmValues| && TsmLeft() == old(TsmLeft())[1..]
    {
      DescNext(tsmValues, tsmPos, blocks);
      tsmPos := tsmPos - 1;
      if tsmPos < 0 {
        if blocks == [] {
          tsmValues := [];
        } else {
          tsmValues, blocks := blocks[0], blocks[1..];
        }
        tsmPos := |tsmValues| - 1;
      }
    }

    method NextCache()
      requires 0 <= cachePos < |cacheValues|
      modifies this`cachePos
      ensures -1 <= cachePos < |cacheValues| && CacheLeft() == old(CacheLeft())[1..]
    {
      assert cacheValues[..cachePos + 1][..cachePos] == cacheValues[..cachePos];
      cachePos := cachePos - 1;
    }

    /** Takes the next value of the merge, if there is one. */
    method Take() returns (found: bool, time: int, value: int)
      requires Valid()
      modifies this`cachePos, this`tsmValues, this`tsmPos, this`blocks
      ensures Valid()
      ensures found <==> old(Remaining()) != []
      ensures !found ==> Remaining() == []
      ensures found ==> old(Remaining()) == [Value(time, value)] + Remaining()
    {
      hide DescLeft, Mergeable, NonEmpty, Back;
      MergeableTails(false, CacheLeft(), TsmLeft());
      time, value := PeekTSM();
      PeekBack(cacheValues, cachePos);
      if cachePos >= 0 {
        var ckey, cvalue := cacheValues[cachePos].time, cacheValues[cachePos].payload;
        var cache, tsm := false, false;
        if ckey == time {
          cache, tsm := true, true;
          time, value := ckey, cvalue;
        } else if ckey > time || time == EOF {
          cache := true;
          time, value := ckey, cvalue;
        } else {
          tsm := true;
        }
        if cache {
          NextCache();
        }
        if tsm {
          NextTSM();
        }
      } else {
        if time == EOF {
          return false, 0, 0;
        }
        NextTSM();
      }
      found := true;
    }

    /** The next batch: as many of the remaining values as fit. */
    method Next() returns (ts: seq<int>, vs: seq<int>)
      requires Valid()
      modifies this`cachePos, this`tsmValues, this`tsmPos, this`blocks, t, v
      ensures Valid() && |ts| == |vs|
      ensures var left := old(Remaining());
              var k := BatchSize(left, t.Length);
              Zip(ts, vs) == left[..k] && Remaining() == left[k..]
    {
      hide Merged, Mergeable, DescLeft, Back;
      var pos := 0;
      ghost var out: seq<Value> := [];
      while pos < t.Length
        invariant Valid() && pos == |out| <= t.Length
        invariant old(Remaining()) == out + Remaining()
        invariant forall i :: 0 <= i < pos ==> out[i] == Value(t[i], v[i])
      {
        var found, time, value := Take();
        if !found {
          break;
        }
        t[pos] := time;
        v[pos] := value;
        out := out + [Value(time, value)];
        pos := pos + 1;
      }
      Unread(old(Remaining()), out, Remaining(), t.Length);
      ts, vs := t[..pos], v[..pos];
      assert Zip(ts, vs) == out;
    }

    /** Reads batches until an empty one. */
    method ReadAll() returns (bs: seq<seq<Value>>)
      requires Valid()
      modifies this`cachePos, this`tsmValues, this`tsmPos, this`blocks, t, v
      ensures Valid() && Remaining() == [] && bs == Batches(old(Remaining()), t.Length)
    {
      hide Merged, Mergeable, DescLeft, Back, Batches, NonEmpty;
      bs := [];
      var more := true;
      ghost var total := Batches(Remaining(), t.Length);
      while more
        invariant Valid() && (!more ==> Remaining() == [] && bs == total)
        invariant more ==> bs + Batches(Remaining(), t.Length) == total
        decreases more, |Remaining()|
      {
        ReadBatch(bs, Remaining(), t.Length, total);
        var ts, vs := Next();
        if |ts| == 0 {
          more := false;
        } else {
          bs := bs + [Zip(ts, vs)];
        }
      }
    }
  }

  // ---------------------------------------------------------------- range cursors

  /** How much of a batch is left when the values beyond the bound are stripped from its end. */
  method Strip(asc: bool, ts: seq<int>, bound: int) returns (n: nat)
    ensures n <= |ts| && forall i :: n <= i < |ts| ==> Precedes(asc, bound, ts[i])
    ensures n > 0 ==> !Precedes(asc, bound, ts[n - 1])
  {
    n := |ts|;
    if |ts| > 0 && Precedes(asc, bound, ts[|ts| - 1]) {
      var i := |ts| - 2;
      while i >= 0 && Precedes(asc, bound, ts[i])
        invariant -1 <= i <= |ts| - 2
        invariant forall j :: i < j < |ts| ==> Precedes(asc, bound, ts[j])
      {
        i := i - 1;
      }
      n := i + 1;
    }
  }

  /** Stripping an ordered batch keeps exactly its values inside the bound. */
  lemma {:induction false} Stripped(asc: bool, s: seq<Value>, bound: int, n: nat)
    requires Ordered(asc, s) && n <= |s|
    requires forall i :: n <= i < |s| ==> Precedes(asc, bound, s[i].time)
    requires n > 0 ==> !Precedes(asc, bound, s[n - 1].time)
    ensures Inside(asc, s, bound) == s[..n]
  {
    hide Inside;
    forall i | 0 <= i < n ensures !Precedes(asc, bound, s[i].time) {
      assert i == n - 1 || Precedes(asc, s[i].time, s[n - 1].time);
    }
    InsidePrefix(asc, s, bound, n);
  }

  lemma {:induction false} OrderedPrefix(asc: bool, s: seq<Value>, k: nat)
    requires Ordered(asc, s) && k <= |s|
    ensures Ordered(asc, s[..k])
  {
  }

  /** What was read so far, and what is still to come if there is more. */
  ghost predicate ReadSoFar(asc: bool, whole: seq<Value>, bs: seq<seq<Value>>, left: seq<Value>, bound: int, more: bool)
  {
    Inside(asc, whole, bound) == Concat(bs) + if more then Inside(asc, left, bound) else []
  }

  lemma {:induction false} ReadStart(asc: bool, whole: seq<Value>, bound: int)
    ensures ReadSoFar(asc, whole, [], whole, bound, true)
  {
    hide Inside;
    ConcatNone<Value>();
    assert [] + Inside(asc, whole, bound) == Inside(asc, whole, bound);
  }

  lemma {:induction false} ReadNext(asc: bool, whole: seq<Value>, bs: seq<seq<Value>>, left: seq<Value>, bound: int,
                                    k: nat, part: seq<Value>)
    requires ReadSoFar(asc, whole, bs, left, bound, true) && Ordered(asc, left)
    requires k <= |left| && (k == 0 ==> left == []) && part == Inside(asc, left[..k], bound)
    ensures ReadSoFar(asc, whole, if part == [] then bs else bs + [part], left[k..], bound, part != [])
    ensures part != [] ==> k > 0
  {
    hide Inside, Ordered, Concat;
    InsideStops(asc, left, bound, k);
    InsideNothing(asc, bound);
    ConcatSnoc(bs, part);
    Regrouped(Concat(bs), part, Inside(asc, left[k..], bound));
  }

  lemma {:induction false} InsideNothing(asc: bool, bound: int)
    ensures Inside(asc, [], bound) == []
  {
  }

  lemma {:induction false} ReadEnd(asc: bool, whole: seq<Value>, bs: seq<seq<Value>>, left: seq<Value>, bound: int)
    requires ReadSoFar(asc, whole, bs, left, bound, false)
    ensures Concat(bs) == Inside(asc, whole, bound)
  {
    hide Inside, Concat;
    assert Concat(bs) + [] == Concat(bs);
  }

  class AscendingRangeCursor {
    const cursor: AscendingCursor
    const bound: int

    constructor (cursor: AscendingCursor, bound: int)
      ensures this.cursor == cursor && this.bound == bound
    {
      this.cursor, this.bound := cursor, bound;
    }

    /** The next batch without the values after the bound. */
    method Next() returns (ts: seq<int>, vs: seq<int>)
      requires cursor.Valid()
      modifies cursor, cursor.t, cursor.v
      ensures cursor.Valid() && |ts| == |vs|
      ensures var left := old(cursor.Remaining());
              var k := BatchSize(left, cursor.t.Length);
              Zip(ts, vs) == Inside(true, left[..k], bound) && cursor.Remaining() == left[k..]
    {
      hide Merged, AscLeft, Inside, Ordered;
      ghost var left := cursor.Remaining();
      MergedOrdered(true, cursor.CacheLeft(), cursor.TsmLeft());
      ts, vs := cursor.Next();
      ghost var k := BatchSize(left, cursor.t.Length);
      OrderedPrefix(true, left, k);
      var n := Strip(true, ts, bound);
      assert forall i :: 0 <= i < |ts| ==> Zip(ts, vs)[i].time == ts[i];
      Stripped(true, left[..k], bound, n);
      assert Zip(ts[..n], vs[..n]) == Zip(ts, vs)[..n];
      ts, vs := ts[..n], vs[..n];
    }

    /** Reading until an empty batch gives the values up to the bound. */
    method ReadAll() returns (bs: seq<seq<Value>>)
      requires cursor.Valid()
      modifies cursor, cursor.t, cursor.v
      ensures Concat(bs) == Inside(true, old(cursor.Remaining()), bound)
    {
      hide Merged, Mergeable, AscLeft, Inside, Concat, Ordered, ReadSoFar, NonEmpty;
      bs := [];
      var more := true;
      ghost var whole := cursor.Remaining();
      ReadStart(true, whole, bound);
      while more
        invariant cursor.Valid() && ReadSoFar(true, whole, bs, cursor.Remaining(), bound, more)
        decreases more, |cursor.Remaining()|
      {
        ghost var left := cursor.Remaining();
        cursor.InTimeOrder();
        var ts, vs := Next();
        ReadNext(true, whole, bs, left, bound, BatchSize(left, cursor.t.Length), Zip(ts, vs));
        if |ts| == 0 {
          more := false;
        } else {
          bs := bs + [Zip(ts, vs)];
        }
      }
      ReadEnd(true, whole, bs, cursor.Remaining(), bound);
    }
  }

  class DescendingRangeCursor {
    const cursor: DescendingCursor
    const bound: int

    constructor (cursor: DescendingCursor, bound: int)
      ensures this.cursor == cursor && this.bound == bound
    {
      this.cursor, this.bound := cursor, bound;
    }

    /** The next batch without the values before the bound. */
    method Next() returns (ts: seq<int>, vs: seq<int>)
      requires cursor.Valid()
      modifies cursor, cursor.t, cursor.v
      ensures cursor.Valid() && |ts| == |vs|
      ensures var left := old(cursor.Remaining());
              var k := BatchSize(left, cursor.t.Length);
              Zip(ts, vs) == Inside(false, left[..k], bound) && cursor.Remaining() == left[k..]
    {
      hide Merged, DescLeft, Back, Inside, Ordered;
      ghost var left := cursor.Remaining();
      MergedOrdered(false, cursor.CacheLeft(), cursor.TsmLeft());
      ts, vs := cursor.Next();
      ghost var k := BatchSize(left, cursor.t.Length);
      OrderedPrefix(false, left, k);
      var n := Strip(false, ts, bound);
      assert forall i :: 0 <= i < |ts| ==> Zip(ts, vs)[i].time == ts[i];
      Stripped(false, left[..k], bound, n);
      assert Zip(ts[..n], vs[..n]) == Zip(ts, vs)[..n];
      ts, vs := ts[..n], vs[..n];
    }

    /** Reading until an empty batch gives the values down to the bound. */
    method ReadAll() returns (bs: seq<seq<Value>>)
      requires cursor.Valid()
      modifies cursor, cursor.t, cursor.v
      ensures Concat(bs) == Inside(false, old(cursor.Remaining()), bound)
    {
      hide Merged, Mergeable, DescLeft, Back, Inside, Concat, Ordered, ReadSoFar, NonEmpty;
      bs := [];
      var more := true;
      ghost var whole := cursor.Remaining();
      ReadStart(false, whole, bound);
      while more
        invariant cursor.Valid() && ReadSoFar(false, whole, bs, cursor.Remaining(), bound, more)
        decreases more, |cursor.Remaining()|
      {
        ghost var left := cursor.Remaining();
        cursor.InTimeOrder();
        var ts, vs := Next();
        ReadNext(false, whole, bs, left, bound, BatchSize(left, cursor.t.Length), Zip(ts, vs));
        if |ts| == 0 {
          more := false;
        } else {
          bs := bs + [Zip(ts, vs)];
        }
      }
      ReadEnd(false, whole, bs, cursor.Remaining(), bound);
    }
  }

  lemma {:induction false} CachedAlone(asc: bool, c: seq<Value>)
    ensures Merged(asc, c, []) == c
  {
  }

  /**
   * A whole ascending read: the values from `seek` to `bound`, cached ones winning, in time order,
   * provided the first block reaches the seek time. If it does not, the cached values alone.
   */
  method ReadAscending(seek: int, bound: int, cache: seq<Value>, found: seq<seq<Value>>, n: nat)
    returns (bs: seq<seq<Value>>)
    requires n > 0 && Ascending(cache) && Timed(cache)
    requires NonEmpty(found) && Ascending(Concat(found)) && Timed(Concat(found))
    ensures var stored := if AscReached(found, seek) then Inside(false, Concat(found), seek) else [];
            Concat(bs) == Inside(true, Merged(true, Inside(false, cache, seek), stored), bound)
    ensures !AscReached(found, seek) ==> Concat(bs) == Inside(true, Inside(false, cache, seek), bound)
  {
    hide Merged, Mergeable, AscLeft, Inside, Concat, AscReached;
    var c := new AscendingCursor(seek, cache, found, n);
    var r := new AscendingRangeCursor(c, bound);
    CachedAlone(true, Inside(false, cache, seek));
    bs := r.ReadAll();
  }

  /**
   * A whole descending read: the values from `seek` to `bound`, cached ones winning, latest first,
   * provided the first block reaches the seek time. If it does not, the cached values alone.
   */
  method ReadDescending(seek: int, bound: int, cache: seq<Value>, found: seq<seq<Value>>, n: nat)
    returns (bs: seq<seq<Value>>)
    requires n > 0 && Ascending(cache) && Timed(cache)
    requires NonEmpty(found) && Ordered(false, FlatBack(found)) && Timed(FlatBack(found))
    ensures var stored := if DescReached(found, seek) then Inside(true, FlatBack(found), seek) else [];
            Concat(bs) == Inside(false, Merged(false, Inside(true, Back(cache), seek), stored), bound)
    ensures !DescReached(found, seek) ==> Concat(bs) == Inside(false, Inside(true, Back(cache), seek), bound)
  {
    hide Merged, Mergeable, DescLeft, Inside, Concat, FlatBack, Back, DescReached;
    var c := new DescendingCursor(seek, cache, found, n);
    var r := new DescendingRangeCursor(c, bound);
    CachedAlone(false, Inside(true, Back(cache), seek));
    bs := r.ReadAll();
  }
}
