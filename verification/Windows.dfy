/**
 The value-level specification of de-duplicating compaction: what a stored block means,
 which time window one round of the merge selects, what the round consumes of each block,
 and the invariant that ties a partly compacted key to its original blocks.
 */
module Windows {
  import opened Values


  datatype TimeRange = TimeRange(min: int, max: int)

  /** A block as it lies in a TSM file: its decoded values and the tombstones of its file. */
  datatype Stored = Stored(values: seq<Value>, tombstones: seq<TimeRange>) {
    ghost predicate Valid() {
      && values != [] && Ascending(values)
      && MIN_TIME <= values[0].time && values[|values| - 1].time <= MAX_TIME
    }

    function MinTime(): int requires values != [] { values[0].time }

    function MaxTime(): int requires values != [] { values[|values| - 1].time }
  }

  /** A block together with the time range already read from it. */
  datatype Reading = Reading(stored: Stored, readMin: int, readMax: int) {
    ghost predicate Valid() { stored.Valid() }

    predicate Touches(min: int, max: int)
      requires stored.values != []
    {
      stored.MinTime() <= max && stored.MaxTime() >= min
    }

    predicate Done()
      requires stored.values != []
    {
      readMin <= stored.MinTime() && readMax >= stored.MaxTime()
    }

    predicate PartiallyRead()
      requires stored.values != []
    {
      if readMin == MAX_TIME && readMax == MIN_TIME then false
      else readMin != stored.MinTime() || readMax != stored.MaxTime()
    }
  }

  ghost predicate AllValid(bs: seq<Stored>) {
    forall i :: 0 <= i < |bs| ==> bs[i].Valid()
  }

  ghost predicate ValidReadings(rs: seq<Reading>) {
    forall i :: 0 <= i < |rs| ==> rs[i].Valid()
  }

  // ---------------------------------------------------------------- meaning of blocks

  /** The values that survive the tombstones, applied one after the other. */
  ghost function Alive(s: seq<Value>, ts: seq<TimeRange>): seq<Value> {
    if ts == [] then s
    else Without(Alive(s, ts[..|ts| - 1]), ts[|ts| - 1].min, ts[|ts| - 1].max)
  }

  ghost predicate Deleted(ts: seq<TimeRange>, t: int) {
    exists i :: 0 <= i < |ts| && ts[i].min <= t <= ts[i].max
  }

  /** The meaning of one block: its surviving values, last write wins. */
  ghost function BlockView(b: Stored): map<int, int> {
    View(Alive(b.values, b.tombstones))
  }

  /** The meaning of a list of blocks: later blocks overlay earlier ones. */
  ghost function Meaning(bs: seq<Stored>): map<int, int> {
    if bs == [] then map[] else Meaning(bs[..|bs| - 1]) + BlockView(bs[|bs| - 1])
  }

  /** The part of a map stamped within (lo, hi]. */
  ghost function Span(m: map<int, int>, lo: int, hi: int): map<int, int> {
    map t | t in m && lo < t <= hi :: m[t]
  }

  lemma {:induction false} AliveAscending(s: seq<Value>, ts: seq<TimeRange>)
    requires Ascending(s)
    ensures Ascending(Alive(s, ts))
  {
    if ts != [] {
      var r := ts[|ts| - 1];
      AliveAscending(s, ts[..|ts| - 1]);
      WithoutAscending(Alive(s, ts[..|ts| - 1]), r.min, r.max);
    }
  }

  /** A timestamp survives iff no tombstone covers it, and then keeps its value. */
  lemma {:induction false} AliveAt(s: seq<Value>, ts: seq<TimeRange>, t: int)
    ensures t in View(Alive(s, ts)) <==> t in View(s) && !Deleted(ts, t)
    ensures t in View(Alive(s, ts)) ==> View(Alive(s, ts))[t] == View(s)[t]
  {
    if ts != [] {
      hide View, Without;
      var p, r := ts[..|ts| - 1], ts[|ts| - 1];
      AliveAt(s, p, t);
      ViewFilterAt(Alive(s, p), r.min, r.max, t);
      DeletedSnoc(p, r, t);
      assert ts == p + [r];
    }
  }

  lemma {:induction false} DeletedSnoc(p: seq<TimeRange>, r: TimeRange, t: int)
    ensures Deleted(p + [r], t) <==> Deleted(p, t) || r.min <= t <= r.max
  {
    var s := p + [r];
    if Deleted(p, t) {
      var i :| 0 <= i < |p| && p[i].min <= t <= p[i].max;
      assert s[i] == p[i];
    }
    if r.min <= t <= r.max {
      assert s[|p|] == r;
    }
  }

  /** Cutting the values of (lo, hi] out of a block before or after its tombstones is the same. */
  lemma {:induction false} AliveSpan(s: seq<Value>, ts: seq<TimeRange>, lo: int, hi: int)
    requires Ascending(s) && lo < hi
    ensures Upto(s, lo) <= Upto(s, hi)
    ensures View(Alive(s[Upto(s, lo)..Upto(s, hi)], ts)) == Span(View(Alive(s, ts)), lo, hi)
  {
    hide View, Alive, Within, Without, Upto, Deleted;
    FilterAscending(s, lo + 1, hi);
    var part := s[Upto(s, lo)..Upto(s, hi)];
    forall t ensures t in View(Alive(part, ts)) <==> t in Span(View(Alive(s, ts)), lo, hi)
             ensures t in View(Alive(part, ts)) ==> View(Alive(part, ts))[t] == Span(View(Alive(s, ts)), lo, hi)[t] {
      AliveAt(s, ts, t);
      AliveAt(part, ts, t);
      ViewFilterAt(s, lo + 1, hi, t);
    }
  }

  lemma {:induction false} SpanAdd(a: map<int, int>, b: map<int, int>, lo: int, hi: int)
    ensures Span(a + b, lo, hi) == Span(a, lo, hi) + Span(b, lo, hi)
  {
  }

  lemma {:induction false} SpanSplit(m: map<int, int>, lo: int, mid: int, hi: int)
    requires lo <= mid <= hi
    ensures Span(m, lo, hi) == Span(m, lo, mid) + Span(m, mid, hi)
  {
  }

  // ---------------------------------------------------------------- one round

  /** One step of the window search: widen down to an overlapping block, narrow to its end. */
  function Narrow(w: TimeRange, r: Reading): TimeRange
    requires r.stored.values != []
  {
    if r.Touches(w.min, w.max) && !r.Done() then
      var min := if r.stored.MinTime() < w.min then r.stored.MinTime() else w.min;
      TimeRange(min, if r.stored.MaxTime() > min && r.stored.MaxTime() < w.max then r.stored.MaxTime() else w.max)
    else w
  }

  /** The window after the first `i` blocks have been looked at. */
  ghost function WindowAfter(rs: seq<Reading>, i: nat): TimeRange
    requires ValidReadings(rs) && 0 < |rs| && i <= |rs|
  {
    if i == 0 then TimeRange(rs[0].stored.MinTime(), rs[0].stored.MaxTime())
    else Narrow(WindowAfter(rs, i - 1), rs[i - 1])
  }

  ghost function Window(rs: seq<Reading>): TimeRange
    requires ValidReadings(rs) && 0 < |rs|
  {
    WindowAfter(rs, |rs|)
  }

  lemma {:induction false} WindowStart(rs: seq<Reading>)
    requires ValidReadings(rs) && 0 < |rs|
    ensures WindowAfter(rs, 0) == TimeRange(rs[0].stored.MinTime(), rs[0].stored.MaxTime())
  {
  }

  lemma {:induction false} WindowNext(rs: seq<Reading>, i: nat)
    requires ValidReadings(rs) && i < |rs|
    ensures WindowAfter(rs, i + 1) == Narrow(WindowAfter(rs, i), rs[i])
  {
  }

  /** The unread values of a block that fall in the window. */
  ghost function Fresh(r: Reading, w: TimeRange): seq<Value> {
    Within(Without(r.stored.values, r.readMin, r.readMax), w.min, w.max)
  }

  ghost predicate Skipped(r: Reading, w: TimeRange)
    requires r.Valid()
  {
    !r.Touches(w.min, w.max) || r.Done()
  }

  /** The block after the round has read its fresh values. */
  ghost function Step(r: Reading, w: TimeRange): Reading
    requires r.Valid()
  {
    if Skipped(r, w) then r else Marked(r, Fresh(r, w))
  }

  ghost function Marked(r: Reading, v: seq<Value>): Reading {
    if v == [] then r
    else Reading(r.stored,
                 if v[0].time < r.readMin then v[0].time else r.readMin,
                 if v[|v| - 1].time > r.readMax then v[|v| - 1].time else r.readMax)
  }

  /** What the round contributes from the block. */
  ghost function Part(r: Reading, w: TimeRange): seq<Value>
    requires r.Valid()
  {
    if Skipped(r, w) then [] else Alive(Fresh(r, w), r.stored.tombstones)
  }

  /** The overlay, in list order, of what the round contributes. */
  ghost function Parts(rs: seq<Reading>, w: TimeRange): map<int, int>
    requires ValidReadings(rs)
  {
    if rs == [] then map[] else Parts(rs[..|rs| - 1], w) + View(Part(rs[|rs| - 1], w))
  }

  ghost function StepAll(rs: seq<Reading>, w: TimeRange): seq<Reading>
    requires ValidReadings(rs)
  {
    seq(|rs|, i requires 0 <= i < |rs| => Step(rs[i], w))
  }

  /** How many blocks still hold unread values. */
  ghost function Pending(rs: seq<Reading>): nat
    requires ValidReadings(rs)
  {
    if rs == [] then 0 else Pending(rs[1..]) + if rs[0].Done() then 0 else 1
  }

  // ---------------------------------------------------------------- the window

  /** The window ends where some unread block ends, and reaches down to that block's start. */
  lemma {:induction false} WindowWitness(rs: seq<Reading>, i: nat) returns (k: nat)
    requires ValidReadings(rs) && 0 < |rs| && i <= |rs| && !rs[0].Done()
    ensures var w := WindowAfter(rs, i);
            && w.min <= rs[0].stored.MinTime()
            && k < |rs| && !rs[k].Done()
            && w.min <= rs[k].stored.MinTime() && w.max == rs[k].stored.MaxTime()
  {
    if i == 0 {
      k := 0;
    } else {
      var w := WindowAfter(rs, i - 1);
      k := WindowWitness(rs, i - 1);
      if WindowAfter(rs, i).max != w.max {
        k := i - 1;
      }
    }
  }

  /** If no unread block ends before the head starts, the window reaches down to every unread block. */
  lemma {:induction false} WindowLowest(rs: seq<Reading>, i: nat)
    requires ValidReadings(rs) && 0 < |rs| && i <= |rs| && !rs[0].Done()
    requires forall k :: 0 <= k < |rs| && !rs[k].Done() ==> rs[0].stored.MinTime() <= rs[k].stored.MaxTime()
    ensures var w := WindowAfter(rs, i);
            forall k :: 0 <= k < i && !rs[k].Done() ==> w.min <= rs[k].stored.MinTime()
  {
    if i > 0 {
      WindowLowest(rs, i - 1);
      var _ := WindowWitness(rs, i - 1);
      var k := WindowWitness(rs, i);
    }
  }

  /** If nothing else overlaps the head, the window is the head's own range. */
  lemma {:induction false} WindowLone(rs: seq<Reading>, i: nat)
    requires ValidReadings(rs) && 0 < |rs| && i <= |rs|
    requires forall k :: 0 < k < |rs| ==> !rs[k].Touches(rs[0].stored.MinTime(), rs[0].stored.MaxTime())
    ensures WindowAfter(rs, i) == TimeRange(rs[0].stored.MinTime(), rs[0].stored.MaxTime())
  {
    if i > 0 {
      WindowLone(rs, i - 1);
    }
  }

  // ---------------------------------------------------------------- the read range

  /** Exactly the values up to `f` have been read: the read range covers that prefix. */
  ghost predicate Tracked(r: Reading, f: int)
    requires r.Valid()
  {
    var n := Upto(r.stored.values, f);
    if n == 0 then r.readMin == MAX_TIME && r.readMax == MIN_TIME
    else r.readMin == r.stored.MinTime() && r.readMax == r.stored.values[n - 1].time
  }

  lemma {:induction false} TrackedDone(r: Reading, f: int)
    requires r.Valid() && Tracked(r, f)
    ensures r.Done() <==> r.stored.MaxTime() <= f
  {
    hide Upto;
    var n := Upto(r.stored.values, f);
    if 0 < n < |r.stored.values| {
      assert r.stored.values[n - 1].time < r.stored.MaxTime();
    }
  }

  /** What a tracked block has not read yet is the suffix after `f`. */
  lemma {:induction false} UnreadSuffix(r: Reading, f: int)
    requires r.Valid() && Tracked(r, f)
    ensures Without(r.stored.values, r.readMin, r.readMax) == r.stored.values[Upto(r.stored.values, f)..]
  {
    hide Upto, Within, Without;
    var v, n := r.stored.values, Upto(r.stored.values, f);
    if n == 0 {
      FilterNone(v, r.readMin, r.readMax);
    } else {
      FilterSlices(v, r.readMin, r.readMax, 0, n);
    }
  }

  /** The unread values in the window are the next slice of a tracked block. */
  lemma {:induction false} FreshSlice(r: Reading, f: int, w: TimeRange)
    requires r.Valid() && Tracked(r, f) && f < w.max && w.min <= r.stored.MinTime() && w.min <= w.max
    ensures var v := r.stored.values;
            && Upto(v, f) <= Upto(v, w.max)
            && Fresh(r, w) == v[Upto(v, f)..Upto(v, w.max)]
  {
    hide Upto, Within, Without, Tracked;
    var v, n, m := r.stored.values, Upto(r.stored.values, f), Upto(r.stored.values, w.max);
    UptoMonotone(v, f, w.max);
    UnreadSuffix(r, f);
    SuffixWithin(v, n, m, w.min, w.max);
  }

  lemma {:induction false} SuffixWithin(v: seq<Value>, n: nat, m: nat, min: int, max: int)
    requires Ascending(v) && n <= m <= |v|
    requires v != [] ==> min <= v[0].time
    requires forall i :: 0 <= i < m ==> v[i].time <= max
    requires forall i :: m <= i < |v| ==> max < v[i].time
    ensures Within(v[n..], min, max) == v[n..m]
  {
    hide Within, Without;
    assert v[n..] == v[n..m] + v[m..];
    FilterAppend(v[n..m], v[m..], min, max);
    assert forall i :: n <= i < m ==> v[0].time <= v[i].time;
    FilterAll(v[n..m], min, max);
    FilterNone(v[m..], min, max);
  }

  /** A round moves a tracked block from `f` to the end of the window. */
  lemma {:induction false} StepTracked(r: Reading, f: int, w: TimeRange)
    requires r.Valid() && Tracked(r, f) && f < w.max && w.min <= w.max
    requires r.Done() || w.min <= r.stored.MinTime()
    ensures Step(r, w).stored == r.stored && Tracked(Step(r, w), w.max)
  {
    hide Upto, Within, Without, Fresh;
    var v, n, m := r.stored.values, Upto(r.stored.values, f), Upto(r.stored.values, w.max);
    TrackedDone(r, f);
    if r.Done() {
      UptoAll(v, f);
      UptoAll(v, w.max);
    } else if !r.Touches(w.min, w.max) {
      UptoNone(v, f);
      UptoNone(v, w.max);
    } else {
      FreshSlice(r, f, w);
    }
  }

  /** What a round takes from a tracked block is the block's meaning between `f` and the window's end. */
  lemma {:induction false} PartTracked(r: Reading, f: int, w: TimeRange)
    requires r.Valid() && Tracked(r, f) && f < w.max && w.min <= w.max
    requires r.Done() || w.min <= r.stored.MinTime()
    ensures View(Part(r, w)) == Span(BlockView(r.stored), f, w.max)
  {
    hide View, Alive, Upto, Within, Without, Fresh;
    TrackedDone(r, f);
    if Skipped(r, w) {
      EmptyView();
      SpanEmpty(r.stored, f, w.max);
    } else {
      FreshSlice(r, f, w);
      AliveSpan(r.stored.values, r.stored.tombstones, f, w.max);
    }
  }

  /** A block without values in (lo, hi] means nothing there. */
  lemma {:induction false} SpanEmpty(b: Stored, lo: int, hi: int)
    requires b.Valid()
    requires b.MaxTime() <= lo || hi < b.MinTime()
    ensures Span(BlockView(b), lo, hi) == map[]
  {
    hide View, Alive, Deleted;
    forall t | lo < t <= hi ensures t !in BlockView(b) {
      AliveAt(b.values, b.tombstones, t);
      ViewKeys(b.values, t);
    }
  }

  /** A block that lies inside the window is read to the end. */
  lemma {:induction false} StepCovers(r: Reading, w: TimeRange)
    requires r.Valid() && w.min <= r.stored.MinTime() && r.stored.MaxTime() <= w.max
    ensures Step(r, w).stored == r.stored && Step(r, w).Done()
  {
    hide Fresh, Marked;
    if !Skipped(r, w) {
      FreshAll(r, w);
    }
  }

  lemma {:induction false} FreshAll(r: Reading, w: TimeRange)
    requires r.Valid() && w.min <= r.stored.MinTime() && r.stored.MaxTime() <= w.max
    ensures Marked(r, Fresh(r, w)).stored == r.stored && Marked(r, Fresh(r, w)).Done()
  {
    hide Within, Without, Marked, Reading.Done, Ascending;
    var lo, hi := UnreadSlices(r);
    TwoSlices(r.stored.values, lo, hi, w);
    MarkedCovers(r, lo, hi);
  }

  /** What is unread is a start and an end of the block. */
  lemma {:induction false} UnreadSlices(r: Reading) returns (lo: nat, hi: nat)
    requires r.Valid()
    ensures lo <= hi <= |r.stored.values|
    ensures Without(r.stored.values, r.readMin, r.readMax) == r.stored.values[..lo] + r.stored.values[hi..]
    ensures lo == 0 < hi ==> r.readMin <= r.stored.MinTime()
    ensures lo < hi == |r.stored.values| ==> r.stored.MaxTime() <= r.readMax
  {
    hide Within, Without, Upto, Ascending;
    var v := r.stored.values;
    lo, hi := 0, 0;
    if r.readMin > r.readMax {
      FilterNone(v, r.readMin, r.readMax);
      assert v[..0] + v[0..] == v;
    } else {
      FilterAscending(v, r.readMin, r.readMax);
      lo, hi := Upto(v, r.readMin - 1), Upto(v, r.readMax);
      assert 0 < |v| && (lo == 0 ==> v[0].time > r.readMin - 1) && (hi == |v| ==> v[|v| - 1].time <= r.readMax);
    }
  }

  lemma {:induction false} MarkedCovers(r: Reading, lo: nat, hi: nat)
    requires r.Valid() && lo <= hi <= |r.stored.values|
    requires lo == 0 < hi ==> r.readMin <= r.stored.MinTime()
    requires lo < hi == |r.stored.values| ==> r.stored.MaxTime() <= r.readMax
    ensures var u := r.stored.values[..lo] + r.stored.values[hi..];
            Marked(r, u).stored == r.stored && Marked(r, u).Done()
  {
  }

  lemma {:induction false} TwoSlices(v: seq<Value>, lo: nat, hi: nat, w: TimeRange)
    requires Ascending(v) && lo <= hi <= |v|
    requires v != [] ==> w.min <= v[0].time && v[|v| - 1].time <= w.max
    ensures Within(v[..lo] + v[hi..], w.min, w.max) == v[..lo] + v[hi..]
  {
    hide Within;
    var u := v[..lo] + v[hi..];
    forall i | 0 <= i < |u| ensures w.min <= u[i].time <= w.max {
      assert u[i] == if i < lo then v[i] else v[i + (hi - lo)];
    }
    FilterAll(u, w.min, w.max);
  }

  lemma {:induction false} StepSkips(r: Reading, w: TimeRange)
    requires r.Valid() && !r.Touches(w.min, w.max)
    ensures Step(r, w) == r
  {
  }

  /** A round never un-reads anything. */
  lemma {:induction false} StepMonotone(r: Reading, w: TimeRange)
    requires r.Valid()
    ensures Step(r, w).stored == r.stored
    ensures r.Done() ==> Step(r, w).Done()
  {
  }

  // ---------------------------------------------------------------- a whole round

  lemma {:induction false} StepAllValid(rs: seq<Reading>, w: TimeRange)
    requires ValidReadings(rs)
    ensures ValidReadings(StepAll(rs, w))
  {
    hide Step;
    forall i | 0 <= i < |rs| ensures StepAll(rs, w)[i].Valid() {
      StepMonotone(rs[i], w);
    }
  }

  lemma {:induction false} PendingDrops(rs: seq<Reading>, w: TimeRange, k: nat)
    requires ValidReadings(rs) && k <= |rs|
    requires k < |rs| ==> !rs[k].Done() && Step(rs[k], w).Done()
    ensures ValidReadings(StepAll(rs, w))
    ensures Pending(StepAll(rs, w)) <= Pending(rs) - if k < |rs| then 1 else 0
  {
    StepAllValid(rs, w);
    if rs != [] {
      hide Step;
      var t := StepAll(rs, w);
      assert t[1..] == StepAll(rs[1..], w);
      StepMonotone(rs[0], w);
      PendingDrops(rs[1..], w, if k == 0 then |rs| - 1 else k - 1);
    }
  }

  /** Every round reads at least one more block to its end. */
  lemma {:induction false} RoundProgress(rs: seq<Reading>)
    requires ValidReadings(rs) && 0 < |rs| && !rs[0].Done()
    ensures var next := StepAll(rs, Window(rs));
            ValidReadings(next) && Pending(next) < Pending(rs)
  {
    hide Step;
    var k := WindowWitness(rs, |rs|);
    StepCovers(rs[k], Window(rs));
    PendingDrops(rs, Window(rs), k);
  }

  ghost function StoredOf(rs: seq<Reading>): seq<Stored> {
    seq(|rs|, i requires 0 <= i < |rs| => rs[i].stored)
  }

  /** A round over tracked blocks contributes their meaning between `f` and the window's end. */
  lemma {:induction false} PartsTracked(rs: seq<Reading>, f: int, w: TimeRange)
    requires ValidReadings(rs) && f < w.max && w.min <= w.max
    requires forall k :: 0 <= k < |rs| ==> Tracked(rs[k], f) && (rs[k].Done() || w.min <= rs[k].stored.MinTime())
    ensures Parts(rs, w) == Span(Meaning(StoredOf(rs)), f, w.max)
  {
    hide Tracked, Part, BlockView;
    if rs != [] {
      var p, r := rs[..|rs| - 1], rs[|rs| - 1];
      PartsTracked(p, f, w);
      PartTracked(r, f, w);
      assert StoredOf(rs)[..|rs| - 1] == StoredOf(p);
      SpanAdd(Meaning(StoredOf(p)), BlockView(r.stored), f, w.max);
    }
  }

  // ---------------------------------------------------------------- the run invariant

  /** A time before every timestamp. */
  const START := MIN_TIME - 1

  /**
   No block falls into a gap: a block that ends before an earlier one starts is
   outlasted by a still earlier block.
   */
  ghost predicate InOrder(all: seq<Stored>)
    requires AllValid(all)
  {
    forall i, j :: 0 <= i < j < |all| && all[j].MaxTime() < all[i].MinTime() ==>
                     exists k :: 0 <= k < i && all[j].MaxTime() <= all[k].MaxTime()
  }

  /** Blocks listed by ascending start are in order. */
  lemma {:induction false} AscendingStarts(all: seq<Stored>)
    requires AllValid(all) && forall i, j :: 0 <= i < j < |all| ==> all[i].MinTime() <= all[j].MinTime()
    ensures InOrder(all)
  {
    forall i, j | 0 <= i < j < |all| ensures all[i].MinTime() <= all[j].MaxTime() {
      assert all[j].Valid();
    }
  }

  /** The remaining readings are the tail of the original blocks, read up to `f`; the rest is finished. */
  ghost predicate Consumed(all: seq<Stored>, rs: seq<Reading>, f: int) {
    && AllValid(all) && ValidReadings(rs) && |rs| <= |all|
    && (forall i :: 0 <= i < |rs| ==> rs[i].stored == all[|all| - |rs| + i] && Tracked(rs[i], f))
    && (forall i :: 0 <= i < |all| - |rs| ==> all[i].MaxTime() <= f)
  }

  /** `out` is the ascending overlay of everything stamped up to `f`. */
  ghost predicate Produced(all: seq<Stored>, out: seq<Value>, f: int) {
    && START <= f
    && Ascending(out) && AtMost(out, f)
    && View(out) == Span(Meaning(all), START, f)
  }

  ghost function Unread(b: Stored): Reading {
    Reading(b, MAX_TIME, MIN_TIME)
  }

  lemma {:induction false} OverlayAssociative(a: map<int, int>, b: map<int, int>, c: map<int, int>)
    ensures (a + b) + c == a + (b + c)
  {
  }

  lemma {:induction false} MeaningSnoc(s: seq<Stored>, b: Stored)
    ensures Meaning(s + [b]) == Meaning(s) + BlockView(b)
  {
    assert (s + [b])[..|s|] == s;
  }

  lemma {:induction false} MeaningAppend(a: seq<Stored>, b: seq<Stored>)
    ensures Meaning(a + b) == Meaning(a) + Meaning(b)
    decreases |b|
  {
    if b == [] {
      assert a + b == a;
    } else {
      hide *;
      var p, x := b[..|b| - 1], b[|b| - 1];
      assert b == p + [x] && a + b == (a + p) + [x];
      MeaningAppend(a, p);
      MeaningSnoc(p, x);
      MeaningSnoc(a + p, x);
      OverlayAssociative(Meaning(a), Meaning(p), BlockView(x));
    }
  }

  lemma {:induction false} MeaningEmptySpan(bs: seq<Stored>, lo: int, hi: int)
    requires AllValid(bs)
    requires forall i :: 0 <= i < |bs| ==> bs[i].MaxTime() <= lo || hi < bs[i].MinTime()
    ensures Span(Meaning(bs), lo, hi) == map[]
  {
    if bs != [] {
      hide BlockView;
      var p, b := bs[..|bs| - 1], bs[|bs| - 1];
      MeaningEmptySpan(p, lo, hi);
      SpanEmpty(b, lo, hi);
      SpanAdd(Meaning(p), BlockView(b), lo, hi);
    }
  }

  lemma {:induction false} MeaningBounded(bs: seq<Stored>, lo: int, hi: int)
    requires AllValid(bs)
    requires forall i :: 0 <= i < |bs| ==> lo < bs[i].MinTime() && bs[i].MaxTime() <= hi
    ensures Span(Meaning(bs), lo, hi) == Meaning(bs)
  {
    if bs != [] {
      hide BlockView;
      var p, b := bs[..|bs| - 1], bs[|bs| - 1];
      MeaningBounded(p, lo, hi);
      BlockBounded(b, lo, hi);
      SpanAdd(Meaning(p), BlockView(b), lo, hi);
    }
  }

  lemma {:induction false} BlockBounded(b: Stored, lo: int, hi: int)
    requires b.Valid() && lo < b.MinTime() && b.MaxTime() <= hi
    ensures Span(BlockView(b), lo, hi) == BlockView(b)
  {
    hide View, Alive, Deleted;
    forall t | t in BlockView(b) ensures lo < t <= hi {
      AliveAt(b.values, b.tombstones, t);
      ViewKeys(b.values, t);
    }
  }

  /** Blocks already finished add nothing beyond `f`. */
  lemma {:induction false} ConsumedSpan(all: seq<Stored>, rs: seq<Reading>, f: int, hi: int)
    requires Consumed(all, rs, f)
    ensures Span(Meaning(all), f, hi) == Span(Meaning(StoredOf(rs)), f, hi)
  {
    hide Meaning, Tracked;
    var n := |all| - |rs|;
    assert StoredOf(rs) == all[n..];
    assert all == all[..n] + all[n..];
    MeaningAppend(all[..n], all[n..]);
    MeaningEmptySpan(all[..n], f, hi);
    SpanAdd(Meaning(all[..n]), Meaning(all[n..]), f, hi);
  }

  ghost predicate AtMost(s: seq<Value>, f: int) {
    forall i :: 0 <= i < |s| ==> s[i].time <= f
  }

  /** Merging in only later timestamps keeps a list behind `done`. */
  lemma {:induction false} StillBefore(done: seq<Value>, m: seq<Value>, m': seq<Value>, f: int, hi: int,
                                       added: map<int, int>)
    requires Before(done, m) && Ascending(m') && View(m') == View(m) + added
    requires AtMost(done, f) && AtMost(m, hi)
    requires forall t :: t in added ==> f < t <= hi
    ensures Before(done, m') && AtMost(m', hi)
  {
    hide View;
    forall i | 0 <= i < |m'|
      ensures m'[i].time <= hi && forall j :: 0 <= j < |done| ==> done[j].time < m'[i].time {
      ViewAt(m', i);
      ViewKeys(m, m'[i].time);
    }
  }

  lemma {:induction false} SplitAscending(a: seq<Value>, b: seq<Value>, f: int)
    requires Ascending(a + b) && AtMost(a + b, f)
    ensures Ascending(a) && Ascending(b) && Before(a, b)
    ensures AtMost(a, f) && AtMost(b, f)
  {
    var s := a + b;
    assert forall i :: 0 <= i < |a| ==> s[i] == a[i];
    assert forall i :: 0 <= i < |b| ==> s[|a| + i] == b[i];
  }

  lemma {:induction false} JoinAscending(a: seq<Value>, b: seq<Value>, f: int)
    requires Ascending(a) && Ascending(b) && Before(a, b)
    requires AtMost(a, f) && AtMost(b, f)
    ensures Ascending(a + b) && AtMost(a + b, f)
  {
  }

  lemma {:induction false} AtMostWeaken(s: seq<Value>, f: int, g: int)
    requires AtMost(s, f) && f <= g
    ensures AtMost(s, g)
  {
  }

  /** Extending the output by an ascending list that means the next span. */
  lemma {:induction false} ProducedMore(all: seq<Stored>, done: seq<Value>, m: seq<Value>, m': seq<Value>, f: int,
                                        hi: int)
    requires Produced(all, done + m, f) && f <= hi
    requires Ascending(m') && View(m') == View(m) + Span(Meaning(all), f, hi)
    ensures Produced(all, done + m', hi)
  {
    hide View, Meaning, Ascending, Before, AtMost;
    var added := Span(Meaning(all), f, hi);
    SplitAscending(done, m, f);
    AtMostWeaken(m, f, hi);
    StillBefore(done, m, m', f, hi, added);
    AtMostWeaken(done, f, hi);
    JoinAscending(done, m', hi);
    ViewAppend(done, m);
    ViewAppend(done, m');
    OverlayAssociative(View(done), View(m), added);
    SpanSplit(Meaning(all), START, f, hi);
  }

  lemma {:induction false} InitiallySynced(all: seq<Stored>)
    requires AllValid(all)
    ensures Consumed(all, seq(|all|, i requires 0 <= i < |all| => Unread(all[i])), START)
    ensures Produced(all, [], START)
  {
    hide Meaning, Upto;
    forall i | 0 <= i < |all| ensures Tracked(Unread(all[i]), START) {
      UptoNone(all[i].values, START);
    }
  }

  lemma {:induction false} DropDone(all: seq<Stored>, rs: seq<Reading>, f: int)
    requires Consumed(all, rs, f) && rs != [] && rs[0].Done()
    ensures Consumed(all, rs[1..], f)
  {
    hide Tracked;
    TrackedDone(rs[0], f);
  }

  /** Once no block is left, the output is the overlay of all of them. */
  lemma {:induction false} Finished(all: seq<Stored>, out: seq<Value>, f: int)
    requires Consumed(all, [], f) && Produced(all, out, f)
    ensures Ascending(out) && View(out) == Meaning(all)
  {
    hide Meaning;
    MeaningBounded(all, START, f);
  }

  /** Behind a start of the key that ends by `f`, no block that ends later ends before the next one starts. */
  lemma {:induction false} LowestAt(all: seq<Stored>, n: nat, f: int, j: nat)
    requires AllValid(all) && InOrder(all) && n <= j < |all| && all[j].MaxTime() > f
    requires forall i :: 0 <= i < n ==> all[i].MaxTime() <= f
    ensures all[n].MinTime() <= all[j].MaxTime()
  {
    assert forall k :: 0 <= k < n ==> all[k].MaxTime() < all[j].MaxTime();
    ValidSpan(all, n);
  }

  lemma {:induction false} ValidSpan(all: seq<Stored>, n: nat)
    requires AllValid(all) && n < |all|
    ensures all[n].MinTime() <= all[n].MaxTime()
  {
  }

  /** In an ordered key no unread block ends before the head starts. */
  lemma {:induction false} HeadLowest(all: seq<Stored>, rs: seq<Reading>, f: int)
    requires Consumed(all, rs, f) && InOrder(all) && rs != []
    ensures forall k :: 0 <= k < |rs| && !rs[k].Done() ==> rs[0].stored.MinTime() <= rs[k].stored.MaxTime()
  {
    hide Tracked, Reading.Done, InOrder, Stored.MinTime, Stored.MaxTime;
    forall k | 0 <= k < |rs| && !rs[k].Done()
      ensures rs[0].stored.MinTime() <= rs[k].stored.MaxTime() {
      TrackedDone(rs[k], f);
      LowestAt(all, |all| - |rs|, f, |all| - |rs| + k);
    }
  }

  /** In an ordered key the window starts at or before every unread block and ends after `f`. */
  lemma {:induction false} RoundWindow(all: seq<Stored>, rs: seq<Reading>, f: int)
    requires Consumed(all, rs, f) && InOrder(all) && rs != [] && !rs[0].Done()
    ensures var w := Window(rs);
            && f < w.max && w.min <= w.max
            && forall k :: 0 <= k < |rs| ==> rs[k].Done() || w.min <= rs[k].stored.MinTime()
  {
    hide Tracked, InOrder;
    var k := WindowWitness(rs, |rs|);
    TrackedDone(rs[k], f);
    HeadLowest(all, rs, f);
    WindowLowest(rs, |rs|);
  }

  /** One round moves the whole key from `f` to the end of the window. */
  lemma {:induction false} RoundConsumed(all: seq<Stored>, rs: seq<Reading>, f: int)
    requires Consumed(all, rs, f) && InOrder(all) && rs != [] && !rs[0].Done()
    ensures f < Window(rs).max
    ensures Consumed(all, StepAll(rs, Window(rs)), Window(rs).max)
  {
    hide Step, Tracked, InOrder, Window;
    var w := Window(rs);
    RoundWindow(all, rs, f);
    forall i | 0 <= i < |rs| ensures Step(rs[i], w).stored == rs[i].stored && Tracked(Step(rs[i], w), w.max) {
      StepTracked(rs[i], f, w);
    }
  }

  /** One round contributes the key's meaning between `f` and the end of the window. */
  lemma {:induction false} RoundProduced(all: seq<Stored>, rs: seq<Reading>, f: int)
    requires Consumed(all, rs, f) && InOrder(all) && rs != [] && !rs[0].Done()
    ensures Parts(rs, Window(rs)) == Span(Meaning(all), f, Window(rs).max)
  {
    hide Meaning, Parts, Tracked, InOrder, Window;
    RoundWindow(all, rs, f);
    PartsTracked(rs, f, Window(rs));
    ConsumedSpan(all, rs, f, Window(rs).max);
  }

  // ---------------------------------------------------------------- blocks that need no de-duplication

  /** The blocks are untombstoned, not partially read, ascending and pairwise disjoint. */
  ghost predicate Disjoint(rs: seq<Reading>)
    requires ValidReadings(rs)
  {
    && (forall i :: 0 <= i < |rs| ==> rs[i].stored.tombstones == [] && !rs[i].PartiallyRead())
    && (forall i, j :: 0 <= i < j < |rs| ==> rs[i].stored.MaxTime() < rs[j].stored.MinTime())
  }

  lemma {:induction false} DisjointTail(rs: seq<Reading>, i: nat)
    requires ValidReadings(rs) && Disjoint(rs) && i <= |rs|
    ensures ValidReadings(rs[i..]) && Disjoint(rs[i..])
  {
  }

  lemma {:induction false} PendingTail(rs: seq<Reading>, i: nat)
    requires ValidReadings(rs) && i <= |rs|
    ensures ValidReadings(rs[i..]) && Pending(rs[i..]) <= Pending(rs)
  {
    if i > 0 {
      PendingTail(rs[1..], i - 1);
      assert rs[1..][i - 1..] == rs[i..];
    }
  }

  /** An unread block of a disjoint list can be taken whole. */
  lemma {:induction false} TakeWhole(all: seq<Stored>, rs: seq<Reading>, f: int)
    requires Consumed(all, rs, f) && rs != [] && !rs[0].Done() && Disjoint(rs)
    ensures f < rs[0].stored.MaxTime()
    ensures Consumed(all, rs[1..], rs[0].stored.MaxTime())
    ensures View(rs[0].stored.values) == Span(Meaning(all), f, rs[0].stored.MaxTime())
  {
    hide Upto, Meaning, View;
    var hi := rs[0].stored.MaxTime();
    TrackedDone(rs[0], f);
    forall k | 0 < k < |rs| ensures Tracked(rs[k], hi) {
      UptoNone(rs[k].stored.values, f);
      UptoNone(rs[k].stored.values, hi);
    }
    WholeSpan(rs, f);
    ConsumedSpan(all, rs, f, hi);
  }

  lemma {:induction false} WholeSpan(rs: seq<Reading>, f: int)
    requires ValidReadings(rs) && rs != [] && !rs[0].Done() && Disjoint(rs) && Tracked(rs[0], f)
    ensures View(rs[0].stored.values) == Span(Meaning(StoredOf(rs)), f, rs[0].stored.MaxTime())
  {
    hide Meaning, View;
    var b, rest := rs[0].stored, StoredOf(rs[1..]);
    assert StoredOf(rs) == [b] + rest;
    assert [] + [b] == [b];
    MeaningAppend([b], rest);
    MeaningSnoc([], b);
    MeaningNothing();
    MeaningEmptySpan(rest, f, b.MaxTime());
    FreshHead(rs[0], f);
    BlockBounded(b, f, b.MaxTime());
    SpanAdd(Meaning([b]), Meaning(rest), f, b.MaxTime());
    assert BlockView(b) == View(b.values);
  }

  lemma {:induction false} MeaningNothing()
    ensures Meaning([]) == map[]
  {
  }

  lemma {:induction false} FreshHead(r: Reading, f: int)
    requires r.Valid() && !r.Done() && !r.PartiallyRead() && Tracked(r, f)
    ensures f < r.stored.MinTime()
  {
    hide Upto;
  }

  // ---------------------------------------------------------------- blocks left behind

  /**
   The head is untouched, nothing overlaps it, it alone fills a chunk, and a later block
   lies wholly before it.
   */
  ghost predicate Strands(rs: seq<Reading>, size: nat)
    requires ValidReadings(rs)
  {
    && rs != [] && rs[0] == Unread(rs[0].stored) && rs[0].stored.tombstones == []
    && |rs[0].stored.values| >= size
    && (forall k :: 0 < k < |rs| ==> !rs[k].Touches(rs[0].stored.MinTime(), rs[0].stored.MaxTime()))
    && (exists j :: 0 < j < |rs| && rs[j].stored.MaxTime() < rs[0].stored.MinTime())
  }

  lemma {:induction false} StrandsNotDone(rs: seq<Reading>, size: nat)
    requires ValidReadings(rs) && Strands(rs, size)
    ensures !rs[0].Done() && !Disjoint(rs)
  {
    var j :| 0 < j < |rs| && rs[j].stored.MaxTime() < rs[0].stored.MinTime();
    assert rs[j].stored.MinTime() <= rs[j].stored.MaxTime();
  }

  /** Then the first round takes exactly the head. */
  lemma {:induction false} StrandsRound(rs: seq<Reading>, size: nat)
    requires ValidReadings(rs) && Strands(rs, size)
    ensures Parts(rs, Window(rs)) == View(rs[0].stored.values)
  {
    hide View, Parts, WindowAfter;
    WindowLone(rs, |rs|);
    var w := TimeRange(rs[0].stored.MinTime(), rs[0].stored.MaxTime());
    LoneParts(rs, |rs|, w);
    assert rs[..|rs|] == rs;
    HeadPart(rs[0]);
  }

  lemma {:induction false} HeadPart(r: Reading)
    requires r.Valid() && r == Unread(r.stored) && r.stored.tombstones == []
    ensures Part(r, TimeRange(r.stored.MinTime(), r.stored.MaxTime())) == r.stored.values
  {
    hide Within, Without;
    FilterNone(r.stored.values, r.readMin, r.readMax);
    FilterAll(r.stored.values, r.stored.MinTime(), r.stored.MaxTime());
  }

  lemma {:induction false} LoneParts(rs: seq<Reading>, i: nat, w: TimeRange)
    requires ValidReadings(rs) && 0 < i <= |rs|
    requires forall k :: 0 < k < |rs| ==> !rs[k].Touches(w.min, w.max)
    ensures Parts(rs[..i], w) == View(Part(rs[0], w))
  {
    hide View;
    assert rs[..i][..i - 1] == rs[..i - 1];
    if i == 1 {
      assert rs[..0] == [];
    } else {
      LoneParts(rs, i - 1, w);
      EmptyView();
    }
  }

  lemma {:induction false} MeaningHas(bs: seq<Stored>, j: nat, t: int)
    requires j < |bs| && t in BlockView(bs[j])
    ensures t in Meaning(bs)
  {
    if j < |bs| - 1 {
      MeaningHas(bs[..|bs| - 1], j, t);
    }
  }

  /** An output that starts at the head of a stranding list is not the ascending overlay. */
  lemma {:induction false} StrandedOutput(all: seq<Stored>, j: nat, t: int, out: seq<Value>)
    requires j < |all| && t in BlockView(all[j])
    requires out != [] && t < out[0].time
    ensures !(Ascending(out) && View(out) == Meaning(all))
  {
    hide View, Meaning, BlockView;
    MeaningHas(all, j, t);
    ViewKeys(out, t);
  }
}
