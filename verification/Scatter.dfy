/**
 Keys whose blocks do not overlap but are listed in any order: no value is lost, and the output
 is in order exactly if no block arrives after a chunk that should have followed it was cut.
 */
module Scatter {
  import opened Values
  import opened Windows
  import Bits

  /** No two blocks overlap in time. */
  ghost predicate Apart(all: seq<Stored>)
    requires AllValid(all)
  {
    forall i, j :: 0 <= i < j < |all| ==> all[i].MaxTime() < all[j].MinTime() || all[j].MaxTime() < all[i].MinTime()
  }

  /** The values of a block that survive its tombstones. */
  ghost function Live(b: Stored): seq<Value> {
    Alive(b.values, b.tombstones)
  }

  ghost function Count(bs: seq<Stored>): nat {
    if bs == [] then 0 else Count(bs[..|bs| - 1]) + |Live(bs[|bs| - 1])|
  }

  /** How many values lie in blocks that end before `t`. */
  ghost function Earlier(bs: seq<Stored>, t: int): nat
    requires AllValid(bs)
  {
    if bs == [] then 0
    else Earlier(bs[..|bs| - 1], t) + if bs[|bs| - 1].MaxTime() < t then |Live(bs[|bs| - 1])| else 0
  }

  /**
   * When block `j` is reached, full chunks have been cut off the values before it. All is well if the
   * values that belong before the block suffice to fill them.
   */
  ghost predicate WellCut(all: seq<Stored>, size: nat, j: nat)
    requires AllValid(all) && j < |all| && size > 0
  {
    Live(all[j]) == [] || size * (Count(all[..j]) / size) <= Earlier(all[..j], all[j].MinTime())
  }

  ghost predicate AllWellCut(all: seq<Stored>, size: nat)
    requires AllValid(all) && size > 0
  {
    forall j :: 0 <= j < |all| ==> WellCut(all, size, j)
  }

  ghost predicate IllCutFrom(all: seq<Stored>, size: nat, n: nat)
    requires AllValid(all) && size > 0
  {
    exists j :: n <= j < |all| && !WellCut(all, size, j)
  }

  /** From block `n` on, every block comes after all values before it. */
  ghost predicate SortedFrom(all: seq<Stored>, n: nat)
    requires AllValid(all)
  {
    forall i, j :: 0 <= i < j < |all| && n <= j && Live(all[i]) != [] ==> all[i].MaxTime() < all[j].MinTime()
  }

  /** The chunks already cut are out of order, or will be. */
  ghost predicate Broken(all: seq<Stored>, pre: seq<Value>) {
    || !Ascending(pre)
    || exists p, t :: 0 <= p < |pre| && t in Meaning(all) && t !in View(pre) && t < pre[p].time
  }

  /** `rs` are the last blocks of the key: read to the end before block `n`, untouched from there on. */
  ghost predicate TakenTo(all: seq<Stored>, rs: seq<Reading>, n: nat)
    requires AllValid(all)
  {
    && |rs| <= |all| && |all| - |rs| <= n <= |all|
    && forall k :: 0 <= k < |rs| ==>
         var i := |all| - |rs| + k;
         rs[k].stored == all[i] && (if i < n then rs[k].Done() else rs[k] == Unread(all[i]))
  }

  /** How the output stands to the cutting of chunks: `pre` is cut, `m` is not. */
  ghost predicate Cut(all: seq<Stored>, size: nat, pre: seq<Value>, m: seq<Value>, n: nat)
    requires AllValid(all) && n <= |all| && size > 0
  {
    && |pre| + |m| == Count(all[..n])
    && (AllWellCut(all, size) ==> Ascending(pre + m))
    && (AllWellCut(all, size) ==> n == |all| || |pre| % size == 0 || SortedFrom(all, n))
    && (!AllWellCut(all, size) ==> Broken(all, pre) || (|pre| % size == 0 && IllCutFrom(all, size, n)))
  }

  ghost predicate Gathered(all: seq<Stored>, size: nat, pre: seq<Value>, m: seq<Value>, n: nat)
    requires AllValid(all) && n <= |all| && size > 0
  {
    View(pre + m) == Meaning(all[..n]) && Cut(all, size, pre, m, n)
  }

  ghost predicate Scattered(all: seq<Stored>, size: nat, rs: seq<Reading>, pre: seq<Value>, m: seq<Value>)
    requires AllValid(all) && size > 0
  {
    exists n: nat :: n <= |all| && TakenTo(all, rs, n) && Gathered(all, size, pre, m, n)
  }

  // ---------------------------------------------------------------- the blocks

  lemma {:induction false} NotDone(b: Stored)
    requires b.Valid()
    ensures !Unread(b).Done()
  {
  }

  lemma {:induction false} StartTaken(all: seq<Stored>, rs: seq<Reading>)
    requires AllValid(all) && |rs| == |all| && forall i :: 0 <= i < |rs| ==> rs[i] == Unread(all[i])
    ensures TakenTo(all, rs, 0)
  {
    hide Ascending;
  }

  lemma {:induction false} DropTaken(all: seq<Stored>, rs: seq<Reading>, n: nat)
    requires AllValid(all) && TakenTo(all, rs, n) && rs != []
    ensures rs[0].stored == all[|all| - |rs|]
    ensures rs[0].Done() ==> TakenTo(all, rs[1..], n)
    ensures !rs[0].Done() ==> n == |all| - |rs| && rs[0] == Unread(all[n]) && TakenTo(all, rs[1..], n + 1)
  {
    var i := |all| - |rs|;
    assert all[i].Valid();
    NotDone(all[i]);
    var tail := rs[1..];
    assert forall k :: 0 <= k < |tail| ==> tail[k] == rs[k + 1];
  }

  /** A round over blocks that do not overlap reads the head and nothing else. */
  lemma {:induction false} RoundTaken(all: seq<Stored>, rs: seq<Reading>, n: nat)
    requires AllValid(all) && Apart(all) && TakenTo(all, rs, n) && rs != [] && !rs[0].Done() && ValidReadings(rs)
    ensures n < |all| && TakenTo(all, StepAll(rs, Window(rs)), n + 1)
    ensures Parts(rs, Window(rs)) == BlockView(all[n])
  {
    hide View, Parts, WindowAfter, Step, StepAll, Part, BlockView, TakenTo, Apart, Ascending;
    DropTaken(all, rs, n);
    var w := TimeRange(rs[0].stored.MinTime(), rs[0].stored.MaxTime());
    OthersApart(all, rs, n);
    WindowLone(rs, |rs|);
    LoneParts(rs, |rs|, w);
    assert rs[..|rs|] == rs;
    OwnPart(rs[0]);
    StepTaken(all, rs, n, w);
  }

  lemma {:induction false} StepTaken(all: seq<Stored>, rs: seq<Reading>, n: nat, w: TimeRange)
    requires AllValid(all) && TakenTo(all, rs, n) && rs != [] && ValidReadings(rs) && n == |all| - |rs|
    requires w == TimeRange(rs[0].stored.MinTime(), rs[0].stored.MaxTime())
    requires forall k :: 0 < k < |rs| ==> !rs[k].Touches(w.min, w.max)
    ensures TakenTo(all, StepAll(rs, w), n + 1)
  {
    hide Step, Ascending;
    StepCovers(rs[0], w);
    forall k | 0 < k < |rs| ensures Step(rs[k], w) == rs[k] {
      StepSkips(rs[k], w);
    }
  }

  lemma {:induction false} OthersApart(all: seq<Stored>, rs: seq<Reading>, n: nat)
    requires AllValid(all) && Apart(all) && TakenTo(all, rs, n) && rs != [] && ValidReadings(rs) && n == |all| - |rs|
    ensures forall k :: 0 < k < |rs| ==> !rs[k].Touches(rs[0].stored.MinTime(), rs[0].stored.MaxTime())
  {
    forall k | 0 < k < |rs| ensures !rs[k].Touches(rs[0].stored.MinTime(), rs[0].stored.MaxTime()) {
      assert rs[k].stored == all[n + k] && rs[0].stored == all[n];
      assert all[n].MaxTime() < all[n + k].MinTime() || all[n + k].MaxTime() < all[n].MinTime();
    }
  }

  lemma {:induction false} OwnPart(r: Reading)
    requires r.Valid() && r == Unread(r.stored)
    ensures View(Part(r, TimeRange(r.stored.MinTime(), r.stored.MaxTime()))) == BlockView(r.stored)
  {
    hide Within, Without, View, Alive;
    FilterNone(r.stored.values, r.readMin, r.readMax);
    FilterAll(r.stored.values, r.stored.MinTime(), r.stored.MaxTime());
    NotDone(r.stored);
  }

  // ---------------------------------------------------------------- counting

  lemma {:induction false} ViewCount(s: seq<Value>)
    ensures |View(s)| <= |s| && (Ascending(s) ==> |View(s)| == |s|)
  {
    if s != [] {
      var p, x := s[..|s| - 1], s[|s| - 1];
      ViewCount(p);
      ViewKeys(p, x.time);
      assert View(s).Keys == View(p).Keys + {x.time};
      assert |View(s)| == |View(s).Keys| && |View(p)| == |View(p).Keys|;
    }
  }

  ghost function Under(m: map<int, int>, t: int): map<int, int> {
    map k | k in m && k < t :: m[k]
  }

  lemma {:induction false} SubMap(a: map<int, int>, b: map<int, int>)
    requires a.Keys <= b.Keys
    ensures |a| <= |b|
  {
    assert b.Keys == a.Keys + (b.Keys - a.Keys);
    assert |a| == |a.Keys| && |b| == |b.Keys|;
  }

  lemma {:induction false} JoinCount(a: map<int, int>, b: map<int, int>)
    requires a.Keys !! b.Keys
    ensures |a + b| == |a| + |b|
  {
    assert (a + b).Keys == a.Keys + b.Keys;
    assert |a| == |a.Keys| && |b| == |b.Keys| && |a + b| == |(a + b).Keys|;
  }

  lemma {:induction false} LiveBlock(b: Stored)
    requires b.Valid()
    ensures Ascending(Live(b)) && BlockView(b) == View(Live(b))
    ensures b.tombstones == [] ==> Live(b) == b.values
  {
    AliveAscending(b.values, b.tombstones);
  }

  lemma {:induction false} BlockTimes(b: Stored, t: int)
    requires b.Valid() && t in BlockView(b)
    ensures b.MinTime() <= t <= b.MaxTime() && Live(b) != []
  {
    hide View, Alive;
    AliveAt(b.values, b.tombstones, t);
    ViewKeys(b.values, t);
    ViewKeys(Live(b), t);
  }

  lemma {:induction false} LiveTimes(b: Stored, k: nat)
    requires b.Valid() && k < |Live(b)|
    ensures Live(b)[k].time in BlockView(b) && b.MinTime() <= Live(b)[k].time <= b.MaxTime()
  {
    hide View, Alive, Ascending;
    LiveBlock(b);
    ViewKeys(Live(b), Live(b)[k].time);
    BlockTimes(b, Live(b)[k].time);
  }

  /** Every time that some blocks mean lies within one of them. */
  lemma {:induction false} MeaningTimes(bs: seq<Stored>, t: int) returns (i: nat)
    requires AllValid(bs) && t in Meaning(bs)
    ensures i < |bs| && bs[i].MinTime() <= t <= bs[i].MaxTime() && Live(bs[i]) != []
  {
    hide BlockView, Live;
    var p, b := bs[..|bs| - 1], bs[|bs| - 1];
    if t in BlockView(b) {
      BlockTimes(b, t);
      i := |bs| - 1;
    } else {
      i := MeaningTimes(p, t);
    }
  }

  /** No block lies across `t`. */
  ghost predicate Splits(bs: seq<Stored>, t: int)
    requires AllValid(bs)
  {
    forall i :: 0 <= i < |bs| ==> bs[i].MaxTime() < t || t <= bs[i].MinTime()
  }

  /** The times before `t` are counted by the blocks that end before it. */
  lemma {:induction false} UnderCount(bs: seq<Stored>, t: int)
    requires AllValid(bs) && Apart(bs) && Splits(bs, t)
    ensures |Under(Meaning(bs), t)| == Earlier(bs, t)
  {
    if bs == [] {
      assert Under(Meaning(bs), t) == map[];
    } else {
      var p, b := bs[..|bs| - 1], bs[|bs| - 1];
      UnderCount(p, t);
      UnderSplit(Meaning(p), BlockView(b), t);
      UnderBlock(b, t);
      UnderApart(bs, t);
      JoinCount(Under(Meaning(p), t), Under(BlockView(b), t));
    }
  }

  lemma {:induction false} UnderSplit(a: map<int, int>, b: map<int, int>, t: int)
    ensures Under(a + b, t) == Under(a, t) + Under(b, t)
  {
  }

  lemma {:induction false} UnderBlock(b: Stored, t: int)
    requires b.Valid() && (b.MaxTime() < t || t <= b.MinTime())
    ensures |Under(BlockView(b), t)| == if b.MaxTime() < t then |Live(b)| else 0
  {
    hide BlockView, Ascending, Live;
    forall k | k in BlockView(b) ensures b.MinTime() <= k <= b.MaxTime() {
      BlockTimes(b, k);
    }
    if b.MaxTime() < t {
      assert Under(BlockView(b), t) == BlockView(b);
      LiveBlock(b);
      ViewCount(Live(b));
    } else {
      assert Under(BlockView(b), t) == map[];
    }
  }

  lemma {:induction false} UnderApart(bs: seq<Stored>, t: int)
    requires AllValid(bs) && Apart(bs) && bs != []
    ensures Under(Meaning(bs[..|bs| - 1]), t).Keys !! Under(BlockView(bs[|bs| - 1]), t).Keys
  {
    hide BlockView, Meaning, Ascending;
    var p, b := bs[..|bs| - 1], bs[|bs| - 1];
    assert forall i :: 0 <= i < |p| ==> p[i] == bs[i];
    forall k | k in Meaning(p) && k in BlockView(b) ensures false {
      BlockTimes(b, k);
      var i := MeaningTimes(p, k);
    }
  }

  /** The values of an ordered output that were cut come before `t`, if there are enough values before `t`. */
  lemma {:induction false} CutBefore(bs: seq<Stored>, t: int, pre: seq<Value>, m: seq<Value>, p: nat)
    requires AllValid(bs) && Apart(bs) && Splits(bs, t)
    requires Ascending(pre + m) && View(pre + m) == Meaning(bs) && |pre| <= Earlier(bs, t) && p < |pre|
    ensures pre[p].time < t
  {
    hide Meaning, Earlier, View, Apart, Splits;
    UnderCount(bs, t);
    var s := pre + m;
    if pre[p].time >= t {
      assert s == s[..p] + s[p..];
      forall k | k in Under(View(s), t) ensures k in View(s[..p]) {
        ViewKeys(s, k);
        ViewKeys(s[..p], k);
        var i :| 0 <= i < |s| && s[i].time == k;
        assert s[p] == pre[p];
        assert i < p;
        assert s[..p][i].time == k;
      }
      SubMap(Under(View(s), t), View(s[..p]));
      ViewCount(s[..p]);
      assert false;
    }
  }

  /** If more was cut than there is before `t`, something later than `t` was cut. */
  lemma {:induction false} CutBeyond(bs: seq<Stored>, t: int, pre: seq<Value>, m: seq<Value>) returns (p: nat)
    requires AllValid(bs) && Apart(bs) && Splits(bs, t)
    requires Ascending(pre) && View(pre + m) == Meaning(bs) && |pre| > Earlier(bs, t)
    ensures p < |pre| && t <= pre[p].time
  {
    hide Meaning, Earlier, View, Apart, Splits, Ascending;
    UnderCount(bs, t);
    ViewAppend(pre, m);
    ViewCount(pre);
    if forall i :: 0 <= i < |pre| ==> pre[i].time < t {
      forall k | k in View(pre) ensures k in Under(Meaning(bs), t) {
        ViewKeys(pre, k);
      }
      SubMap(View(pre), Under(Meaning(bs), t));
      assert false;
    }
    p :| 0 <= p < |pre| && t <= pre[p].time;
  }

  // ---------------------------------------------------------------- around block n

  lemma {:induction false} Around(all: seq<Stored>, n: nat)
    requires AllValid(all) && Apart(all) && n < |all|
    ensures AllValid(all[..n]) && Apart(all[..n])
    ensures Splits(all[..n], all[n].MinTime()) && all[n].MinTime() <= all[n].MaxTime()
    ensures all[..n + 1] == all[..n] + [all[n]] && Count(all[..n + 1]) == Count(all[..n]) + |Live(all[n])|
  {
    hide Ascending;
    SpanOf(all[n]);
    assert (all[..n + 1])[..n] == all[..n];
    forall i | 0 <= i < n
      ensures all[..n][i].MaxTime() < all[n].MinTime() || all[n].MinTime() <= all[..n][i].MinTime() {
      SpanOf(all[i]);
      assert all[..n][i] == all[i];
    }
  }

  /** The times of a later block are not among those of earlier ones. */
  lemma {:induction false} NewTime(all: seq<Stored>, n: nat, j: nat, t: int)
    requires AllValid(all) && Apart(all) && n <= j < |all| && all[j].MinTime() <= t <= all[j].MaxTime()
    ensures t !in Meaning(all[..n])
  {
    hide Meaning, Ascending;
    assert forall i :: 0 <= i < n ==> all[..n][i] == all[i];
    if t in Meaning(all[..n]) {
      var i := MeaningTimes(all[..n], t);
    }
  }

  lemma {:induction false} LiveMeant(all: seq<Stored>, j: nat, k: nat)
    requires AllValid(all) && j < |all| && k < |Live(all[j])|
    ensures Live(all[j])[k].time in Meaning(all)
  {
    hide Meaning, Ascending, BlockView, Live;
    LiveTimes(all[j], k);
    MeaningHas(all, j, Live(all[j])[k].time);
  }

  /** A block with a value before `t`, and apart from a block that starts at `t`, ends before `t`. */
  lemma {:induction false} EndsBefore(all: seq<Stored>, n: nat, i: nat, j: nat, pre: seq<Value>)
    requires AllValid(all) && Apart(all) && i < n <= |all| && i < j < |all| && Live(all[i]) != []
    requires View(pre) == Meaning(all[..n]) && forall p :: 0 <= p < |pre| ==> pre[p].time < all[j].MinTime()
    ensures all[i].MaxTime() < all[j].MinTime()
  {
    hide Meaning, Ascending, View, Live;
    assert all[..n][i] == all[i];
    LiveMeant(all[..n], i, 0);
    LiveTimes(all[i], 0);
    ViewKeys(pre, Live(all[i])[0].time);
    SpanOf(all[j]);
  }

  lemma {:induction false} EarlierAll(bs: seq<Stored>, t: int)
    requires AllValid(bs) && forall i :: 0 <= i < |bs| && Live(bs[i]) != [] ==> bs[i].MaxTime() < t
    ensures Earlier(bs, t) == Count(bs)
  {
    hide Live;
    if bs != [] {
      EarlierAll(bs[..|bs| - 1], t);
    }
  }

  lemma {:induction false} FullChunks(total: nat, size: nat, cut: nat, rest: nat)
    requires size > 0 && total == cut + rest && rest < size && cut % size == 0
    ensures size * (total / size) == cut
  {
    var q := cut / size;
    assert cut == q * size;
    Bits.DivModUnique(total, size, q, rest);
    assert size * q == q * size;
  }

  lemma {:induction false} ChunksFit(total: nat, size: nat)
    requires size > 0
    ensures size * (total / size) <= total
  {
  }

  /** Something cut that is later than a block still to come breaks the order. */
  lemma {:induction false} Breaks(all: seq<Stored>, n: nat, j: nat, pre: seq<Value>, m: seq<Value>, p: nat)
    requires AllValid(all) && Apart(all) && n <= j < |all| && View(pre + m) == Meaning(all[..n])
    requires p < |pre| && all[j].MinTime() <= pre[p].time && Live(all[j]) != []
    ensures Broken(all, pre)
  {
    hide Meaning, View, Ascending, Live;
    var t := Live(all[j])[0].time;
    LiveTimes(all[j], 0);
    LiveMeant(all, j, 0);
    NewTime(all, n, j, t);
    ViewAppend(pre, m);
    ViewKeys(pre, pre[p].time);
    assert t !in View(pre);
    var i := MeaningTimes(all[..n], pre[p].time);
    assert all[..n][i] == all[i];
    assert t < pre[p].time;
  }

  lemma {:induction false} SpanOf(b: Stored)
    requires b.Valid()
    ensures b.MinTime() <= b.MaxTime()
  {
  }

  /** What is broken stays broken. */
  lemma {:induction false} BrokenMore(all: seq<Stored>, pre: seq<Value>, more: seq<Value>)
    requires Broken(all, pre)
    ensures Broken(all, pre + more)
  {
    hide View, Meaning;
    var all' := pre + more;
    if !Ascending(pre) {
      var i, j :| 0 <= i < j < |pre| && pre[i].time >= pre[j].time;
      assert all'[i] == pre[i] && all'[j] == pre[j];
    } else {
      var p, t :| 0 <= p < |pre| && t in Meaning(all) && t !in View(pre) && t < pre[p].time;
      assert all'[p] == pre[p];
      if t in View(all') {
        ViewKeys(all', t);
        ViewKeys(pre, t);
        var i :| 0 <= i < |all'| && all'[i].time == t;
        assert forall k :: 0 <= k < |pre| ==> all'[k] == pre[k] && pre[k].time != t;
        assert !Ascending(all');
      }
    }
  }

  /** An order that is whole at the end was never broken. */
  lemma {:induction false} BrokenEnd(all: seq<Stored>, pre: seq<Value>)
    requires Broken(all, pre) && View(pre) == Meaning(all)
    ensures !Ascending(pre)
  {
  }

  // ---------------------------------------------------------------- taking a block

  /** Merging in a block that shares no time with the rest adds all its values. */
  lemma {:induction false} MergeCount(all: seq<Stored>, n: nat, pre: seq<Value>, m: seq<Value>, m': seq<Value>)
    requires AllValid(all) && Apart(all) && n < |all| && View(pre + m) == Meaning(all[..n])
    requires Ascending(m) && Ascending(m') && View(m') == View(m) + BlockView(all[n])
    ensures |m'| == |m| + |Live(all[n])|
  {
    hide Meaning, View, Apart, Ascending, BlockView, Live;
    var b := all[n];
    ViewAppend(pre, m);
    LiveBlock(b);
    forall t | t in BlockView(b) ensures t !in View(m) {
      BlockTimes(b, t);
      NewTime(all, n, n, t);
    }
    JoinCount(View(m), BlockView(b));
    ViewCount(m);
    ViewCount(m');
    ViewCount(Live(b));
  }

  /** What was cut comes before block `n`, if the output is in order and the cutting went well. */
  lemma {:induction false} CutFirst(all: seq<Stored>, size: nat, pre: seq<Value>, m: seq<Value>, n: nat, p: nat)
    requires AllValid(all) && Apart(all) && n < |all| && size > 0
    requires View(pre + m) == Meaning(all[..n]) && Ascending(pre + m) && |pre| + |m| == Count(all[..n]) && p < |pre|
    requires SortedFrom(all, n) || (|pre| % size == 0 && |m| < size && WellCut(all, size, n))
    requires Live(all[n]) != []
    ensures pre[p].time < all[n].MinTime()
  {
    hide Meaning, View, Apart, Ascending, Count, Earlier, Splits, Live;
    Around(all, n);
    if SortedFrom(all, n) {
      ViewKeys(pre + m, pre[p].time);
      assert (pre + m)[p] == pre[p];
      var i := MeaningTimes(all[..n], pre[p].time);
      assert all[..n][i] == all[i];
    } else {
      FullChunks(Count(all[..n]), size, |pre|, |m|);
      CutBefore(all[..n], all[n].MinTime(), pre, m, p);
    }
  }

  /** The output stays in order if the block comes after what was cut. */
  lemma {:induction false} StillAscending(pre: seq<Value>, m: seq<Value>, m': seq<Value>, v: seq<Value>)
    requires Ascending(pre + m) && Ascending(m') && View(m') == View(m) + View(v)
    requires forall p, k :: 0 <= p < |pre| && 0 <= k < |v| ==> pre[p].time < v[k].time
    ensures Ascending(pre + m')
  {
    hide View;
    var s, s' := pre + m, pre + m';
    forall p, k | 0 <= p < |pre| && 0 <= k < |m'| ensures pre[p].time < m'[k].time {
      var t := m'[k].time;
      ViewKeys(m', t);
      ViewKeys(m, t);
      ViewKeys(v, t);
      if t in View(m) {
        var i :| 0 <= i < |m| && m[i].time == t;
        assert s[p] == pre[p] && s[|pre| + i] == m[i];
      }
    }
    forall i, j | 0 <= i < j < |s'| ensures s'[i].time < s'[j].time {
      if j < |pre| {
        assert s[i] == s'[i] && s[j] == s'[j];
      }
    }
  }

  /** Taking block `n` into the values that are not cut yet. */
  lemma {:induction false} TakeCut(all: seq<Stored>, size: nat, pre: seq<Value>, m: seq<Value>, m': seq<Value>, n: nat)
    requires AllValid(all) && Apart(all) && n < |all| && size > 0 && |m| < size
    requires View(pre + m) == Meaning(all[..n]) && Cut(all, size, pre, m, n)
    requires Ascending(m) && Ascending(m') && View(m') == View(m) + BlockView(all[n])
    ensures Cut(all, size, pre, m', n + 1)
  {
    hide Meaning, View, Apart, Ascending, Count, WellCut, Broken, Live, BlockView;
    Around(all, n);
    MergeCount(all, n, pre, m, m');
    if AllWellCut(all, size) {
      assert WellCut(all, size, n);
      var v := Live(all[n]);
      LiveBlock(all[n]);
      forall p, k | 0 <= p < |pre| && 0 <= k < |v| ensures pre[p].time < v[k].time {
        CutFirst(all, size, pre, m, n, p);
        LiveTimes(all[n], k);
      }
      StillAscending(pre, m, m', v);
    } else if !Broken(all, pre) {
      if !WellCut(all, size, n) {
        IllCut(all, size, pre, m, n);
      }
    }
  }

  lemma {:induction false} AfterFirst(b: Stored, k: nat)
    requires b.Valid() && k < |b.values|
    ensures b.MinTime() <= b.values[k].time
  {
  }

  lemma {:induction false} IllCut(all: seq<Stored>, size: nat, pre: seq<Value>, m: seq<Value>, n: nat)
    requires AllValid(all) && Apart(all) && n < |all| && size > 0 && |m| < size
    requires View(pre + m) == Meaning(all[..n]) && |pre| + |m| == Count(all[..n]) && |pre| % size == 0
    requires !WellCut(all, size, n)
    ensures Broken(all, pre)
  {
    hide Meaning, View, Apart, Count, Earlier, Splits, Live;
    Around(all, n);
    FullChunks(Count(all[..n]), size, |pre|, |m|);
    if Ascending(pre) {
      var p := CutBeyond(all[..n], all[n].MinTime(), pre, m);
      Breaks(all, n, n, pre, m, p);
    }
  }

  // ---------------------------------------------------------------- passing a block on

  /** From block `n` on the blocks are in order among themselves. */
  ghost predicate TailSorted(all: seq<Stored>, n: nat)
    requires AllValid(all)
  {
    forall i, j :: n <= i < j < |all| ==> all[i].MaxTime() < all[j].MinTime()
  }

  /** If everything cut comes before block `n`, the rest of the key is in order. */
  lemma {:induction false} NowSorted(all: seq<Stored>, pre: seq<Value>, n: nat)
    requires AllValid(all) && Apart(all) && n < |all| && TailSorted(all, n) && View(pre) == Meaning(all[..n])
    requires forall p :: 0 <= p < |pre| ==> pre[p].time < all[n].MinTime()
    ensures SortedFrom(all, n)
  {
    hide Meaning, View, Ascending, Live, Apart;
    forall i, j | 0 <= i < j < |all| && n <= j && Live(all[i]) != [] ensures all[i].MaxTime() < all[j].MinTime() {
      if i < n {
        EndsBefore(all, n, i, n, pre);
        SpanOf(all[n]);
      }
    }
  }

  /** If the cutting goes wrong at block `j`, something cut already is later than that block. */
  lemma {:induction false} IllCutLater(all: seq<Stored>, size: nat, pre: seq<Value>, n: nat, j: nat)
    requires AllValid(all) && Apart(all) && n <= j < |all| && size > 0 && TailSorted(all, n)
    requires View(pre) == Meaning(all[..n]) && !WellCut(all, size, j)
    ensures Broken(all, pre)
  {
    hide Meaning, View, Apart, Ascending, Count, Earlier, Live;
    var t := all[j].MinTime();
    if forall p :: 0 <= p < |pre| ==> pre[p].time < t {
      forall i | 0 <= i < |all[..j]| && Live(all[..j][i]) != [] ensures all[..j][i].MaxTime() < t {
        assert all[..j][i] == all[i];
        if i < n {
          EndsBefore(all, n, i, j, pre);
        }
      }
      EarlierAll(all[..j], t);
      ChunksFit(Count(all[..j]), size);
      assert false;
    }
    var p :| 0 <= p < |pre| && t <= pre[p].time;
    assert pre + [] == pre;
    Breaks(all, n, j, pre, [], p);
  }

  lemma {:induction false} JoinedAscending(pre: seq<Value>, v: seq<Value>)
    requires Ascending(pre) && Ascending(v) && forall p, k :: 0 <= p < |pre| && 0 <= k < |v| ==> pre[p].time < v[k].time
    ensures Ascending(pre + v)
  {
  }

  /** Passing block `n` on whole, when nothing waits to be cut. */
  lemma {:induction false} PassCut(all: seq<Stored>, size: nat, pre: seq<Value>, n: nat)
    requires AllValid(all) && Apart(all) && n < |all| && size > 0 && TailSorted(all, n) && all[n].tombstones == []
    requires View(pre) == Meaning(all[..n]) && Cut(all, size, pre, [], n)
    ensures Cut(all, size, pre + all[n].values, [], n + 1)
  {
    hide Meaning, View, Apart, Ascending, Count, WellCut, Broken, TailSorted, Live;
    var v := all[n].values;
    assert pre + [] == pre && (pre + v) + [] == pre + v;
    Around(all, n);
    LiveBlock(all[n]);
    SpanOf(all[n]);
    if AllWellCut(all, size) {
      assert WellCut(all, size, n);
      forall p | 0 <= p < |pre| ensures pre[p].time < all[n].MinTime() {
        CutFirst(all, size, pre, [], n, p);
      }
      forall p, k | 0 <= p < |pre| && 0 <= k < |v| ensures pre[p].time < v[k].time {
        AfterFirst(all[n], k);
      }
      JoinedAscending(pre, v);
      NowSorted(all, pre, n);
    } else {
      if !Broken(all, pre) {
        var j :| n <= j < |all| && !WellCut(all, size, j);
        IllCutLater(all, size, pre, n, j);
      }
      BrokenMore(all, pre, v);
    }
  }

  // ---------------------------------------------------------------- cutting a chunk

  lemma {:induction false} NextChunk(a: nat, size: nat)
    requires size > 0 && a % size == 0
    ensures (a + size) % size == 0
  {
    var q := a / size;
    assert a == q * size;
    assert (q + 1) * size == q * size + size;
    Bits.DivModUnique(a + size, size, q + 1, 0);
  }

  lemma {:induction false} CutMore(all: seq<Stored>, size: nat, pre: seq<Value>, m: seq<Value>, k: nat, n: nat)
    requires AllValid(all) && n <= |all| && size > 0 && Cut(all, size, pre, m, n) && k <= |m|
    requires n == |all| || k == size
    ensures Cut(all, size, pre + m[..k], m[k..], n)
  {
    hide Ascending, Count, WellCut, Broken;
    assert (pre + m[..k]) + m[k..] == pre + m;
    if !AllWellCut(all, size) && Broken(all, pre) {
      BrokenMore(all, pre, m[..k]);
    }
    if |pre| % size == 0 && k == size {
      NextChunk(|pre|, size);
    }
  }

  // ---------------------------------------------------------------- every step keeps it

  lemma {:induction false} ScatterStart(all: seq<Stored>, size: nat, rs: seq<Reading>)
    requires AllValid(all) && size > 0 && |rs| == |all| && forall i :: 0 <= i < |rs| ==> rs[i] == Unread(all[i])
    ensures Scattered(all, size, rs, [], [])
  {
    hide WellCut, TakenTo;
    StartTaken(all, rs);
    var none: seq<Value> := [];
    assert all[..0] == [] && none + none == [];
    EmptyView();
    assert Cut(all, size, [], [], 0);
    assert Gathered(all, size, [], [], 0);
  }

  lemma {:induction false} ScatterDrop(all: seq<Stored>, size: nat, rs: seq<Reading>, pre: seq<Value>, m: seq<Value>)
    requires AllValid(all) && size > 0 && Scattered(all, size, rs, pre, m) && ValidReadings(rs) && rs != []
             && rs[0].Done()
    ensures Scattered(all, size, rs[1..], pre, m)
  {
    hide TakenTo, Gathered;
    var n: nat :| n <= |all| && TakenTo(all, rs, n) && Gathered(all, size, pre, m, n);
    DropTaken(all, rs, n);
  }

  /** Taking one more block into the values that are not cut yet. */
  lemma {:induction false} GatherMore(all: seq<Stored>, size: nat, pre: seq<Value>, m: seq<Value>, m': seq<Value>,
                                      n: nat)
    requires AllValid(all) && Apart(all) && n < |all| && size > 0 && |m| < size && Gathered(all, size, pre, m, n)
    requires Ascending(m) && Ascending(m') && View(m') == View(m) + BlockView(all[n])
    ensures Gathered(all, size, pre, m', n + 1)
  {
    hide View, BlockView, Meaning, Cut, Apart, Ascending;
    ViewAppend(pre, m);
    ViewAppend(pre, m');
    assert all[..n + 1] == all[..n] + [all[n]];
    MeaningSnoc(all[..n], all[n]);
    assert View(pre) + (View(m) + BlockView(all[n])) == (View(pre) + View(m)) + BlockView(all[n]);
    TakeCut(all, size, pre, m, m', n);
  }

  lemma {:induction false} ScatterRound(all: seq<Stored>, size: nat, rs: seq<Reading>, pre: seq<Value>, m: seq<Value>,
                                        m': seq<Value>)
    requires AllValid(all) && size > 0 && Apart(all) && Scattered(all, size, rs, pre, m) && ValidReadings(rs)
             && rs != [] && !rs[0].Done()
    requires |m| < size && Ascending(m) && Ascending(m') && View(m') == View(m) + Parts(rs, Window(rs))
    ensures Scattered(all, size, StepAll(rs, Window(rs)), pre, m')
  {
    hide TakenTo, Gathered, View, Parts, Window, StepAll, Apart, Ascending;
    var n: nat :| n <= |all| && TakenTo(all, rs, n) && Gathered(all, size, pre, m, n);
    RoundTaken(all, rs, n);
    GatherMore(all, size, pre, m, m', n);
  }

  /** Cutting a chunk: a full one, or the last one. */
  lemma {:induction false} ScatterCut(all: seq<Stored>, size: nat, rs: seq<Reading>, pre: seq<Value>, m: seq<Value>,
                                      k: nat)
    requires AllValid(all) && size > 0 && Scattered(all, size, rs, pre, m) && k <= |m| && (k == size || rs == [])
    ensures Scattered(all, size, rs, pre + m[..k], m[k..])
  {
    hide View, Meaning, Cut;
    var n: nat :| n <= |all| && TakenTo(all, rs, n) && Gathered(all, size, pre, m, n);
    assert (pre + m[..k]) + m[k..] == pre + m;
    CutMore(all, size, pre, m, k, n);
    assert Gathered(all, size, pre + m[..k], m[k..], n);
  }

  lemma {:induction false} ScatterAbsorb(all: seq<Stored>, size: nat, rs: seq<Reading>, pre: seq<Value>, m: seq<Value>,
                                         m': seq<Value>)
    requires AllValid(all) && size > 0 && Apart(all) && Scattered(all, size, rs, pre, m) && ValidReadings(rs)
             && rs != [] && !rs[0].Done()
    requires rs[0].stored.tombstones == [] && |m| < size && Ascending(m) && Ascending(m')
             && View(m') == View(m) + View(rs[0].stored.values)
    ensures Scattered(all, size, rs[1..], pre, m')
  {
    hide TakenTo, Gathered, View, Ascending, Apart;
    var n: nat :| n <= |all| && TakenTo(all, rs, n) && Gathered(all, size, pre, m, n);
    DropTaken(all, rs, n);
    LiveBlock(all[n]);
    GatherMore(all, size, pre, m, m', n);
  }

  lemma {:induction false} DisjointTailSorted(all: seq<Stored>, rs: seq<Reading>, n: nat)
    requires AllValid(all) && TakenTo(all, rs, n) && ValidReadings(rs) && Disjoint(rs) && n == |all| - |rs|
    ensures TailSorted(all, n)
    ensures rs != [] ==> rs[0].stored.tombstones == []
  {
    forall i, j | n <= i < j < |all| ensures all[i].MaxTime() < all[j].MinTime() {
      assert rs[i - n].stored == all[i] && rs[j - n].stored == all[j];
    }
  }

  /** Passing a block on whole, which happens only when the blocks left are in order. */
  lemma {:induction false} ScatterPass(all: seq<Stored>, size: nat, rs: seq<Reading>, pre: seq<Value>)
    requires AllValid(all) && size > 0 && Apart(all) && Scattered(all, size, rs, pre, [])
    requires ValidReadings(rs) && rs != [] && !rs[0].Done() && Disjoint(rs)
    ensures Scattered(all, size, rs[1..], pre + rs[0].stored.values, [])
  {
    hide View, Meaning, Ascending, Disjoint, TakenTo, Cut, TailSorted, Apart;
    var n: nat :| n <= |all| && TakenTo(all, rs, n) && Gathered(all, size, pre, [], n);
    var v := rs[0].stored.values;
    DropTaken(all, rs, n);
    DisjointTailSorted(all, rs, n);
    LiveBlock(all[n]);
    ViewAppend(pre, v);
    assert pre + [] == pre && (pre + v) + [] == pre + v;
    assert all[..n + 1] == all[..n] + [all[n]];
    MeaningSnoc(all[..n], all[n]);
    PassCut(all, size, pre, n);
    assert Gathered(all, size, pre + v, [], n + 1);
  }

  /** At the end nothing is lost, and the output is in order exactly if the cutting went well. */
  lemma {:induction false} ScatterEnd(all: seq<Stored>, size: nat, pre: seq<Value>)
    requires AllValid(all) && size > 0 && Scattered(all, size, [], pre, [])
    ensures View(pre) == Meaning(all)
    ensures Ascending(pre) <==> AllWellCut(all, size)
  {
    hide View, Meaning, Ascending, Broken, WellCut;
    var n: nat :| n <= |all| && TakenTo(all, [], n) && Gathered(all, size, pre, [], n);
    assert pre + [] == pre && all[..|all|] == all;
    if !AllWellCut(all, size) {
      BrokenEnd(all, pre);
    }
  }
}
