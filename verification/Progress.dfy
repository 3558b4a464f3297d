/** What a partly compacted key keeps from step to step: how its output stands to the blocks that are gone. */
module Progress {
  import opened Values
  import opened Windows
  import opened Rounds
  import opened Scatter

  /** `rs` are the last blocks of the key. */
  ghost predicate LastOf(all: seq<Stored>, rs: seq<Reading>) {
    |rs| <= |all| && forall k :: 0 <= k < |rs| ==> rs[k].stored == all[|all| - |rs| + k]
  }

  /**
   * The output `pre + m`, of which `pre` is cut into chunks, and the rounds to come make up what the key yields.
   * If the key is in order, the output is the overlay of what is gone. If its blocks do not overlap, whole
   * blocks are gone and the output means them, in whatever order.
   */
  ghost predicate InStep(all: seq<Stored>, size: nat, rs: seq<Reading>, pre: seq<Value>, m: seq<Value>, f: int)
    requires AllValid(all) && ValidReadings(rs)
  {
    && LastOf(all, rs) && View(pre + m) + Total(rs) == Yield(all)
    && (InOrder(all) ==> Consumed(all, rs, f) && Produced(all, pre + m, f))
    && (size > 0 && Apart(all) ==> Scattered(all, size, rs, pre, m))
  }

  lemma {:induction false} InStepLast(all: seq<Stored>, size: nat, rs: seq<Reading>, pre: seq<Value>, m: seq<Value>,
                                      f: int)
    requires AllValid(all) && ValidReadings(rs) && InStep(all, size, rs, pre, m, f)
    ensures LastOf(all, rs)
  {
  }

  lemma {:induction false} StartKeeps(all: seq<Stored>, size: nat)
    requires AllValid(all)
    ensures InStep(all, size, UnreadAll(all), [], [], START)
  {
    hide Consumed, Produced, InOrder, AllValid, Apart, Scattered, Total, View;
    var none: seq<Value> := [];
    assert none + none == none;
    EmptyView();
    InitiallySynced(all);
    assert UnreadAll(all) == seq(|all|, i requires 0 <= i < |all| => Unread(all[i]));
    if size > 0 && Apart(all) {
      ScatterStart(all, size, UnreadAll(all));
    }
  }

  lemma {:induction false} LastOfTail(all: seq<Stored>, rs: seq<Reading>)
    requires LastOf(all, rs) && rs != []
    ensures LastOf(all, rs[1..])
  {
    var tail := rs[1..];
    assert forall k :: 0 <= k < |tail| ==> tail[k] == rs[k + 1];
  }

  /** Dropping a block that is read. */
  lemma {:induction false} DropKeeps(all: seq<Stored>, size: nat, rs: seq<Reading>, pre: seq<Value>, m: seq<Value>,
                                     f: int)
    requires AllValid(all) && ValidReadings(rs) && rs != [] && rs[0].Done() && InStep(all, size, rs, pre, m, f)
    ensures ValidReadings(rs[1..]) && InStep(all, size, rs[1..], pre, m, f)
  {
    hide Consumed, Produced, InOrder, AllValid, Apart, Scattered, Total, View, Yield, LastOf;
    LastOfTail(all, rs);
    TotalDrop(rs);
    if size > 0 && Apart(all) {
      ScatterDrop(all, size, rs, pre, m);
    }
    if InOrder(all) {
      DropDone(all, rs, f);
    }
  }

  /** Taking a part from the rounds to come into the output. */
  lemma {:induction false} YieldMore(v: map<int, int>, part: map<int, int>, rest: map<int, int>, v': map<int, int>,
                                     total: map<int, int>)
    requires v' == v + part && total == v + (part + rest)
    ensures v' + rest == total
  {
    OverlayAssociative(v, part, rest);
  }

  /** Passing a block on whole. */
  lemma {:induction false} PassKeeps(all: seq<Stored>, size: nat, rs: seq<Reading>, pre: seq<Value>, f: int)
    requires AllValid(all) && ValidReadings(rs) && rs != [] && !rs[0].Done() && Disjoint(rs)
             && InStep(all, size, rs, pre, [], f)
    ensures ValidReadings(rs[1..])
    ensures InStep(all, size, rs[1..], pre + rs[0].stored.values, [],
                   if InOrder(all) then rs[0].stored.MaxTime() else f)
  {
    hide Consumed, Produced, InOrder, AllValid, Apart, Scattered, Total, View, Yield, LastOf, Disjoint, Ascending;
    var v := rs[0].stored.values;
    assert pre + [] == pre && (pre + v) + [] == pre + v;
    LastOfTail(all, rs);
    TotalWhole(rs);
    ViewAppend(pre, v);
    YieldMore(View(pre), View(v), Total(rs[1..]), View(pre + v), Yield(all));
    ValidHead(rs);
    if size > 0 && Apart(all) {
      ScatterPass(all, size, rs, pre);
    }
    if InOrder(all) {
      TakeWhole(all, rs, f);
      EmptyView();
      ProducedMore(all, pre, [], v, f, rs[0].stored.MaxTime());
    }
  }

  lemma {:induction false} ValidHead(rs: seq<Reading>)
    requires ValidReadings(rs) && rs != []
    ensures rs[0].stored.Valid() && Ascending(rs[0].stored.values) && Ascending([])
  {
  }

  /** Merging a block of a disjoint list in. */
  lemma {:induction false} AbsorbKeeps(all: seq<Stored>, size: nat, rs: seq<Reading>, pre: seq<Value>, m: seq<Value>,
                                       m': seq<Value>, f: int)
    requires AllValid(all) && ValidReadings(rs) && rs != [] && !rs[0].Done() && Disjoint(rs)
             && InStep(all, size, rs, pre, m, f)
    requires |m| < size && Ascending(m) && Ascending(m') && View(m') == View(m) + View(rs[0].stored.values)
    ensures ValidReadings(rs[1..])
    ensures InStep(all, size, rs[1..], pre, m', if InOrder(all) then rs[0].stored.MaxTime() else f)
  {
    hide Consumed, Produced, InOrder, AllValid, Apart, Scattered, Total, View, Yield, LastOf, Ascending, Disjoint;
    var v := rs[0].stored.values;
    LastOfTail(all, rs);
    TotalWhole(rs);
    OutputMore(pre, m, m', View(v));
    YieldMore(View(pre + m), View(v), Total(rs[1..]), View(pre + m'), Yield(all));
    HeadUnread(rs);
    if size > 0 && Apart(all) {
      ScatterAbsorb(all, size, rs, pre, m, m');
    }
    if InOrder(all) {
      TakeWhole(all, rs, f);
      ProducedMore(all, pre, m, m', f, rs[0].stored.MaxTime());
    }
  }

  lemma {:induction false} OutputMore(pre: seq<Value>, m: seq<Value>, m': seq<Value>, part: map<int, int>)
    requires View(m') == View(m) + part
    ensures View(pre + m') == View(pre + m) + part
  {
    hide View;
    ViewAppend(pre, m);
    ViewAppend(pre, m');
    OverlayAssociative(View(pre), View(m), part);
  }

  /** One round. */
  lemma {:induction false} RoundKeeps(all: seq<Stored>, size: nat, rs: seq<Reading>, pre: seq<Value>, m: seq<Value>,
                                      m': seq<Value>, f: int)
    requires AllValid(all) && ValidReadings(rs) && rs != [] && !rs[0].Done() && InStep(all, size, rs, pre, m, f)
    requires |m| < size && Ascending(m) && Ascending(m') && View(m') == View(m) + Parts(rs, Window(rs))
    ensures ValidReadings(StepAll(rs, Window(rs)))
    ensures InStep(all, size, StepAll(rs, Window(rs)), pre, m', if InOrder(all) then Window(rs).max else f)
  {
    hide View, Consumed, Produced, InOrder, AllValid, Parts, Window, StepAll, Ascending, Apart, Scattered, Total, Yield,
         LastOf;
    TotalRound(rs);
    OutputMore(pre, m, m', Parts(rs, Window(rs)));
    YieldMore(View(pre + m), Parts(rs, Window(rs)), Total(StepAll(rs, Window(rs))), View(pre + m'), Yield(all));
    LastOfStep(all, rs, Window(rs));
    if size > 0 && Apart(all) {
      ScatterRound(all, size, rs, pre, m, m');
    }
    if InOrder(all) {
      RoundConsumed(all, rs, f);
      RoundProduced(all, rs, f);
      ProducedMore(all, pre, m, m', f, Window(rs).max);
    }
  }

  lemma {:induction false} LastOfStep(all: seq<Stored>, rs: seq<Reading>, w: TimeRange)
    requires LastOf(all, rs) && ValidReadings(rs)
    ensures LastOf(all, StepAll(rs, w))
  {
    hide Step, StepAll;
    StepAllStored(rs, w);
  }

  /** Cutting a chunk, a full one or the last one. */
  lemma {:induction false} CutKeeps(all: seq<Stored>, size: nat, rs: seq<Reading>, pre: seq<Value>, m: seq<Value>,
                                    k: nat, f: int)
    requires AllValid(all) && ValidReadings(rs) && InStep(all, size, rs, pre, m, f) && k <= |m|
             && (k == size || rs == [])
    ensures InStep(all, size, rs, pre + m[..k], m[k..], f)
  {
    hide Consumed, Produced, InOrder, AllValid, Apart, Scattered, Total, Yield, View, LastOf;
    assert (pre + m[..k]) + m[k..] == pre + m;
    if size > 0 && Apart(all) {
      ScatterCut(all, size, rs, pre, m, k);
    }
  }

  /** When the key is used up. */
  lemma {:induction false} EndKeeps(all: seq<Stored>, size: nat, out: seq<Value>, f: int)
    requires AllValid(all) && size > 0 && InStep(all, size, [], out, [], f)
    ensures View(out) == Yield(all)
    ensures InOrder(all) ==> Ascending(out) && View(out) == Meaning(all)
    ensures Apart(all) ==> View(out) == Meaning(all) && (Ascending(out) <==> AllWellCut(all, size))
  {
    hide Consumed, Produced, InOrder, AllValid, Apart, Scattered, Total, Yield, View, LastOf, Ascending, AllWellCut,
         Meaning;
    assert out + [] == out;
    TotalNone();
    if Apart(all) {
      ScatterEnd(all, size, out);
    }
    if InOrder(all) {
      Finished(all, out, f);
    }
  }
}
