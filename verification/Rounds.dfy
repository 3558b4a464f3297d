/** What the rounds of a merge contribute together, for any list of blocks. */
module Rounds {
  import opened Values
  import opened Windows

  /** The overlay of the parts of all rounds to come, later rounds winning. */
  ghost function Total(rs: seq<Reading>): map<int, int>
    requires ValidReadings(rs)
    decreases Pending(rs), |rs|
  {
    if rs == [] then map[]
    else if rs[0].Done() then PendingTail(rs, 1); Total(rs[1..])
    else RoundProgress(rs); Parts(rs, Window(rs)) + Total(StepAll(rs, Window(rs)))
  }

  ghost function UnreadAll(all: seq<Stored>): (rs: seq<Reading>)
    ensures |rs| == |all| && forall i :: 0 <= i < |rs| ==> rs[i] == Unread(all[i])
    ensures AllValid(all) ==> ValidReadings(rs)
  {
    seq(|all|, i requires 0 <= i < |all| => Unread(all[i]))
  }

  /** What all rounds over a key yield. */
  ghost function Yield(all: seq<Stored>): map<int, int>
    requires AllValid(all)
  {
    Total(UnreadAll(all))
  }

  lemma {:induction false} TotalNone()
    ensures Total([]) == map[]
  {
  }

  lemma {:induction false} TotalDrop(rs: seq<Reading>)
    requires ValidReadings(rs) && rs != [] && rs[0].Done()
    ensures ValidReadings(rs[1..]) && Total(rs) == Total(rs[1..])
  {
  }

  lemma {:induction false} TotalRound(rs: seq<Reading>)
    requires ValidReadings(rs) && rs != [] && !rs[0].Done()
    ensures ValidReadings(StepAll(rs, Window(rs)))
    ensures Total(rs) == Parts(rs, Window(rs)) + Total(StepAll(rs, Window(rs)))
  {
    hide Parts, StepAll, Window;
    RoundProgress(rs);
  }

  /** The head of a disjoint list contributes its values, as a round of its own would. */
  lemma {:induction false} TotalWhole(rs: seq<Reading>)
    requires ValidReadings(rs) && rs != [] && !rs[0].Done() && Disjoint(rs)
    ensures ValidReadings(rs[1..]) && Total(rs) == View(rs[0].stored.values) + Total(rs[1..])
  {
    hide Total, Parts, StepAll, WindowAfter, View, Ascending;
    var r := rs[0];
    var w := TimeRange(r.stored.MinTime(), r.stored.MaxTime());
    HeadUnread(rs);
    WindowLone(rs, |rs|);
    LoneParts(rs, |rs|, w);
    assert rs[..|rs|] == rs;
    HeadPart(r);
    TotalRound(rs);
    HeadStepped(rs, w);
    TotalDrop(StepAll(rs, w));
  }

  lemma {:induction false} HeadUnread(rs: seq<Reading>)
    requires ValidReadings(rs) && rs != [] && !rs[0].Done() && Disjoint(rs)
    ensures rs[0] == Unread(rs[0].stored) && rs[0].stored.tombstones == []
    ensures forall k :: 0 < k < |rs| ==> !rs[k].Touches(rs[0].stored.MinTime(), rs[0].stored.MaxTime())
  {
  }

  lemma {:induction false} HeadStepped(rs: seq<Reading>, w: TimeRange)
    requires ValidReadings(rs) && rs != [] && w == TimeRange(rs[0].stored.MinTime(), rs[0].stored.MaxTime())
    requires forall k :: 0 < k < |rs| ==> !rs[k].Touches(w.min, w.max)
    ensures StepAll(rs, w) != [] && ValidReadings(StepAll(rs, w)) && StepAll(rs, w)[0].Done()
            && StepAll(rs, w)[1..] == rs[1..]
  {
    hide Step, Ascending;
    StepAllValid(rs, w);
    StepCovers(rs[0], w);
    forall k | 0 < k < |rs| ensures Step(rs[k], w) == rs[k] {
      StepSkips(rs[k], w);
    }
  }

  // ---------------------------------------------------------------- where the values come from

  /** The block's surviving value at `t` is `v`. */
  ghost predicate Holds(b: Stored, t: int, v: int) {
    t in BlockView(b) && BlockView(b)[t] == v
  }

  lemma {:induction false} PartHeld(r: Reading, w: TimeRange, t: int)
    requires r.Valid() && t in View(Part(r, w))
    ensures Holds(r.stored, t, View(Part(r, w))[t])
  {
    hide View, Alive, Within, Without;
    EmptyView();
    var s := r.stored.values;
    var rest := Without(s, r.readMin, r.readMax);
    AliveAt(s, r.stored.tombstones, t);
    AliveAt(Within(rest, w.min, w.max), r.stored.tombstones, t);
    ViewFilterAt(rest, w.min, w.max, t);
    ViewFilterAt(s, r.readMin, r.readMax, t);
  }

  lemma {:induction false} PartsHeld(rs: seq<Reading>, w: TimeRange, t: int) returns (k: nat)
    requires ValidReadings(rs) && t in Parts(rs, w)
    ensures k < |rs| && Holds(rs[k].stored, t, Parts(rs, w)[t])
  {
    hide View, Part, Holds;
    var p, r := rs[..|rs| - 1], rs[|rs| - 1];
    if t in View(Part(r, w)) {
      PartHeld(r, w, t);
      k := |rs| - 1;
    } else {
      k := PartsHeld(p, w, t);
    }
  }

  lemma {:induction false} TotalHeld(rs: seq<Reading>, t: int) returns (k: nat)
    requires ValidReadings(rs) && t in Total(rs)
    ensures k < |rs| && Holds(rs[k].stored, t, Total(rs)[t])
    decreases Pending(rs), |rs|
  {
    hide Total, Parts, Window, StepAll, Holds, Pending;
    TotalNone();
    if rs[0].Done() {
      TotalDrop(rs);
      PendingTail(rs, 1);
      k := TotalHeld(rs[1..], t);
      k := k + 1;
    } else {
      var w := Window(rs);
      TotalRound(rs);
      RoundProgress(rs);
      StepAllStored(rs, w);
      if t in Total(StepAll(rs, w)) {
        k := TotalHeld(StepAll(rs, w), t);
      } else {
        k := PartsHeld(rs, w, t);
      }
    }
  }

  lemma {:induction false} StepAllStored(rs: seq<Reading>, w: TimeRange)
    requires ValidReadings(rs)
    ensures |StepAll(rs, w)| == |rs| && forall k :: 0 <= k < |rs| ==> StepAll(rs, w)[k].stored == rs[k].stored
  {
    hide Step;
    forall k | 0 <= k < |rs| ensures StepAll(rs, w)[k].stored == rs[k].stored {
      StepMonotone(rs[k], w);
    }
  }

  /** For any list of blocks, whatever the rounds yield is a surviving value of one of them. */
  lemma {:induction false} NothingInvented(all: seq<Stored>, t: int)
    requires AllValid(all) && t in Yield(all)
    ensures exists i :: 0 <= i < |all| && Holds(all[i], t, Yield(all)[t])
  {
    hide Total, Holds;
    var k := TotalHeld(UnreadAll(all), t);
  }
}
