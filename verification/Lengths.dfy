/** How long the emitted blocks of a key are whose blocks follow each other in time. */
module Lengths {
  import opened Sequences
  import opened Values
  import opened Windows
  import opened Rounds
  import opened Scatter
  import opened Progress

  /** No block has tombstones, and every block ends before the next ones start. */
  ghost predicate LinedUp(all: seq<Stored>)
    requires AllValid(all)
  {
    && (forall i :: 0 <= i < |all| ==> all[i].tombstones == [])
    && forall i, j :: 0 <= i < j < |all| ==> all[i].MaxTime() < all[j].MinTime()
  }

  /** The number of blocks in front that hold at least `size` values. */
  ghost function Leading(ls: seq<nat>, size: nat): (n: nat)
    ensures n <= |ls|
  {
    if ls == [] || ls[0] < size then 0 else 1 + Leading(ls[1..], size)
  }

  /**
   * The lengths of the blocks that are emitted when `carry` values wait and blocks of the lengths `ls` follow. With
   * nothing waiting, blocks are passed on whole: all of them on the fast path, on the full path those in front that
   * are large enough, and a single last one.
   */
  ghost function Plan(carry: nat, ls: seq<nat>, size: nat, fast: bool): seq<nat>
    requires size > 0
    decreases |ls|, carry, 1
  {
    if carry > 0 then Fill(carry, ls, size, fast)
    else var p := Leading(ls, size);
         var q := if fast || p + 1 == |ls| then |ls| else p;
         ls[..q] + Fill(0, ls[q..], size, fast)
  }

  /** Values are gathered until there are `size`; then that many, or all that are left, make up the next block. */
  ghost function Fill(carry: nat, ls: seq<nat>, size: nat, fast: bool): seq<nat>
    requires size > 0
    decreases |ls|, carry, 0
  {
    if carry < size && ls != [] then Fill(carry + ls[0], ls[1..], size, fast)
    else if carry == 0 then []
    else if carry > size then [size] + Plan(carry - size, ls, size, fast)
    else [carry] + Plan(0, ls, size, fast)
  }

  lemma {:induction false} PlanNothing(size: nat, fast: bool)
    requires size > 0
    ensures Plan(0, [], size, fast) == [] == Fill(0, [], size, fast)
  {
    var none: seq<nat> := [];
    assert Fill(0, none, size, fast) == [];
    hide Fill;
    assert Leading(none, size) == 0 && none[..0] == [] && none[0..] == [];
  }

  /** On the fast path every block is emitted as it is. */
  lemma {:induction false} PlanFast(ls: seq<nat>, size: nat)
    requires size > 0
    ensures Plan(0, ls, size, true) == ls
  {
    assert ls[..|ls|] == ls;
    PlanNothing(size, true);
  }

  /** On the full path the large blocks in front are. */
  lemma {:induction false} PlanLeading(ls: seq<nat>, size: nat, fast: bool)
    requires size > 0
    ensures Leading(ls, size) <= |Plan(0, ls, size, fast)|
    ensures forall i :: 0 <= i < Leading(ls, size) ==> Plan(0, ls, size, fast)[i] == ls[i]
  {
    hide Fill, Leading;
  }

  lemma {:induction false} LeadingAt(ls: seq<nat>, size: nat, n: nat)
    requires n <= |ls| && (forall i :: 0 <= i < n ==> ls[i] >= size) && (n < |ls| ==> ls[n] < size)
    ensures Leading(ls, size) == n
  {
    if n > 0 {
      LeadingAt(ls[1..], size, n - 1);
    }
  }

  // ---------------------------------------------------------------- what is left of the key

  /** The lengths of the blocks that are not read. */
  ghost function Left(rs: seq<Reading>): (ls: seq<nat>)
    requires ValidReadings(rs)
  {
    if rs == [] then [] else (if rs[0].Done() then [] else [|rs[0].stored.values|]) + Left(rs[1..])
  }

  ghost function Sum(ls: seq<nat>): nat {
    if ls == [] then 0 else ls[0] + Sum(ls[1..])
  }

  ghost function Lens(all: seq<Stored>): seq<nat> {
    seq(|all|, i requires 0 <= i < |all| => |all[i].values|)
  }

  lemma {:induction false} LeftHead(rs: seq<Reading>)
    requires ValidReadings(rs) && rs != []
    ensures rs[0].Done() ==> Left(rs) == Left(rs[1..])
    ensures !rs[0].Done() ==> Left(rs) == [|rs[0].stored.values|] + Left(rs[1..]) && Left(rs)[1..] == Left(rs[1..])
  {
    assert [] + Left(rs[1..]) == Left(rs[1..]);
  }

  lemma {:induction false} LeftNone()
    ensures Left([]) == []
  {
  }

  lemma {:induction false} LeftSplit(rs: seq<Reading>, i: nat)
    requires ValidReadings(rs) && i <= |rs|
    ensures Left(rs) == Left(rs[..i]) + Left(rs[i..])
  {
    if i == 0 {
      assert rs[..0] == [] && rs[0..] == rs;
      assert [] + Left(rs) == Left(rs);
    } else {
      LeftSplit(rs[1..], i - 1);
      assert rs[1..][..i - 1] == rs[..i][1..] && rs[1..][i - 1..] == rs[i..] && rs[..i][0] == rs[0];
      var head := if rs[0].Done() then [] else [|rs[0].stored.values|];
      Regrouped(head, Left(rs[..i][1..]), Left(rs[i..]));
    }
  }

  lemma {:induction false} LeftSnoc(rs: seq<Reading>, i: nat)
    requires ValidReadings(rs) && i < |rs|
    ensures Left(rs[..i + 1]) == Left(rs[..i]) + if rs[i].Done() then [] else [|rs[i].stored.values|]
  {
    var s := rs[..i + 1];
    LeftSplit(s, i);
    assert s[..i] == rs[..i] && s[i..] == [rs[i]];
    LeftHead([rs[i]]);
    LeftNone();
    assert [rs[i]][1..] == [];
  }

  lemma {:induction false} LeftUnread(all: seq<Stored>)
    requires AllValid(all)
    ensures Left(UnreadAll(all)) == Lens(all)
  {
    var rs := UnreadAll(all);
    if all != [] {
      NotDone(all[0]);
      LeftUnread(all[1..]);
      assert rs[1..] == UnreadAll(all[1..]);
      LeftHead(rs);
      assert Lens(all) == [|all[0].values|] + Lens(all[1..]);
    }
  }

  /** Behind the first unread block no block is read. */
  lemma {:induction false} LeftAll(all: seq<Stored>, rs: seq<Reading>, n: nat)
    requires AllValid(all) && TakenTo(all, rs, n) && ValidReadings(rs) && (rs != [] ==> !rs[0].Done())
    ensures |Left(rs)| == |rs|
    decreases |rs|
  {
    hide TakenTo;
    if rs != [] {
      DropTaken(all, rs, n);
      var tail := rs[1..];
      if tail != [] {
        DropTaken(all, tail, n + 1);
        FrontOpen(all, rs, n);
      }
      LeftAll(all, tail, n + 1);
      LeftHead(rs);
    }
  }

  lemma {:induction false} FrontOpen(all: seq<Stored>, rs: seq<Reading>, n: nat)
    requires AllValid(all) && TakenTo(all, rs, n) && ValidReadings(rs) && |rs| > 1 && !rs[0].Done()
    ensures !rs[1].Done()
  {
    assert rs[0].stored == all[|all| - |rs|] && rs[1].stored == all[|all| - |rs| + 1];
    NotDone(all[|all| - |rs| + 1]);
  }

  lemma {:induction false} LeftCount(all: seq<Stored>, rs: seq<Reading>, n: nat)
    requires AllValid(all) && LinedUp(all) && TakenTo(all, rs, n) && ValidReadings(rs)
    ensures n <= |all| && Count(all[..n]) + Sum(Left(rs)) == Count(all)
    decreases |rs|
  {
    if rs == [] {
      assert all[..n] == all;
    } else {
      hide TakenTo;
      DropTaken(all, rs, n);
      LeftHead(rs);
      if rs[0].Done() {
        LeftCount(all, rs[1..], n);
      } else {
        LeftCount(all, rs[1..], n + 1);
        assert all[..n + 1][..n] == all[..n];
        LiveBlock(all[n]);
      }
    }
  }

  lemma {:induction false} LinedUpApart(all: seq<Stored>)
    requires AllValid(all) && LinedUp(all)
    ensures Apart(all) && SortedFrom(all, 0) && InOrder(all)
  {
    hide Ascending;
    forall i, j | 0 <= i < j < |all| ensures all[i].MinTime() <= all[j].MaxTime() {
      ValidSpan(all, i);
      ValidSpan(all, j);
    }
  }

  /** The values that are cut, that wait and that are unread are all values. */
  lemma {:induction false} Counted(all: seq<Stored>, size: nat, rs: seq<Reading>, pre: seq<Value>, m: seq<Value>,
                                   f: int)
    requires AllValid(all) && ValidReadings(rs) && size > 0 && LinedUp(all) && InStep(all, size, rs, pre, m, f)
    ensures |pre| + |m| + Sum(Left(rs)) == Count(all)
  {
    hide View, Total, Yield, Consumed, Produced, InOrder, Meaning, TakenTo;
    LinedUpApart(all);
    var n: nat :| n <= |all| && TakenTo(all, rs, n) && Gathered(all, size, pre, m, n);
    LeftCount(all, rs, n);
  }

  /** From the first unread block on none is read. */
  lemma {:induction false} AllOpen(all: seq<Stored>, size: nat, rs: seq<Reading>, pre: seq<Value>, m: seq<Value>,
                                   f: int)
    requires AllValid(all) && ValidReadings(rs) && size > 0 && LinedUp(all) && InStep(all, size, rs, pre, m, f)
    requires rs != [] ==> !rs[0].Done()
    ensures |Left(rs)| == |rs|
  {
    hide View, Total, Yield, Consumed, Produced, InOrder, Gathered, TakenTo;
    LinedUpApart(all);
    var n: nat :| n <= |all| && TakenTo(all, rs, n) && Gathered(all, size, pre, m, n);
    LeftAll(all, rs, n);
  }

  /** Taking the first unread block over into the waiting values. */
  lemma {:induction false} TakenOver(all: seq<Stored>, size: nat, rs: seq<Reading>, pre: seq<Value>, m: seq<Value>,
                                     f: int,
                                     rs': seq<Reading>, m': seq<Value>, f': int)
    requires AllValid(all) && ValidReadings(rs) && ValidReadings(rs') && size > 0 && LinedUp(all)
    requires InStep(all, size, rs, pre, m, f) && InStep(all, size, rs', pre, m', f')
    requires Left(rs) != [] && Left(rs') == Left(rs)[1..]
    ensures |m'| == |m| + Left(rs)[0]
  {
    hide InStep, Left;
    Counted(all, size, rs, pre, m, f);
    Counted(all, size, rs', pre, m', f');
  }

  /** A round takes the head and nothing else, and leaves no block partially read. */
  lemma {:induction false} RoundLeft(all: seq<Stored>, size: nat, rs: seq<Reading>, pre: seq<Value>, m: seq<Value>,
                                     f: int)
    requires AllValid(all) && ValidReadings(rs) && size > 0 && LinedUp(all) && InStep(all, size, rs, pre, m, f)
    requires rs != [] && !rs[0].Done() && Disjoint(rs) && ValidReadings(StepAll(rs, Window(rs)))
    ensures Disjoint(StepAll(rs, Window(rs)))
    ensures Left(rs) != [] && Left(StepAll(rs, Window(rs))) == Left(rs)[1..]
  {
    hide View, Total, Yield, Consumed, Produced, InOrder, Gathered, TakenTo, Apart, Disjoint, Step, WindowAfter;
    LinedUpApart(all);
    var n: nat :| n <= |all| && TakenTo(all, rs, n) && Gathered(all, size, pre, m, n);
    DropTaken(all, rs, n);
    var w := TimeRange(rs[0].stored.MinTime(), rs[0].stored.MaxTime());
    OthersApart(all, rs, n);
    WindowLone(rs, |rs|);
    assert Window(rs) == w;
    var rs' := StepAll(rs, w);
    StepWhole(rs[0]);
    assert rs'[1..] == rs[1..] by {
      forall k | 0 < k < |rs| ensures Step(rs[k], w) == rs[k] {
        StepSkips(rs[k], w);
      }
    }
    HeadReplaced(rs, rs');
    LeftHead(rs);
    LeftHead(rs');
  }

  lemma {:induction false} StepWhole(r: Reading)
    requires r.Valid() && r == Unread(r.stored)
    ensures var s := Step(r, TimeRange(r.stored.MinTime(), r.stored.MaxTime()));
            s.stored == r.stored && s.Done() && !s.PartiallyRead()
  {
    hide Within, Without;
    FilterNone(r.stored.values, r.readMin, r.readMax);
    FilterAll(r.stored.values, r.stored.MinTime(), r.stored.MaxTime());
    NotDone(r.stored);
  }

  lemma {:induction false} HeadReplaced(rs: seq<Reading>, rs': seq<Reading>)
    requires ValidReadings(rs) && ValidReadings(rs') && Disjoint(rs) && rs != [] && |rs'| == |rs| && rs'[1..] == rs[1..]
    requires rs'[0].stored == rs[0].stored && !rs'[0].PartiallyRead()
    ensures Disjoint(rs')
  {
    assert forall i :: 0 < i < |rs| ==> rs'[i] == rs'[1..][i - 1] == rs[i];
    assert forall i :: 0 <= i < |rs| ==> rs'[i].stored == rs[i].stored;
  }

  lemma {:induction false} LinedUpDisjoint(all: seq<Stored>)
    requires AllValid(all) && LinedUp(all)
    ensures Disjoint(UnreadAll(all))
  {
    hide Ascending;
  }

  ghost predicate Large(ls: seq<nat>, size: nat) {
    forall i :: 0 <= i < |ls| ==> ls[i] >= size
  }

  /** The blocks from `from` to `i` that are not read are large. */
  ghost predicate LargeFrom(rs: seq<Reading>, from: nat, i: nat, size: nat)
    requires ValidReadings(rs) && from <= i <= |rs|
  {
    Large(Left(rs[from..i]), size)
  }

  lemma {:induction false} LargeNone(rs: seq<Reading>, from: nat, size: nat)
    requires ValidReadings(rs) && from <= |rs|
    ensures LargeFrom(rs, from, from, size)
  {
    assert rs[from..from] == [];
    LeftNone();
  }

  lemma {:induction false} LargeMore(rs: seq<Reading>, from: nat, i: nat, size: nat)
    requires ValidReadings(rs) && from <= i < |rs|
    ensures LargeFrom(rs, from, i, size) && (rs[i].Done() || |rs[i].stored.values| >= size) ==>
            LargeFrom(rs, from, i + 1, size)
  {
    hide Left;
    var s := rs[from..i + 1];
    LeftSnoc(s, i - from);
    assert s[..i - from + 1] == s && s[..i - from] == rs[from..i] && s[i - from] == rs[i];
  }

  ghost function FillFrom(carry: nat, rs: seq<Reading>, i: nat, size: nat, fast: bool): seq<nat>
    requires ValidReadings(rs) && i <= |rs| && size > 0
  {
    Fill(carry, Left(rs[i..]), size, fast)
  }

  lemma {:induction false} FillFromIs(carry: nat, rs: seq<Reading>, i: nat, size: nat, fast: bool)
    requires ValidReadings(rs) && i <= |rs| && size > 0
    ensures ValidReadings(rs[i..]) && FillFrom(carry, rs, i, size, fast) == Fill(carry, Left(rs[i..]), size, fast)
  {
  }

  /** The blocks passed on and the rest are the plan. */
  lemma {:induction false} PlanPasses(rs: seq<Reading>, p: nat, i: nat, size: nat, fast: bool)
    requires ValidReadings(rs) && p <= |rs| && size > 0 && |Left(rs[p..])| == |rs| - p
    requires LargeFrom(rs, 0, p, size) && (p < |rs| ==> !rs[p].Done() && |rs[p].stored.values| < size)
    requires i == if fast || p + 1 == |rs| then |rs| else p
    ensures i <= |rs| && Left(rs[..i]) + FillFrom(0, rs, i, size, fast) == Plan(0, Left(rs), size, fast)
  {
    hide Left, Fill, Leading;
    var ls, n := Left(rs), |Left(rs[..p])|;
    assert rs[0..p] == rs[..p];
    LeftSplit(rs, p);
    if p < |rs| {
      LeftHead(rs[p..]);
    }
    LeadingAt(ls, size, n);
    if i == |rs| {
      assert rs[..i] == rs && rs[i..] == [] && ls[..|ls|] == ls && ls[|ls|..] == [];
      LeftNone();
      PlanNothing(size, fast);
    } else {
      assert ls[..n] == Left(rs[..p]) && ls[n..] == Left(rs[p..]);
    }
  }
}
