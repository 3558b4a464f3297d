/** Mapping the points of a write to the shards that take them. */
module PointMapping {
  import opened Sorting
  import opened Sequences
  import opened Cluster

  datatype Point = Point(time: int, hash: nat, id: int)

  /** What the metadata answers when it is asked for the group of a point. */
  datatype Reply = Group(g: ShardGroup) | NoGroup | MetaError

  /** One answer for each point, in case it is asked for: a group contains the time and has shards. */
  ghost predicate Answers(ps: seq<Point>, replies: seq<Reply>) {
    && |replies| == |ps|
    && forall i :: 0 <= i < |ps| && replies[i].Group? ==>
         replies[i].g.Contains(ps[i].time) && replies[i].g.shards != []
  }

  // ---------------------------------------------------------------- the list of groups

  /** Groups that have times and shards, by end and start. */
  ghost predicate Listed(l: seq<ShardGroup>) {
    SortedBy(l, GroupLess) && forall i :: 0 <= i < |l| ==> l[i].start < l[i].end && l[i].shards != []
  }

  ghost predicate Covered(l: seq<ShardGroup>, t: int) {
    exists i :: 0 <= i < |l| && l[i].Contains(t)
  }

  /** The index of the first group that ends after the time. */
  ghost function First(l: seq<ShardGroup>, t: int): (i: nat)
    ensures i <= |l| && (i < |l| ==> l[i].end > t)
    ensures forall k :: 0 <= k < i ==> l[k].end <= t
  {
    if l == [] || l[0].end > t then 0 else 1 + First(l[1..], t)
  }

  lemma {:induction false} FirstIs(l: seq<ShardGroup>, t: int, i: nat)
    requires i <= |l| && (i < |l| ==> l[i].end > t) && forall k :: 0 <= k < i ==> l[k].end <= t
    ensures First(l, t) == i
  {
    hide First;
    var f := First(l, t);
    assert f >= i && i >= f;
  }

  /** The first group that ends after the time, by binary search. */
  method FirstEndingAfter(l: seq<ShardGroup>, t: int) returns (idx: nat)
    requires Listed(l)
    ensures idx == First(l, t)
  {
    var lo, hi := 0, |l|;
    while lo < hi
      invariant 0 <= lo <= hi <= |l|
      invariant forall i :: 0 <= i < lo ==> l[i].end <= t
      invariant forall i :: hi <= i < |l| ==> l[i].end > t
    {
      var mid := lo + (hi - lo) / 2;
      assert forall i :: 0 <= i < mid ==> !GroupLess(l[mid], l[i]);
      assert forall i :: mid < i < |l| ==> !GroupLess(l[i], l[mid]);
      if !(l[mid].end > t) {
        lo := mid + 1;
      } else {
        hi := mid;
      }
    }
    FirstIs(l, t, lo);
    idx := lo;
  }

  /** The first group that ends after the time, if any, starts after it too. */
  ghost predicate Missed(l: seq<ShardGroup>, t: int) {
    First(l, t) == |l| || t < l[First(l, t)].start
  }

  /** A group that contains the time, or -1. */
  method ShardGroupAt(l: seq<ShardGroup>, t: int) returns (k: int)
    requires Listed(l)
    ensures if Missed(l, t) then k == -1 else k == First(l, t) < |l| && l[k].Contains(t)
  {
    hide Listed, First;
    var idx := FirstEndingAfter(l, t);
    if idx == |l| || t < l[idx].start {
      return -1;
    }
    return idx;
  }

  /** What is found is the group with the earliest end, then start, of those that contain the time. */
  lemma {:induction false} Preferred(l: seq<ShardGroup>, t: int, j: nat)
    requires Listed(l) && j < |l| && l[j].Contains(t) && !Missed(l, t)
    ensures First(l, t) < |l| && l[First(l, t)].Contains(t) && !GroupLess(l[j], l[First(l, t)])
  {
    hide First;
    assert First(l, t) <= j;
  }

  /** The group lies behind the time and ends before every group that contains it. */
  ghost predicate Hider(l: seq<ShardGroup>, i: nat, t: int)
    requires i < |l|
  {
    t < l[i].start && forall j :: 0 <= j < |l| && l[j].Contains(t) ==> l[i].end < l[j].end
  }

  /** Exactly then a time is not found although a group contains it. */
  lemma {:induction false} HiddenExactly(l: seq<ShardGroup>, t: int)
    requires Listed(l) && Covered(l, t)
    ensures Missed(l, t) <==> exists i :: 0 <= i < |l| && Hider(l, i, t)
  {
    hide First;
    var f := First(l, t);
    if Missed(l, t) {
      forall j | 0 <= j < |l| && l[j].Contains(t) ensures l[f].end < l[j].end {
        assert j > f && !GroupLess(l[j], l[f]);
      }
      assert f < |l| && Hider(l, f, t);
    }
    if i :| 0 <= i < |l| && Hider(l, i, t) {
      assert f <= i && (f < i ==> !GroupLess(l[i], l[f]));
    }
  }

  /** Groups apart from each other hide nothing. */
  lemma {:induction false} ApartFound(l: seq<ShardGroup>, t: int)
    requires Listed(l) && forall i, j :: 0 <= i < |l| && 0 <= j < |l| ==> Apart(l[i], l[j])
    ensures Missed(l, t) <==> !Covered(l, t)
  {
    hide First, Missed;
    if Covered(l, t) {
      HiddenExactly(l, t);
      var j :| 0 <= j < |l| && l[j].Contains(t);
      forall i | 0 <= i < |l| ensures !Hider(l, i, t) {
        assert Apart(l[i], l[j]);
      }
    } else {
      NotCovered(l, t);
    }
  }

  lemma {:induction false} NotCovered(l: seq<ShardGroup>, t: int)
    requires !Covered(l, t)
    ensures Missed(l, t)
  {
    hide First;
    assert First(l, t) < |l| ==> !l[First(l, t)].Contains(t);
  }

  /** A list with the groups of another one and one more. */
  ghost predicate Extends(next: seq<ShardGroup>, l: seq<ShardGroup>, g: ShardGroup) {
    forall h :: h in next <==> h in l || h == g
  }

  /** The list with a group added, sorted. */
  method Append(l: seq<ShardGroup>, g: ShardGroup) returns (next: seq<ShardGroup>)
    requires Listed(l) && g.start < g.end && g.shards != []
    ensures Listed(next) && multiset(next) == multiset(l) + multiset{g} && Extends(next, l, g)
  {
    hide Order;
    GroupOrder();
    next := Sort(l + [g], GroupLess);
    MoreGroups(l, next, g);
    forall i | 0 <= i < |next| ensures next[i].start < next[i].end && next[i].shards != [] {
      assert next[i] in next;
    }
  }

  /** A time that is found stays found when a group is added for a time that is not. */
  lemma {:induction false} StaysFound(l: seq<ShardGroup>, next: seq<ShardGroup>, g: ShardGroup, t: int, u: int)
    requires Listed(l) && Listed(next) && Extends(next, l, g)
    requires !Missed(l, t) && Missed(l, u) && g.Contains(u)
    ensures !Missed(next, t)
  {
    hide First, Missed;
    FoundFirst(l, t);
    var f := l[First(l, t)];
    InList(next, f);
    NowCovered(next, f, t);
    HiddenExactly(next, t);
    if i :| 0 <= i < |next| && Hider(next, i, t) {
      assert next[i] in next && next[i].end < f.end;
      if next[i] in l {
        EndsFirst(l, next[i], t);
        assert false;
      } else {
        NestedFound(l, t, u);
        assert false;
      }
    }
  }

  lemma {:induction false} FoundFirst(l: seq<ShardGroup>, t: int)
    requires !Missed(l, t)
    ensures First(l, t) < |l| && l[First(l, t)].Contains(t) && l[First(l, t)] in l
  {
    hide First;
  }

  lemma {:induction false} InList(l: seq<ShardGroup>, g: ShardGroup)
    requires g in l
    ensures exists i :: 0 <= i < |l| && l[i] == g
  {
  }

  lemma {:induction false} EndsFirst(l: seq<ShardGroup>, h: ShardGroup, t: int)
    requires Listed(l) && h in l && h.end > t
    ensures First(l, t) < |l| && l[First(l, t)].end <= h.end
  {
    hide First;
    var i :| 0 <= i < |l| && l[i] == h;
    assert First(l, t) < i ==> !GroupLess(l[i], l[First(l, t)]);
  }

  /** Inside the group that is found for a time, the later times are found too. */
  lemma {:induction false} NestedFound(l: seq<ShardGroup>, t: int, u: int)
    requires Listed(l) && !Missed(l, t) && t <= u < l[First(l, t)].end
    ensures !Missed(l, u)
  {
    hide First;
    FirstIs(l, u, First(l, t));
  }

  lemma {:induction false} NowCovered(l: seq<ShardGroup>, g: ShardGroup, t: int)
    requires g in l && g.Contains(t)
    ensures Covered(l, t)
  {
    var i :| 0 <= i < |l| && l[i] == g;
    assert l[i].Contains(t);
  }

  // ---------------------------------------------------------------- the mapping

  /** A slice of points with the capacity behind it. */
  datatype Slice = Slice(items: seq<Point>, cap: nat)

  function Grow(s: Slice, p: Point): Slice {
    Slice(s.items + [p], if |s.items| < s.cap then s.cap else 2 * s.cap + 1)
  }

  class ShardMapping {
    const n: nat
    var points: map<nat, Slice>
    var shards: map<nat, Shard>
    var dropped: seq<Point>

    /** Every slice was made with room for all points. */
    ghost predicate Valid()
      reads this
    {
      && points.Keys == shards.Keys
      && (forall k :: k in points ==> points[k].cap >= n)
      && forall k :: k in shards ==> shards[k].id == k
    }

    ghost function At(k: nat): seq<Point>
      reads this
    {
      if k in points then points[k].items else []
    }

    constructor (n: nat)
      ensures Valid() && this.n == n && points == map[] && dropped == []
    {
      this.n := n;
      points, shards, dropped := map[], map[], [];
    }

    /** Adds a point to a shard; the slice is only made anew when there is none yet. */
    method MapPoint(s: Shard, p: Point)
      requires Valid()
      modifies this`points, this`shards
      ensures Valid() && At(s.id) == old(At(s.id)) + [p] && s.id in shards && shards[s.id] == s
      ensures forall k :: k != s.id ==> At(k) == old(At(k)) && (k in points <==> k in old(points))
    {
      var slice := if s.id in points then points[s.id] else Slice([], 0);
      if slice.cap < n {
        slice := Slice([], n);
      }
      points := points[s.id := Grow(slice, p)];
      shards := shards[s.id := s];
    }

    method Drop(p: Point)
      modifies this`dropped
      ensures dropped == old(dropped) + [p]
    {
      dropped := dropped + [p];
    }
  }

  datatype Target = Dropped | Into(shard: nat)

  function ShardFor(g: ShardGroup, hash: nat): Shard
    requires g.shards != []
  {
    g.shards[hash % |g.shards|]
  }

  /** Where a point goes: the group that is found for it, and there by its hash. */
  ghost function TargetOf(l: seq<ShardGroup>, p: Point): Target
    requires Listed(l)
  {
    if Missed(l, p.time) then Dropped
    else var shards := l[First(l, p.time)].shards; Into(shards[p.hash % |shards|].id)
  }

  /** The points that go to a target, in order. */
  ghost function PointsFor(l: seq<ShardGroup>, ps: seq<Point>, to: Target): seq<Point>
    requires Listed(l)
  {
    if ps == [] then []
    else PointsFor(l, ps[..|ps| - 1], to) + if TargetOf(l, ps[|ps| - 1]) == to then [ps[|ps| - 1]] else []
  }

  lemma {:induction false} PointsForSnoc(l: seq<ShardGroup>, ps: seq<Point>, p: Point, to: Target)
    requires Listed(l)
    ensures PointsFor(l, ps + [p], to) == PointsFor(l, ps, to) + if TargetOf(l, p) == to then [p] else []
  {
    hide Listed, TargetOf;
    assert (ps + [p])[..|ps|] == ps;
  }

  /** Every point has one target: it is stored once under one shard or dropped once. */
  lemma {:induction false} Conserved(l: seq<ShardGroup>, ps: seq<Point>, p: Point)
    requires Listed(l)
    ensures multiset(ps)[p] == multiset(PointsFor(l, ps, TargetOf(l, p)))[p]
    ensures forall to :: to != TargetOf(l, p) ==> p !in PointsFor(l, ps, to)
  {
    hide Listed, TargetOf;
    if ps != [] {
      var q, x := ps[..|ps| - 1], ps[|ps| - 1];
      assert ps == q + [x];
      Conserved(l, q, p);
    }
  }

  // ---------------------------------------------------------------- the whole request

  predicate Fresh(p: Point, min: int) {
    min <= p.time
  }

  /** The answer for point `j` hides the answer for point `i`: a group inside its group, behind the point. */
  ghost predicate Hides(ps: seq<Point>, replies: seq<Reply>, j: nat, i: nat)
    requires |replies| == |ps| && j < |ps| && i < |ps|
  {
    && replies[j].Group? && replies[i].Group?
    && ps[i].time < replies[j].g.start && replies[j].g.end < replies[i].g.end
  }

  /** An earlier answer of the request hides that for point `i`. */
  ghost predicate Shadowed(ps: seq<Point>, replies: seq<Reply>, min: int, i: nat)
    requires |replies| == |ps| && i < |ps|
  {
    exists j :: 0 <= j < i && Fresh(ps[j], min) && Hides(ps, replies, j, i)
  }

  /** The state of the list when the first `n` points were looked at. */
  ghost predicate Collected(l: seq<ShardGroup>, ps: seq<Point>, replies: seq<Reply>, min: int, n: nat)
    requires |replies| == |ps| && n <= |ps|
  {
    && Listed(l) && (forall g :: g in l ==> Answered(g, ps, replies, min, n))
    && (forall i :: 0 <= i < n && Fresh(ps[i], min) ==> Covered(l, ps[i].time))
    && (forall i :: 0 <= i < n && Fresh(ps[i], min) && Missed(l, ps[i].time) ==>
          Shadowed(ps, replies, min, i) && replies[i].Group? && replies[i].g in l)
    && (n > 0 && Fresh(ps[0], min) ==> replies[0].Group? && replies[0].g in l)
  }

  ghost predicate Answered(g: ShardGroup, ps: seq<Point>, replies: seq<Reply>, min: int, n: nat)
    requires |replies| == |ps| && n <= |ps|
  {
    exists i :: 0 <= i < n && Fresh(ps[i], min) && replies[i] == Group(g)
  }

  lemma {:induction false} CollectedSkip(l: seq<ShardGroup>, ps: seq<Point>, replies: seq<Reply>, min: int, n: nat)
    requires |replies| == |ps| && n < |ps| && Collected(l, ps, replies, min, n)
    requires Fresh(ps[n], min) ==> !Missed(l, ps[n].time)
    ensures Collected(l, ps, replies, min, n + 1)
  {
    hide Listed, Missed, Shadowed, Covered, Fresh;
    if Fresh(ps[n], min) {
      FoundFirst(l, ps[n].time);
      NowCovered(l, l[First(l, ps[n].time)], ps[n].time);
      assert n > 0 by {
        assert l[First(l, ps[n].time)] in l;
      }
    }
    AnsweredMore(l, ps, replies, min, n);
  }

  lemma {:induction false} AnsweredMore(l: seq<ShardGroup>, ps: seq<Point>, replies: seq<Reply>, min: int, n: nat)
    requires |replies| == |ps| && n < |ps| && forall g :: g in l ==> Answered(g, ps, replies, min, n)
    ensures forall g :: g in l ==> Answered(g, ps, replies, min, n + 1)
  {
    hide Fresh;
    forall g | g in l ensures Answered(g, ps, replies, min, n + 1) {
      assert Answered(g, ps, replies, min, n);
    }
  }

  lemma {:induction false} CollectedNext(l: seq<ShardGroup>, next: seq<ShardGroup>, ps: seq<Point>,
                                         replies: seq<Reply>, min: int, n: nat)
    requires Answers(ps, replies) && n < |ps| && Collected(l, ps, replies, min, n)
    requires Fresh(ps[n], min) && Missed(l, ps[n].time) && replies[n].Group?
    requires Listed(next) && Extends(next, l, replies[n].g)
    ensures Collected(next, ps, replies, min, n + 1)
  {
    hide Listed, Missed, Shadowed, Covered, Fresh, Answered;
    var g := replies[n].g;
    assert g in next;
    AnsweredMore(l, ps, replies, min, n);
    AnsweredLast(ps, replies, min, n);
    forall i | 0 <= i < n + 1 && Fresh(ps[i], min)
      ensures Covered(next, ps[i].time)
      ensures Missed(next, ps[i].time) ==> Shadowed(ps, replies, min, i) && replies[i].Group? && replies[i].g in next {
      if i < n {
        CoveredMore(l, next, g, ps[i].time);
        if !Missed(l, ps[i].time) {
          StaysFound(l, next, g, ps[i].time, ps[n].time);
        }
      } else {
        NowCovered(next, g, ps[n].time);
        if Missed(next, ps[n].time) {
          StillMissed(l, next, ps, replies, min, n);
        }
      }
    }
  }

  lemma {:induction false} AnsweredLast(ps: seq<Point>, replies: seq<Reply>, min: int, n: nat)
    requires |replies| == |ps| && n < |ps| && Fresh(ps[n], min) && replies[n].Group?
    ensures Answered(replies[n].g, ps, replies, min, n + 1)
  {
  }

  lemma {:induction false} CoveredMore(l: seq<ShardGroup>, next: seq<ShardGroup>, g: ShardGroup, t: int)
    requires Extends(next, l, g) && Covered(l, t)
    ensures Covered(next, t)
  {
    var i :| 0 <= i < |l| && l[i].Contains(t);
    assert l[i] in next;
    NowCovered(next, l[i], t);
  }

  /** A point that is not even found in the list with its own group is hidden by a group that was there before. */
  lemma {:induction false} StillMissed(l: seq<ShardGroup>, next: seq<ShardGroup>, ps: seq<Point>, replies: seq<Reply>,
                                       min: int, n: nat)
    requires Answers(ps, replies) && n < |ps| && replies[n].Group? && Listed(next)
    requires forall g :: g in l ==> Answered(g, ps, replies, min, n)
    requires Extends(next, l, replies[n].g) && Missed(next, ps[n].time)
    ensures Shadowed(ps, replies, min, n)
  {
    hide Listed, Missed, Fresh, Covered;
    var g, t := replies[n].g, ps[n].time;
    assert g in next;
    NowCovered(next, g, t);
    HiddenExactly(next, t);
    var i :| 0 <= i < |next| && Hider(next, i, t);
    InList(next, g);
    var h := next[i];
    assert h in next && h.end < g.end;
    assert Answered(h, ps, replies, min, n);
    var j :| 0 <= j < n && Fresh(ps[j], min) && replies[j] == Group(h);
    assert Hides(ps, replies, j, n);
  }

  /** Collects a group for every point that is not too old. */
  method CollectGroups(ps: seq<Point>, min: int, replies: seq<Reply>) returns (l: seq<ShardGroup>, ok: bool)
    requires Answers(ps, replies)
    ensures ok ==> Collected(l, ps, replies, min, |ps|)
    ensures !ok ==> exists i :: 0 <= i < |ps| && Fresh(ps[i], min) && !replies[i].Group?
  {
    hide Listed, Covered, Missed, Shadowed, Answered;
    l := [];
    assert Listed(l) by { NoneListed(); }
    for i := 0 to |ps|
      invariant Collected(l, ps, replies, min, i)
    {
      var k := ShardGroupAt(l, ps[i].time);
      if ps[i].time < min || k >= 0 {
        CollectedSkip(l, ps, replies, min, i);
      } else {
        var reply := replies[i];
        if !reply.Group? {
          return [], false;
        }
        var next := Append(l, reply.g);
        CollectedNext(l, next, ps, replies, min, i);
        l := next;
      }
    }
    ok := true;
  }

  lemma {:induction false} NoneListed()
    ensures Listed([])
  {
  }

  /**
   * Maps the points: those of a shard are stored under it, in order, and the rest is dropped. Of the points that
   * are not too old only such are dropped whose group was hidden by that of an earlier point.
   */
  method MapShards(ps: seq<Point>, min: int, replies: seq<Reply>)
    returns (m: ShardMapping, ok: bool, ghost l: seq<ShardGroup>)
    requires Answers(ps, replies)
    ensures ok ==> m.Valid() && Collected(l, ps, replies, min, |ps|)
    ensures !ok ==> exists i :: 0 <= i < |ps| && Fresh(ps[i], min) && !replies[i].Group?
    ensures ok ==> forall k :: m.At(k) == PointsFor(l, ps, Into(k))
    ensures ok ==> m.dropped == PointsFor(l, ps, Dropped)
    ensures ok ==> forall i :: 0 <= i < |ps| && Fresh(ps[i], min) && TargetOf(l, ps[i]) == Dropped ==>
                     Shadowed(ps, replies, min, i)
  {
    hide Collected, PointsFor, TargetOf, Shadowed, Listed, Fresh;
    m := new ShardMapping(|ps|);
    var list;
    list, ok := CollectGroups(ps, min, replies);
    l := list;
    if !ok {
      return;
    }
    CollectedList(l, ps, replies, min);
    NoPoints(l);
    assert ps[..0] == [];
    for i := 0 to |ps|
      invariant m.Valid() && fresh(m)
      invariant forall k :: m.At(k) == PointsFor(l, ps[..i], Into(k))
      invariant m.dropped == PointsFor(l, ps[..i], Dropped)
    {
      assert ps[..i + 1] == ps[..i] + [ps[i]];
      MapOne(m, list, ps[i], ps[..i]);
    }
    assert ps[..|ps|] == ps;
  }

  lemma {:induction false} CollectedList(l: seq<ShardGroup>, ps: seq<Point>, replies: seq<Reply>, min: int)
    requires |replies| == |ps| && Collected(l, ps, replies, min, |ps|)
    ensures Listed(l)
    ensures forall i :: 0 <= i < |ps| && Fresh(ps[i], min) && TargetOf(l, ps[i]) == Dropped ==>
              Shadowed(ps, replies, min, i)
  {
    hide Listed, Missed, Fresh, Shadowed, Covered, Answered;
  }

  method MapOne(m: ShardMapping, l: seq<ShardGroup>, p: Point, ghost done: seq<Point>)
    requires m.Valid() && Listed(l)
    requires (forall k :: m.At(k) == PointsFor(l, done, Into(k))) && m.dropped == PointsFor(l, done, Dropped)
    modifies m
    ensures m.Valid()
    ensures forall k :: m.At(k) == PointsFor(l, done + [p], Into(k))
    ensures m.dropped == PointsFor(l, done + [p], Dropped)
  {
    hide Listed, Missed, First, PointsFor;
    forall to ensures PointsFor(l, done + [p], to) == PointsFor(l, done, to) + if TargetOf(l, p) == to then [p]
        else [] {
      PointsForSnoc(l, done, p, to);
    }
    var k := ShardGroupAt(l, p.time);
    if k < 0 {
      m.Drop(p);
    } else {
      HasShards(l, k);
      m.MapPoint(ShardFor(l[k], p.hash), p);
    }
  }

  lemma {:induction false} HasShards(l: seq<ShardGroup>, k: nat)
    requires Listed(l) && k < |l|
    ensures l[k].shards != []
  {
  }

  lemma {:induction false} NoPoints(l: seq<ShardGroup>)
    requires Listed(l)
    ensures forall to :: PointsFor(l, [], to) == []
  {
  }

  // ---------------------------------------------------------------- when a point in time is dropped

  /** Of a request of two points in time the second one is dropped exactly if the first one's group hides its own. */
  lemma {:induction false} TwoExactly(l: seq<ShardGroup>, ps: seq<Point>, replies: seq<Reply>, min: int)
    requires Answers(ps, replies) && |ps| == 2 && Fresh(ps[0], min) && Fresh(ps[1], min)
    requires Collected(l, ps, replies, min, 2)
    ensures TargetOf(l, ps[0]) != Dropped
    ensures TargetOf(l, ps[1]) == Dropped <==> Hides(ps, replies, 0, 1)
  {
    hide Listed, Missed, First, Fresh, Covered, Answered;
    assert !Shadowed(ps, replies, min, 0);
    if Hides(ps, replies, 0, 1) {
      var g, t := replies[0].g, ps[1].time;
      HiddenExactly(l, t);
      InList(l, g);
      var i :| 0 <= i < |l| && l[i] == g;
      forall j | 0 <= j < |l| && l[j].Contains(t) ensures g.end < l[j].end {
        assert Answered(l[j], ps, replies, min, 2);
        AnsweredTwo(l[j], ps, replies, min);
      }
      assert Hider(l, i, t);
    }
  }

  lemma {:induction false} AnsweredTwo(g: ShardGroup, ps: seq<Point>, replies: seq<Reply>, min: int)
    requires |ps| == |replies| == 2 && Answered(g, ps, replies, min, 2)
    ensures replies[0] == Group(g) || replies[1] == Group(g)
  {
  }

  /** Every time is answered with a group that ends as early as any that was handed out for it. */
  ghost predicate Nearest(ps: seq<Point>, replies: seq<Reply>)
    requires |replies| == |ps|
  {
    forall i, j :: 0 <= i < |ps| && 0 <= j < |ps| && replies[j].Group? && replies[j].g.Contains(ps[i].time) ==>
      replies[i].Group? && replies[i].g.end <= replies[j].g.end
  }

  /** Then a point in time is dropped exactly if some group of the list hides its own. */
  lemma {:induction false} DroppedExactly(l: seq<ShardGroup>, ps: seq<Point>, replies: seq<Reply>, min: int, i: nat)
    requires Answers(ps, replies) && Nearest(ps, replies) && Collected(l, ps, replies, min, |ps|)
    requires i < |ps| && Fresh(ps[i], min)
    ensures replies[i].Group?
    ensures TargetOf(l, ps[i]) == Dropped <==>
            exists h :: h in l && ps[i].time < h.start && h.end < replies[i].g.end
  {
    hide Listed, Missed, First, Fresh, Answered, Shadowed;
    var t := ps[i].time;
    HiddenExactly(l, t);
    forall j | 0 <= j < |l| && l[j].Contains(t) ensures replies[i].Group? && replies[i].g.end <= l[j].end {
      NearestOf(l[j], ps, replies, min, i);
    }
    if h :| h in l && t < h.start && h.end < replies[i].g.end {
      var k :| 0 <= k < |l| && l[k] == h;
      assert Hider(l, k, t);
    }
    if k :| Missed(l, t) && 0 <= k < |l| && Hider(l, k, t) {
      InList(l, replies[i].g);
      assert l[k] in l && l[k].end < replies[i].g.end;
    }
  }

  lemma {:induction false} NearestOf(g: ShardGroup, ps: seq<Point>, replies: seq<Reply>, min: int, i: nat)
    requires |replies| == |ps| && Nearest(ps, replies) && Answered(g, ps, replies, min, |ps|)
    requires i < |ps| && g.Contains(ps[i].time)
    ensures replies[i].Group? && replies[i].g.end <= g.end
  {
    hide Fresh;
    var j :| 0 <= j < |ps| && Fresh(ps[j], min) && replies[j] == Group(g);
  }

  /** Any two groups are apart. */
  ghost predicate Tidy(replies: seq<Reply>) {
    forall i, j :: 0 <= i < |replies| && 0 <= j < |replies| && replies[i].Group? && replies[j].Group? ==>
      Apart(replies[i].g, replies[j].g)
  }

  /** Then no point in time is dropped. */
  lemma {:induction false} TidyStores(ps: seq<Point>, replies: seq<Reply>, min: int, i: nat)
    requires Answers(ps, replies) && Tidy(replies) && i < |ps|
    ensures !Shadowed(ps, replies, min, i)
  {
    forall j | 0 <= j < i ensures !Hides(ps, replies, j, i) {
      if replies[j].Group? && replies[i].Group? {
        assert Apart(replies[j].g, replies[i].g);
      }
    }
  }

  /** Groups cut for one duration are tidy. */
  lemma {:induction false} OneLength(replies: seq<Reply>, d: int)
    requires forall i :: 0 <= i < |replies| && replies[i].Group? ==> OfDuration(replies[i].g, d)
    ensures Tidy(replies)
  {
    hide OfDuration, Apart;
    forall i, j | 0 <= i < |replies| && 0 <= j < |replies| && replies[i].Group? && replies[j].Group?
      ensures Apart(replies[i].g, replies[j].g) {
      OneDuration(replies[i].g, replies[j].g, d);
    }
  }

  /** The answers of one state of a policy: the first group that serves the time, if any does. */
  ghost predicate FromPolicy(ps: seq<Point>, replies: seq<Reply>, groups: seq<ShardGroup>)
    requires |replies| == |ps|
  {
    forall i :: 0 <= i < |ps| ==> LookedUp(groups, ps[i].time, replies[i])
  }

  ghost predicate LookedUp(groups: seq<ShardGroup>, t: int, r: Reply) {
    if r.Group? then exists k :: 0 <= k < |groups| && groups[k] == r.g && FirstServes(groups, k, t)
    else forall k :: 0 <= k < |groups| ==> !groups[k].Serves(t)
  }

  ghost predicate FirstServes(groups: seq<ShardGroup>, k: nat, t: int)
    requires k < |groups|
  {
    groups[k].Serves(t) && forall i :: 0 <= i < k ==> !groups[i].Serves(t)
  }

  /** They are the nearest ones, since the groups of a policy are sorted by their ends. */
  lemma {:induction false} PolicyNearest(ps: seq<Point>, replies: seq<Reply>, groups: seq<ShardGroup>)
    requires |replies| == |ps| && SortedBy(groups, GroupLess) && FromPolicy(ps, replies, groups)
    ensures Nearest(ps, replies)
  {
    hide SortedBy, LookedUp;
    forall i, j | 0 <= i < |ps| && 0 <= j < |ps| && replies[j].Group? && replies[j].g.Contains(ps[i].time)
      ensures replies[i].Group? && replies[i].g.end <= replies[j].g.end {
      NearestPair(groups, ps[i].time, replies[i], ps[j].time, replies[j]);
    }
  }

  lemma {:induction false} NearestPair(groups: seq<ShardGroup>, t: int, r: Reply, u: int, s: Reply)
    requires SortedBy(groups, GroupLess) && LookedUp(groups, t, r) && LookedUp(groups, u, s)
    requires s.Group? && s.g.Contains(t)
    ensures r.Group? && r.g.end <= s.g.end
  {
    var k :| 0 <= k < |groups| && groups[k] == s.g && FirstServes(groups, k, u);
    assert groups[k].Serves(t);
    var m :| 0 <= m < |groups| && groups[m] == r.g && FirstServes(groups, m, t);
    assert m <= k && (m < k ==> !GroupLess(groups[k], groups[m]));
  }

  lemma {:induction false} TwoPoints(l: seq<ShardGroup>, p: Point, q: Point, to: Target)
    requires Listed(l)
    ensures PointsFor(l, [p, q], to) ==
            (if TargetOf(l, p) == to then [p] else []) + (if TargetOf(l, q) == to then [q] else [])
  {
    hide Listed, TargetOf, PointsFor;
    NoPoints(l);
    PointsForSnoc(l, [], p, to);
    PointsForSnoc(l, [p], q, to);
    assert [] + [p] == [p] && [p] + [q] == [p, q];
  }

  /** Groups of a policy whose length was changed from a day to a week in between. */
  method DayAndWeek() returns (day: ShardGroup, week: ShardGroup)
    ensures day.start == 2 && day.end == 3 && day.shards != []
    ensures week.start == 0 && week.end == 7 && week.shards != []
  {
    hide SortedBy, Distinct;
    var data := new Data([1]);
    assert Distinct<NodeId>([1]) by { OneNode(); }
    var policy := new RetentionPolicy(1, 1);
    var i := data.GroupAt(policy, 2);
    day := policy.groups[i];
    assert day in policy.groups;
    policy.Update(7);
    i := data.GroupAt(policy, 0);
    week := policy.groups[i];
    assert week in policy.groups;
  }

  lemma {:induction false} OneNode()
    ensures Distinct<NodeId>([1])
  {
  }

  /**
   * The answers need not be tidy when the length of the groups was changed: the group of the day hides that of the
   * week around it, and a point that is not too old is dropped.
   */
  method LostAfterUpdate() returns (m: ShardMapping)
    ensures m.dropped == [Point(0, 0, 1)]
  {
    hide PointsFor, TargetOf, Collected;
    var day, week := DayAndWeek();
    var p, q := Point(2, 0, 0), Point(0, 0, 1);
    var ok;
    ghost var l;
    m, ok, l := MapShards([p, q], 0, [Group(day), Group(week)]);
    assert ok && Fresh(p, 0) && Fresh(q, 0);
    assert Hides([p, q], [Group(day), Group(week)], 0, 1);
    TwoExactly(l, [p, q], [Group(day), Group(week)], 0);
    CollectedList(l, [p, q], [Group(day), Group(week)], 0);
    TwoPoints(l, p, q, Dropped);
  }
}
