/** Deleting a time range from a cache entry: a binary search over values that may not be in order. */
module RangeDelete {
  import opened Values
  import opened MapSums
  import opened CacheModel


  // ---------------------------------------------------------------- the search on any list

  /** Where the binary search for `v` ends, on any list. */
  function Probe(a: seq<Value>, v: int, lo: nat, hi: nat): (i: nat)
    requires lo <= hi <= |a|
    ensures lo <= i <= hi && (i > lo ==> a[i - 1].time < v) && (i < hi ==> v <= a[i].time)
    decreases hi - lo
  {
    if lo == hi then lo
    else var mid := (lo + hi) / 2;
         if a[mid].time < v then Probe(a, v, mid + 1, hi) else Probe(a, v, lo, mid)
  }

  /** A later time is never found before an earlier one, even if the list is not in order. */
  lemma {:induction false} ProbeMonotone(a: seq<Value>, v: int, w: int, lo: nat, hi: nat)
    requires lo <= hi <= |a| && v <= w
    ensures Probe(a, v, lo, hi) <= Probe(a, w, lo, hi)
    decreases hi - lo
  {
    if lo < hi {
      var mid := (lo + hi) / 2;
      if a[mid].time < v {
        ProbeMonotone(a, v, w, mid + 1, hi);
      } else if w <= a[mid].time {
        ProbeMonotone(a, v, w, lo, mid);
      }
    }
  }

  /** Behind a time from `v` on there is none before `v`. */
  ghost predicate Divides(a: seq<Value>, v: int) {
    forall i, j :: 0 <= i < j < |a| && v <= a[i].time ==> v <= a[j].time
  }

  /** A list that a time divides is split by the search for it. */
  lemma {:induction false} ProbeSplits(a: seq<Value>, v: int)
    requires Divides(a, v)
    ensures var i := Probe(a, v, 0, |a|); forall k :: 0 <= k < |a| ==> (k < i <==> a[k].time < v)
  {
    hide Probe;
    var i := Probe(a, v, 0, |a|);
    forall k | 0 <= k < |a| ensures k < i <==> a[k].time < v {
      assert k < i - 1 ==> a[k].time < v;
      assert i < k ==> v <= a[k].time;
    }
  }

  /** The range is not looked for: by its ends the list lies outside it. */
  predicate Misses(a: seq<Value>, min: int, max: int) {
    a == [] || min > max || a[|a| - 1].time < min || a[0].time > max
  }

  /** The stretch that is cut out: from the first bound to the second one and the value there if it is stamped `max`. */
  function CutFrom(a: seq<Value>, min: int, max: int): (lo: nat)
    ensures lo <= |a|
  {
    if Misses(a, min, max) then |a| else Probe(a, min, 0, |a|)
  }

  function CutTo(a: seq<Value>, min: int, max: int): (hi: nat)
    ensures CutFrom(a, min, max) <= hi <= |a|
  {
    if Misses(a, min, max) then |a|
    else ProbeMonotone(a, min, max, 0, |a|);
         var hi := Probe(a, max, 0, |a|);
         if hi < |a| && a[hi].time == max then hi + 1 else hi
  }

  /** What the delete leaves of a list. */
  function Excluded(a: seq<Value>, min: int, max: int): seq<Value> {
    a[..CutFrom(a, min, max)] + a[CutTo(a, min, max)..]
  }

  method SearchAny(a: seq<Value>, v: int) returns (i: nat)
    ensures i == Probe(a, v, 0, |a|)
  {
    var lo, hi := 0, |a|;
    while lo < hi
      invariant 0 <= lo <= hi <= |a| && Probe(a, v, lo, hi) == Probe(a, v, 0, |a|)
    {
      var mid := (lo + hi) / 2;
      if a[mid].time < v {
        lo := mid + 1;
      } else {
        hi := mid;
      }
    }
    return lo;
  }

  /** Cuts a range out of a list, in order or not. */
  method Filter(a: seq<Value>, min: int, max: int) returns (r: seq<Value>)
    ensures r == Excluded(a, min, max)
  {
    hide Probe;
    if Misses(a, min, max) {
      return a;
    }
    ProbeMonotone(a, min, max, 0, |a|);
    var rmin := SearchAny(a, min);
    var rmax := SearchAny(a, max);
    if rmax < |a| {
      if a[rmax].time == max {
        rmax := rmax + 1;
      }
      return a[..rmin] + a[rmax..];
    }
    return a[..rmin];
  }

  ghost predicate InRange(x: Value, min: int, max: int) {
    min <= x.time <= max
  }

  /** What lies in the range is the stretch from `lo` to `hi`. */
  ghost predicate Stretches(a: seq<Value>, lo: nat, hi: nat, min: int, max: int) {
    forall i :: 0 <= i < |a| ==> (InRange(a[i], min, max) <==> lo <= i < hi)
  }

  // ---------------------------------------------------------------- when it deletes the range

  ghost predicate AllIn(s: seq<Value>, min: int, max: int) {
    forall i :: 0 <= i < |s| ==> InRange(s[i], min, max)
  }

  ghost predicate NoneIn(s: seq<Value>, min: int, max: int) {
    forall i :: 0 <= i < |s| ==> !InRange(s[i], min, max)
  }

  lemma {:induction false} InSnoc(s: seq<Value>, x: Value, min: int, max: int)
    ensures AllIn(s + [x], min, max) <==> AllIn(s, min, max) && InRange(x, min, max)
    ensures NoneIn(s + [x], min, max) <==> NoneIn(s, min, max) && !InRange(x, min, max)
  {
    hide InRange;
    var r := s + [x];
    assert r[|s|] == x && forall i :: 0 <= i < |s| ==> r[i] == s[i];
  }

  lemma {:induction false} WithoutOutside(s: seq<Value>, min: int, max: int)
    ensures |Without(s, min, max)| <= |s| && NoneIn(Without(s, min, max), min, max)
    ensures NoneIn(s, min, max) <==> Without(s, min, max) == s
    ensures |Without(s, min, max)| == |s| ==> NoneIn(s, min, max)
  {
    if s != [] {
      hide Without, NoneIn, AllIn;
      var p, x := s[..|s| - 1], s[|s| - 1];
      WithoutOutside(p, min, max);
      assert s == p + [x];
      FilterSnoc(p, x, min, max);
      InSnoc(p, x, min, max);
      InSnoc(Without(p, min, max), x, min, max);
    }
  }

  lemma {:induction false} WithoutInside(s: seq<Value>, min: int, max: int)
    ensures Without(s, min, max) == [] <==> AllIn(s, min, max)
  {
    if s != [] {
      hide Without, AllIn, NoneIn;
      var p, x := s[..|s| - 1], s[|s| - 1];
      WithoutInside(p, min, max);
      assert s == p + [x];
      FilterSnoc(p, x, min, max);
      InSnoc(p, x, min, max);
    }
  }

  lemma {:induction false} ThreeParts(a: seq<Value>, lo: nat, hi: nat, min: int, max: int)
    requires lo <= hi <= |a|
    ensures Without(a, min, max) ==
            Without(a[..lo], min, max) + Without(a[lo..hi], min, max) + Without(a[hi..], min, max)
  {
    hide Without, Within;
    assert a == a[..lo] + a[lo..hi] + a[hi..];
    FilterAppend(a[..lo] + a[lo..hi], a[hi..], min, max);
    FilterAppend(a[..lo], a[lo..hi], min, max);
  }

  /** Cutting out a stretch removes the range and nothing else exactly if the stretch is the range. */
  lemma {:induction false} CutIsRange(a: seq<Value>, lo: nat, hi: nat, min: int, max: int)
    requires lo <= hi <= |a|
    ensures a[..lo] + a[hi..] == Without(a, min, max) <==> Stretches(a, lo, hi, min, max)
  {
    hide Without, InRange;
    var l, m, r := a[..lo], a[lo..hi], a[hi..];
    ThreeParts(a, lo, hi, min, max);
    WithoutOutside(l, min, max);
    WithoutOutside(r, min, max);
    WithoutInside(m, min, max);
    if Stretches(a, lo, hi, min, max) {
      assert forall i :: 0 <= i < |m| ==> m[i] == a[lo + i];
      assert forall i :: 0 <= i < |r| ==> r[i] == a[hi + i];
      assert Without(l, min, max) + [] == l;
    }
    if l + r == Without(a, min, max) {
      KeptOutside(a, lo, hi, min, max);
    }
  }

  lemma {:induction false} KeptOutside(a: seq<Value>, lo: nat, hi: nat, min: int, max: int)
    requires lo <= hi <= |a| && a[..lo] + a[hi..] == Without(a, min, max)
    ensures Stretches(a, lo, hi, min, max)
  {
    hide Without, InRange;
    var l, m, r := a[..lo], a[lo..hi], a[hi..];
    WithoutOutside(a, min, max);
    forall i | 0 <= i < |a| && !(lo <= i < hi) ensures !InRange(a[i], min, max) {
      var k := if i < lo then i else i - (hi - lo);
      assert (l + r)[k] == a[i];
    }
    ThreeParts(a, lo, hi, min, max);
    assert forall i :: 0 <= i < |r| ==> r[i] == a[hi + i];
    WithoutOutside(l, min, max);
    WithoutOutside(r, min, max);
    assert |Without(m, min, max)| == 0;
    WithoutInside(m, min, max);
    forall i | lo <= i < hi ensures InRange(a[i], min, max) {
      assert m[i - lo] == a[i];
    }
  }

  /** Behind a time from `max` on there is none stamped `max`. */
  ghost predicate NoneLate(a: seq<Value>, max: int) {
    forall i, j :: 0 <= i < j < |a| && max <= a[i].time ==> a[j].time != max
  }

  /** No two values are stamped `t`. */
  ghost predicate AtMostOnce(a: seq<Value>, t: int) {
    forall i, j :: 0 <= i < j < |a| ==> !(a[i].time == t && a[j].time == t)
  }

  lemma {:induction false} Stretch(a: seq<Value>, min: int, max: int)
    requires min <= max && Divides(a, min) && Divides(a, max)
    ensures Stretches(a, CutFrom(a, min, max), CutTo(a, min, max), min, max) <==> NoneLate(a, max)
  {
    hide Probe;
    if Misses(a, min, max) {
      MissedStretch(a, min, max);
    } else {
      ProbeSplits(a, min);
      ProbeSplits(a, max);
      SplitStretch(a, Probe(a, min, 0, |a|), Probe(a, max, 0, |a|), min, max);
    }
  }

  lemma {:induction false} MissedStretch(a: seq<Value>, min: int, max: int)
    requires min <= max && Divides(a, min) && Divides(a, max) && Misses(a, min, max)
    ensures Stretches(a, |a|, |a|, min, max) <==> NoneLate(a, max)
  {
    if a != [] && a[|a| - 1].time < min {
      assert forall i :: 0 <= i < |a| ==> a[i].time < min;
    } else if a != [] {
      assert forall i :: 0 < i < |a| ==> max <= a[i].time;
    }
  }

  /** The values behind the first one from `max` on that are stamped `max` stay. */
  lemma {:induction false} SplitStretch(a: seq<Value>, lo: nat, hi: nat, min: int, max: int)
    requires min <= max && lo <= |a| && hi <= |a|
    requires forall k :: 0 <= k < |a| ==> (k < lo <==> a[k].time < min) && (k < hi <==> a[k].time < max)
    ensures var end := if hi < |a| && a[hi].time == max then hi + 1 else hi;
            Stretches(a, lo, end, min, max) <==> NoneLate(a, max)
  {
    var end := if hi < |a| && a[hi].time == max then hi + 1 else hi;
    if Stretches(a, lo, end, min, max) {
      forall i, j | 0 <= i < j < |a| && max <= a[i].time ensures a[j].time != max {
        assert j >= end && !InRange(a[j], min, max);
      }
    }
    if NoneLate(a, max) {
      forall i | 0 <= i < |a| ensures InRange(a[i], min, max) <==> lo <= i < end {
        assert i > hi ==> max <= a[hi].time && a[i].time != max;
      }
    }
  }

  /**
   * For entries that both bounds divide: the delete removes the range and nothing else exactly if no value stamped
   * with its end comes behind a value from that end on.
   */
  lemma {:induction false} DividedExactly(a: seq<Value>, min: int, max: int)
    requires min <= max ==> Divides(a, min) && Divides(a, max)
    ensures Excluded(a, min, max) == Without(a, min, max) <==> min > max || NoneLate(a, max)
  {
    hide Without, CutFrom, CutTo, Stretches, NoneLate, Divides;
    if min <= max {
      Stretch(a, min, max);
      CutIsRange(a, CutFrom(a, min, max), CutTo(a, min, max), min, max);
    } else {
      NothingCut(a, min, max);
    }
  }

  lemma {:induction false} NothingCut(a: seq<Value>, min: int, max: int)
    requires min > max
    ensures Excluded(a, min, max) == Without(a, min, max) == a
  {
    hide Without, Within;
    FilterNone(a, min, max);
    assert a[..|a|] + a[|a|..] == a;
  }

  lemma {:induction false} SortedDivides(a: seq<Value>, t: int)
    requires Sorted(a)
    ensures Divides(a, t) && (NoneLate(a, t) <==> AtMostOnce(a, t))
  {
    if AtMostOnce(a, t) {
      forall i, j | 0 <= i < j < |a| && t <= a[i].time ensures a[j].time != t {
        assert a[i].time <= a[j].time;
      }
    }
  }

  /**
   * For entries in time order: exactly if at most one value is stamped with the end of the range. So it is of what
   * is read afterwards: a second value stamped with that end stays visible.
   */
  lemma {:induction false} SortedExactly(a: seq<Value>, min: int, max: int)
    requires Sorted(a)
    ensures Excluded(a, min, max) == Without(a, min, max) <==> min > max || AtMostOnce(a, max)
    ensures View(Excluded(a, min, max)) == View(Without(a, min, max)) <==> min > max || AtMostOnce(a, max)
  {
    hide Without, Excluded, View, Sorted, AtMostOnce, NoneLate, Divides;
    SortedDivides(a, min);
    SortedDivides(a, max);
    DividedExactly(a, min, max);
    if min <= max && !AtMostOnce(a, max) {
      SecondStays(a, min, max);
      ViewFilterAt(a, min, max, max);
    }
  }

  lemma {:induction false} SecondStays(a: seq<Value>, min: int, max: int)
    requires Sorted(a) && min <= max && !AtMostOnce(a, max)
    ensures max in View(Excluded(a, min, max))
  {
    hide View, CutFrom, CutTo;
    var i, j :| 0 <= i < j < |a| && a[i].time == max && a[j].time == max;
    CutBefore(a, min, max, i);
    var lo, hi, left := CutFrom(a, min, max), CutTo(a, min, max), Excluded(a, min, max);
    assert left[lo + (j - hi)] == a[j];
    ViewKeys(left, max);
  }

  lemma {:induction false} CutBefore(a: seq<Value>, min: int, max: int, i: nat)
    requires Sorted(a) && min <= max && i < |a| && a[i].time == max
    ensures CutTo(a, min, max) <= i + 1
  {
    hide Probe, Sorted, Divides;
    SortedDivides(a, max);
    ProbeSplits(a, max);
    assert !Misses(a, min, max) by { SortedMeets(a, min, max, i); }
  }

  lemma {:induction false} SortedMeets(a: seq<Value>, min: int, max: int, i: nat)
    requires Sorted(a) && i < |a| && InRange(a[i], min, max)
    ensures !Misses(a, min, max)
  {
    assert a[0].time <= a[i].time <= a[|a| - 1].time;
  }

  /** In whatever order: the values of the range must lie side by side. */
  lemma {:induction false} SideBySide(a: seq<Value>, min: int, max: int, i: nat, j: nat, k: nat)
    requires Excluded(a, min, max) == Without(a, min, max)
    requires i < j < k < |a| && InRange(a[i], min, max) && InRange(a[k], min, max)
    ensures InRange(a[j], min, max)
  {
    hide Without, CutFrom, CutTo, InRange;
    CutIsRange(a, CutFrom(a, min, max), CutTo(a, min, max), min, max);
  }

  /** Sorted and deduplicated entries, as every read leaves them, lose the range and nothing else. */
  lemma {:induction false} AscendingCuts(a: seq<Value>, min: int, max: int)
    requires Ascending(a)
    ensures Sorted(a) && AtMostOnce(a, max)
    ensures Excluded(a, min, max) == Without(a, min, max) && Ascending(Excluded(a, min, max))
  {
    hide Without, Excluded;
    SortedExactly(a, min, max);
    WithoutAscending(a, min, max);
  }

  /** Then what is read of the entry is what was there, outside the range. */
  lemma {:induction false} RangeGone(a: seq<Value>, min: int, max: int, t: int)
    requires Sorted(a) && (min > max || AtMostOnce(a, max))
    ensures t in View(Excluded(a, min, max)) <==> t in View(a) && !(min <= t <= max)
    ensures t in View(Excluded(a, min, max)) ==> View(Excluded(a, min, max))[t] == View(a)[t]
  {
    hide View, Without, Within, Excluded, Sorted, AtMostOnce;
    SortedExactly(a, min, max);
    ViewFilterAt(a, min, max, t);
  }

  /** Out of order, a value of the range survives: by its ends the list seems to lie behind or before the range. */
  lemma {:induction false} SurvivesUnordered()
    ensures var a := [Value(5, 0), Value(1, 0)];
            !Sorted(a) && !Divides(a, 2) && Excluded(a, 1, 2) == a && 1 in View(Excluded(a, 1, 2))
    ensures var b := [Value(1, 0), Value(5, 0), Value(2, 0)];
            !Divides(b, 4) && Excluded(b, 4, 6) == b && 5 in View(Excluded(b, 4, 6))
  {
    var b := [Value(1, 0), Value(5, 0), Value(2, 0)];
    assert Misses(b, 4, 6) && b[1].time == 5 && b[2].time == 2;
    assert Excluded(b, 4, 6) == b;
    ViewKeys(b, 5);
    var a := [Value(5, 0), Value(1, 0)];
    assert Misses(a, 1, 2);
    assert Excluded(a, 1, 2) == a;
    ViewKeys(a, 1);
    assert a[0].time == 5 && a[1].time == 1;
  }

  /** In order, but with the end of the range written twice, one of the two survives. */
  lemma {:induction false} SurvivesTwice()
    ensures var a := [Value(1, 0), Value(1, 1)];
            Sorted(a) && !AtMostOnce(a, 1) && Excluded(a, 0, 1) != Without(a, 0, 1) && 1 in View(Excluded(a, 0, 1))
  {
    hide Without, Excluded, View;
    var a := [Value(1, 0), Value(1, 1)];
    assert a[0].time == 1 && a[1].time == 1;
    SortedExactly(a, 0, 1);
    SecondStays(a, 0, 1);
  }

  // ---------------------------------------------------------------- the store

  predicate Everything(min: int, max: int) {
    min == MIN_TIME && max == MAX_TIME
  }

  /** What a delete leaves of one key. */
  ghost function DeletedOne(store: map<Key, Entry>, k: Key, min: int, max: int): map<Key, Entry> {
    if k !in store then store
    else var left := Excluded(store[k].values, min, max);
         if Everything(min, max) || left == [] then store - {k} else store[k := Entry(left, store[k].vtype)]
  }

  ghost function Deleted(store: map<Key, Entry>, keys: seq<Key>, min: int, max: int): map<Key, Entry> {
    if keys == [] then store else DeletedOne(Deleted(store, keys[..|keys| - 1], min, max), keys[|keys| - 1], min, max)
  }

  lemma {:induction false} DeletedSnoc(store: map<Key, Entry>, keys: seq<Key>, k: Key, min: int, max: int)
    ensures Deleted(store, keys + [k], min, max) == DeletedOne(Deleted(store, keys, min, max), k, min, max)
  {
    assert (keys + [k])[..|keys|] == keys;
  }

  /** A delete of all times drops the keys. */
  lemma {:induction false} DeletedWhole(store: map<Key, Entry>, keys: seq<Key>)
    ensures Deleted(store, keys, MIN_TIME, MAX_TIME) == store - (set i | 0 <= i < |keys| :: keys[i])
  {
    hide Excluded;
    if keys != [] {
      var p, k := keys[..|keys| - 1], keys[|keys| - 1];
      DeletedWhole(store, p);
      assert (set i | 0 <= i < |keys| :: keys[i]) == (set i | 0 <= i < |p| :: p[i]) + {k};
    }
  }

  /** Keys that are not named stay as they are. */
  lemma {:induction false} DeletedOthers(store: map<Key, Entry>, keys: seq<Key>, min: int, max: int, k: Key)
    requires k !in keys
    ensures k in Deleted(store, keys, min, max) <==> k in store
    ensures k in store ==> Deleted(store, keys, min, max)[k] == store[k]
  {
    hide Excluded;
    if keys != [] {
      DeletedOthers(store, keys[..|keys| - 1], min, max, k);
    }
  }

  /**
   * Of a named key whose entry is in time order, with the end of the range stamped at most once, exactly the values
   * outside the range are left, and the key only if there are any.
   */
  lemma {:induction false} DeletedNamed(store: map<Key, Entry>, keys: seq<Key>, min: int, max: int, k: Key)
    requires k in keys && k in store && !Everything(min, max)
    requires Sorted(store[k].values) && (min > max || AtMostOnce(store[k].values, max))
    ensures var left := Without(store[k].values, min, max);
            if left == [] then k !in Deleted(store, keys, min, max)
            else k in Deleted(store, keys, min, max) && Deleted(store, keys, min, max)[k] == Entry(left, store[k].vtype)
  {
    hide Without, Excluded, Sorted, AtMostOnce;
    var p, x := keys[..|keys| - 1], keys[|keys| - 1];
    if k in p {
      DeletedNamed(store, p, min, max, k);
      Twice(store[k].values, min, max);
    } else {
      DeletedOthers(store, p, min, max, k);
      SortedExactly(store[k].values, min, max);
    }
  }

  lemma {:induction false} Twice(a: seq<Value>, min: int, max: int)
    requires Sorted(a) && (min > max || AtMostOnce(a, max))
    ensures Excluded(Without(a, min, max), min, max) == Without(a, min, max)
  {
    hide Without, Excluded, Sorted, AtMostOnce;
    var b := Without(a, min, max);
    SortedExactly(a, min, max);
    ExcludedSorted(a, min, max);
    SortedExactly(b, min, max);
    WithoutOutside(a, min, max);
    WithoutOutside(b, min, max);
    NoneAtEnd(b, min, max);
  }

  lemma {:induction false} ExcludedSorted(a: seq<Value>, min: int, max: int)
    requires Sorted(a)
    ensures Sorted(Excluded(a, min, max))
  {
    hide CutFrom, CutTo;
    var lo, hi, left := CutFrom(a, min, max), CutTo(a, min, max), Excluded(a, min, max);
    assert forall i :: 0 <= i < |left| ==> left[i] == if i < lo then a[i] else a[i + (hi - lo)];
  }

  lemma {:induction false} NoneAtEnd(b: seq<Value>, min: int, max: int)
    requires NoneIn(b, min, max)
    ensures min > max || AtMostOnce(b, max)
  {
    if min <= max {
      forall i, j | 0 <= i < j < |b| ensures !(b[i].time == max && b[j].time == max) {
        assert !InRange(b[i], min, max);
      }
    }
  }

  lemma {:induction false} ExcludedSize(a: seq<Value>, min: int, max: int, kinds: Kinds)
    ensures SizeOf(Excluded(a, min, max), kinds) <= SizeOf(a, kinds)
  {
    hide SizeOf, CutFrom, CutTo;
    var lo, hi := CutFrom(a, min, max), CutTo(a, min, max);
    assert a == a[..lo] + a[lo..hi] + a[hi..];
    SizeAppend(a[..lo] + a[lo..hi], a[hi..], kinds);
    SizeAppend(a[..lo], a[lo..hi], kinds);
    SizeAppend(a[..lo], a[hi..], kinds);
  }

  lemma {:induction false} ExcludedUniform(a: seq<Value>, min: int, max: int, tag: nat, kinds: Kinds)
    requires Uniform(a, tag, kinds)
    ensures Uniform(Excluded(a, min, max), tag, kinds)
  {
    hide CutFrom, CutTo;
  }

  /** The log of a store after a delete: the named keys start anew with what is left of them. */
  ghost predicate Relogged(log: map<Key, seq<Value>>, log': map<Key, seq<Value>>, store': map<Key, Entry>,
                           keys: seq<Key>)
  {
    && log'.Keys == store'.Keys
    && forall k :: k in log' ==> if k in keys then log'[k] == store'[k].values else k in log && log'[k] == log[k]
  }

  lemma {:induction false} ReloggedNone(log: map<Key, seq<Value>>, store: map<Key, Entry>, kinds: Kinds)
    requires AllHold(store, log, kinds)
    ensures Relogged(log, log, store, [])
  {
    hide Holds;
  }

  /** Deleting from one more key. */
  lemma {:induction false} ReloggedNext(log0: map<Key, seq<Value>>, log: map<Key, seq<Value>>, store: map<Key, Entry>,
                                        keys: seq<Key>, k: Key, min: int, max: int)
    requires Relogged(log0, log, store, keys)
    ensures var store' := DeletedOne(store, k, min, max);
            var log' := if k in store' then log[k := store'[k].values] else log - {k};
            Relogged(log0, log', store', keys + [k])
  {
    hide Excluded;
    assert forall x :: x in keys + [k] <==> x in keys || x == k;
  }

  /** What a delete from one key keeps of the store, and how many bytes it frees. */
  lemma {:induction false} DeleteHolds(store: map<Key, Entry>, log: map<Key, seq<Value>>, k: Key, min: int, max: int,
                                       kinds: Kinds)
    requires AllHold(store, log, kinds) && k in store
    ensures var left := Excluded(store[k].values, min, max);
            && AllHold(store - {k}, log - {k}, kinds)
            && (left != [] ==> AllHold(store[k := Entry(left, store[k].vtype)], log[k := left], kinds))
            && SizeOf(left, kinds) <= SizeOf(store[k].values, kinds)
            && Sum(store, Weight(kinds)) == Sum(store - {k}, Weight(kinds)) + |k| + SizeOf(store[k].values, kinds)
            && Sum(store[k := Entry(left, store[k].vtype)], Weight(kinds)) ==
               Sum(store - {k}, Weight(kinds)) + |k| + SizeOf(left, kinds)
  {
    hide Sum, SizeOf, View, Excluded, AllHold, Uniform;
    var left := Excluded(store[k].values, min, max);
    var e := Entry(left, store[k].vtype);
    HeldAt(store, log, k, kinds);
    ExcludedUniform(store[k].values, min, max, store[k].vtype, kinds);
    RemoveHolds(store, log, k, kinds);
    if left != [] {
      PutHolds(store, log, k, e, left, kinds);
    }
    ExcludedSize(store[k].values, min, max, kinds);
    SumPut(store, k, e, Weight(kinds));
  }
}
