/**
 Timestamped value lists and the algebra on them: stable de-duplication, inclusive
 time-range filters found by binary search, and the overlay merge. A list means the
 map it denotes when later entries overwrite earlier ones (`View`).
 */
module Values {
  import opened Sequences

  // The bounds of 64-bit times.
  const MIN_TIME := -0x8000_0000_0000_0000
  const MAX_TIME := 0x7fff_ffff_ffff_ffff

  datatype Value = Value(time: int, payload: int)

  /** Strictly ascending in time: sorted and free of duplicates. */
  ghost predicate Ascending(s: seq<Value>) {
    forall i, j :: 0 <= i < j < |s| ==> s[i].time < s[j].time
  }

  /** Every value of `a` is earlier than every value of `b`. */
  ghost predicate Before(a: seq<Value>, b: seq<Value>) {
    forall i, j :: 0 <= i < |a| && 0 <= j < |b| ==> a[i].time < b[j].time
  }

  /** Sorted in time, duplicates allowed. */
  ghost predicate Sorted(s: seq<Value>) {
    forall i, j :: 0 <= i < j < |s| ==> s[i].time <= s[j].time
  }

  /** The last-write-wins meaning of a list. */
  ghost function View(s: seq<Value>): map<int, int> {
    if s == [] then map[] else View(s[..|s| - 1])[s[|s| - 1].time := s[|s| - 1].payload]
  }

  /** The sub-list of values stamped `t`, in order. */
  ghost function AtTime(s: seq<Value>, t: int): seq<Value> {
    if s == [] then []
    else AtTime(s[..|s| - 1], t) + (if s[|s| - 1].time == t then [s[|s| - 1]] else [])
  }

  /** The values stamped within [min, max], in order. */
  ghost function Within(s: seq<Value>, min: int, max: int): seq<Value> {
    if s == [] then []
    else Within(s[..|s| - 1], min, max) + (if min <= s[|s| - 1].time <= max then [s[|s| - 1]] else [])
  }

  /** The values stamped outside [min, max], in order. */
  ghost function Without(s: seq<Value>, min: int, max: int): seq<Value> {
    if s == [] then []
    else Without(s[..|s| - 1], min, max) + (if min <= s[|s| - 1].time <= max then [] else [s[|s| - 1]])
  }

  // ---------------------------------------------------------------- View

  lemma {:induction false} ViewAppend(a: seq<Value>, b: seq<Value>)
    ensures View(a + b) == View(a) + View(b)
    decreases |b|
  {
    if b == [] {
      assert a + b == a;
    } else {
      ViewAppend(a, b[..|b| - 1]);
      assert (a + b)[..|a + b| - 1] == a + b[..|b| - 1];
    }
  }

  lemma {:induction false} ViewKeys(s: seq<Value>, t: int)
    ensures t in View(s) <==> exists i :: 0 <= i < |s| && s[i].time == t
  {
    if s != [] {
      ViewKeys(s[..|s| - 1], t);
      if t in View(s[..|s| - 1]) {
        var i :| 0 <= i < |s| - 1 && s[..|s| - 1][i].time == t;
        assert s[i].time == t;
      }
      if i :| 0 <= i < |s| && s[i].time == t {
        if i < |s| - 1 { assert s[..|s| - 1][i].time == t; }
      }
    }
  }

  lemma {:induction false} ViewAt(s: seq<Value>, i: nat)
    requires Ascending(s) && i < |s|
    ensures s[i].time in View(s) && View(s)[s[i].time] == s[i].payload
  {
    if i < |s| - 1 {
      ViewAt(s[..|s| - 1], i);
    }
  }

  /** The meaning of a list at `t` is fixed by the sub-list stamped `t`. */
  lemma {:induction false} ViewFromAtTime(s: seq<Value>, t: int)
    ensures t in View(s) <==> AtTime(s, t) != []
    ensures t in View(s) ==> View(s)[t] == AtTime(s, t)[|AtTime(s, t)| - 1].payload
  {
    if s != [] {
      ViewFromAtTime(s[..|s| - 1], t);
    }
  }

  /** The last value of an ascending list has its greatest time; the rest means the rest. */
  lemma {:induction false} LastOff(s: seq<Value>)
    requires Ascending(s) && s != []
    ensures var x, p := s[|s| - 1], s[..|s| - 1];
            && Ascending(p) && View(p) == View(s) - {x.time}
            && x.time in View(s) && View(s)[x.time] == x.payload
    ensures forall t :: t in View(s) ==> t <= s[|s| - 1].time
  {
    var x, p := s[|s| - 1], s[..|s| - 1];
    forall t | t in View(p) ensures t < x.time {
      ViewKeys(p, t);
      var i :| 0 <= i < |p| && p[i].time == t;
      assert p[i] == s[i];
    }
  }

  /** A strictly ascending list is determined by its meaning. */
  lemma {:induction false} AscendingUnique(a: seq<Value>, b: seq<Value>)
    requires Ascending(a) && Ascending(b) && View(a) == View(b)
    ensures a == b
  {
    hide View, Ascending;
    EmptyView();
    if b != [] {
      LastOff(b);
    }
    if a != [] {
      LastOff(a);
      var a', b' := a[..|a| - 1], b[..|b| - 1];
      AscendingUnique(a', b');
      assert a == a' + [a[|a| - 1]] && b == b' + [b[|b| - 1]];
    }
  }

  // ---------------------------------------------------------------- range filters

  lemma {:induction false} FilterSnoc(s: seq<Value>, x: Value, min: int, max: int)
    ensures Within(s + [x], min, max) == if min <= x.time <= max then Within(s, min, max) + [x] else Within(s, min, max)
    ensures Without(s + [x], min, max) ==
            if min <= x.time <= max then Without(s, min, max) else Without(s, min, max) + [x]
  {
    assert (s + [x])[..|s|] == s;
  }

  lemma {:induction false} FilterAppend(a: seq<Value>, b: seq<Value>, min: int, max: int)
    ensures Within(a + b, min, max) == Within(a, min, max) + Within(b, min, max)
    ensures Without(a + b, min, max) == Without(a, min, max) + Without(b, min, max)
    decreases |b|
  {
    if b == [] {
      assert a + b == a;
    } else {
      hide Within, Without;
      var p, x := b[..|b| - 1], b[|b| - 1];
      FilterAppend(a, p, min, max);
      assert b == p + [x] && a + b == (a + p) + [x];
      FilterSnoc(p, x, min, max);
      FilterSnoc(a + p, x, min, max);
      Regrouped(Within(a, min, max), Within(p, min, max), [x]);
      Regrouped(Without(a, min, max), Without(p, min, max), [x]);
    }
  }

  lemma {:induction false} FilterAll(s: seq<Value>, min: int, max: int)
    requires forall i :: 0 <= i < |s| ==> min <= s[i].time <= max
    ensures Within(s, min, max) == s && Without(s, min, max) == []
  {
    if s != [] {
      hide Within, Without;
      var p, x := s[..|s| - 1], s[|s| - 1];
      assert s == p + [x];
      FilterAll(p, min, max);
      FilterSnoc(p, x, min, max);
    }
  }

  lemma {:induction false} FilterNone(s: seq<Value>, min: int, max: int)
    requires forall i :: 0 <= i < |s| ==> !(min <= s[i].time <= max)
    ensures Within(s, min, max) == [] && Without(s, min, max) == s
  {
    if s != [] {
      hide Within, Without;
      var p, x := s[..|s| - 1], s[|s| - 1];
      assert s == p + [x];
      FilterNone(p, min, max);
      FilterSnoc(p, x, min, max);
    }
  }

  /** When [lo, hi) are exactly the indices in range, the filters are slices. */
  lemma {:induction false} FilterSlices(s: seq<Value>, min: int, max: int, lo: nat, hi: nat)
    requires lo <= hi <= |s|
    requires forall i :: 0 <= i < lo ==> s[i].time < min
    requires forall i :: lo <= i < hi ==> min <= s[i].time <= max
    requires forall i :: hi <= i < |s| ==> max < s[i].time
    ensures Within(s, min, max) == s[lo..hi]
    ensures Without(s, min, max) == s[..lo] + s[hi..]
  {
    hide Within, Without;
    assert s == s[..lo] + s[lo..hi] + s[hi..];
    FilterAppend(s[..lo] + s[lo..hi], s[hi..], min, max);
    FilterAppend(s[..lo], s[lo..hi], min, max);
    FilterNone(s[..lo], min, max);
    FilterAll(s[lo..hi], min, max);
    FilterNone(s[hi..], min, max);
  }

  /** Filtering a list filters its meaning. */
  lemma {:induction false} ViewFilterAt(s: seq<Value>, min: int, max: int, t: int)
    ensures t in View(Within(s, min, max)) <==> t in View(s) && min <= t <= max
    ensures t in View(Without(s, min, max)) <==> t in View(s) && !(min <= t <= max)
    ensures t in View(s) ==>
            View(s)[t] == if min <= t <= max then View(Within(s, min, max))[t] else View(Without(s, min, max))[t]
  {
    if s != [] {
      hide View, Within, Without;
      var p, x := s[..|s| - 1], s[|s| - 1];
      ViewFilterAt(p, min, max, t);
      assert s == p + [x];
      FilterSnoc(p, x, min, max);
      SnocViewAt(p, x, t);
      SnocViewAt(Within(p, min, max), x, t);
      SnocViewAt(Without(p, min, max), x, t);
    }
  }

  lemma {:induction false} SnocViewAt(s: seq<Value>, x: Value, t: int)
    ensures t in View(s + [x]) <==> t in View(s) || t == x.time
    ensures t in View(s + [x]) ==> View(s + [x])[t] == if t == x.time then x.payload else View(s)[t]
  {
    hide View;
    SnocView(s, x);
  }

  lemma {:induction false} SnocView(s: seq<Value>, x: Value)
    ensures View(s + [x]) == View(s)[x.time := x.payload]
  {
    assert (s + [x])[..|s|] == s;
  }

  /** How many leading values are stamped at or before `f`. */
  ghost function Upto(s: seq<Value>, f: int): (n: nat)
    requires Ascending(s)
    ensures n <= |s|
    ensures forall i :: 0 <= i < n ==> s[i].time <= f
    ensures forall i :: n <= i < |s| ==> f < s[i].time
  {
    if s == [] || s[|s| - 1].time <= f then |s| else Upto(s[..|s| - 1], f)
  }

  lemma {:induction false} UptoAll(s: seq<Value>, f: int)
    requires Ascending(s) && (s == [] || s[|s| - 1].time <= f)
    ensures Upto(s, f) == |s|
  {
  }

  lemma {:induction false} UptoNone(s: seq<Value>, f: int)
    requires Ascending(s) && (s == [] || f < s[0].time)
    ensures Upto(s, f) == 0
  {
    hide Upto;
    assert s == [] || f < s[0].time;
  }

  lemma {:induction false} UptoMonotone(s: seq<Value>, f: int, g: int)
    requires Ascending(s) && f <= g
    ensures Upto(s, f) <= Upto(s, g)
  {
    if s != [] && g < s[|s| - 1].time {
      UptoMonotone(s[..|s| - 1], f, g);
    }
  }

  /** On an ascending list the range filters are slices. */
  lemma {:induction false} FilterAscending(s: seq<Value>, min: int, max: int)
    requires Ascending(s) && min <= max
    ensures Upto(s, min - 1) <= Upto(s, max)
    ensures Within(s, min, max) == s[Upto(s, min - 1)..Upto(s, max)]
    ensures Without(s, min, max) == s[..Upto(s, min - 1)] + s[Upto(s, max)..]
  {
    hide Within, Without, Upto;
    var lo, hi := Upto(s, min - 1), Upto(s, max);
    UptoMonotone(s, min - 1, max);
    FilterSlices(s, min, max, lo, hi);
  }

  lemma {:induction false} WithoutAscending(s: seq<Value>, min: int, max: int)
    requires Ascending(s)
    ensures Ascending(Without(s, min, max))
  {
    hide Without, Within, Upto;
    if min <= max {
      FilterAscending(s, min, max);
      var lo, hi := Upto(s, min - 1), Upto(s, max);
      assert forall i :: 0 <= i < |s| - (hi - lo) ==>
             Without(s, min, max)[i] == if i < lo then s[i] else s[i + (hi - lo)];
    } else {
      FilterNone(s, min, max);
    }
  }

  lemma {:induction false} WithinAscending(s: seq<Value>, min: int, max: int)
    requires Ascending(s)
    ensures Ascending(Within(s, min, max))
  {
    hide Within, Without, Upto;
    if min <= max {
      FilterAscending(s, min, max);
    } else {
      FilterNone(s, min, max);
    }
  }

  /** The position where `v` would be inserted, by binary search. */
  method Search(a: seq<Value>, v: int) returns (i: nat)
    requires Sorted(a)
    ensures i <= |a|
    ensures forall k :: 0 <= k < i ==> a[k].time < v
    ensures forall k :: i <= k < |a| ==> v <= a[k].time
  {
    var lo, hi := 0, |a|;
    while lo < hi
      invariant 0 <= lo <= hi <= |a|
      invariant forall k :: 0 <= k < lo ==> a[k].time < v
      invariant forall k :: hi <= k < |a| ==> v <= a[k].time
    {
      var mid := (lo + hi) / 2;
      if a[mid].time < v {
        lo := mid + 1;
      } else {
        hi := mid;
      }
    }
    return lo;
  }

  /** Insertion positions of both bounds, or (-1, -1) when the list misses [min, max]. */
  method FindRange(a: seq<Value>, min: int, max: int) returns (rmin: int, rmax: int)
    requires Ascending(a)
    ensures (rmin, rmax) == (-1, -1) || 0 <= rmin <= rmax <= |a|
    ensures rmin == -1 <==> a == [] || min > max || a[|a| - 1].time < min || a[0].time > max
    ensures rmin == -1 ==> forall i :: 0 <= i < |a| ==> !(min <= a[i].time <= max)
    ensures rmin >= 0 ==> forall i :: 0 <= i < |a| ==>
            (i < rmin <==> a[i].time < min) && (i < rmax <==> a[i].time < max)
  {
    if |a| == 0 || min > max {
      return -1, -1;
    }
    if a[|a| - 1].time < min || a[0].time > max {
      return -1, -1;
    }
    rmin := Search(a, min);
    rmax := Search(a, max);
    if rmin > rmax {
      assert a[rmax].time < min;
    }
  }

  /** The built-in copy from `a[src..]` to `a[dst..]`, which may overlap. */
  method Copy(a: array<Value>, dst: nat, src: nat, count: nat)
    requires dst + count <= a.Length && src + count <= a.Length
    modifies a
    ensures a[..dst] == old(a[..dst])
    ensures a[dst..dst + count] == old(a[src..src + count])
  {
    forall i | 0 <= i < count {
      a[dst + i] := a[src + i];
    }
  }

  /** The slice of an ascending list that a range covers, as FindRange and its callers compute it. */
  method RangeSlice(s: seq<Value>, min: int, max: int) returns (found: bool, lo: nat, hi: nat)
    requires Ascending(s)
    ensures !found ==> Within(s, min, max) == [] && Without(s, min, max) == s
    ensures found ==> lo <= hi <= |s| && Within(s, min, max) == s[lo..hi] && Without(s, min, max) == s[..lo] + s[hi..]
  {
    var rmin, rmax := FindRange(s, min, max);
    if rmin == -1 && rmax == -1 {
      FilterNone(s, min, max);
      return false, 0, 0;
    }
    if rmax < |s| && s[rmax].time == max {
      rmax := rmax + 1;
    }
    FilterSlices(s, min, max, rmin, rmax);
    return true, rmin, rmax;
  }

  /** Keeps, in place, the values of `a[..n]` outside [min, max]. */
  method Exclude(a: array<Value>, n: nat, min: int, max: int) returns (m: nat)
    requires n <= a.Length && Ascending(a[..n])
    modifies a
    ensures m <= n
    ensures a[..m] == Without(old(a[..n]), min, max)
  {
    hide Within, Without, Ascending;
    ghost var s := a[..n];
    var found, rmin, rmax := RangeSlice(a[..n], min, max);
    if !found {
      return n;
    }
    if rmax < n {
      var rest := n - rmax;
      Copy(a, rmin, rmax, rest);
      assert a[..rmin + rest] == a[..rmin] + a[rmin..rmin + rest];
      assert s[..rmin] == old(a[..rmin]) && s[rmax..] == old(a[rmax..rmax + rest]);
      return rmin + rest;
    }
    assert a[..rmin] == s[..rmin] + s[rmax..];
    return rmin;
  }

  /** Keeps, in place, the values of `a[..n]` inside [min, max]. */
  method Include(a: array<Value>, n: nat, min: int, max: int) returns (m: nat)
    requires n <= a.Length && Ascending(a[..n])
    modifies a
    ensures m <= n
    ensures a[..m] == Within(old(a[..n]), min, max)
  {
    hide Within, Without, Ascending;
    ghost var s := a[..n];
    var found, rmin, rmax := RangeSlice(a[..n], min, max);
    if !found {
      return 0;
    }
    Copy(a, 0, rmin, rmax - rmin);
    assert s[rmin..rmax] == old(a[rmin..rmax]);
    assert a[..rmax - rmin] == a[0..0 + (rmax - rmin)];
    return rmax - rmin;
  }

  // ---------------------------------------------------------------- de-duplication

  /** Inserts `v` behind every value that is not later than it. */
  function InsertStable(s: seq<Value>, v: Value): seq<Value> {
    if s == [] || s[|s| - 1].time <= v.time then s + [v]
    else InsertStable(s[..|s| - 1], v) + [s[|s| - 1]]
  }

  function StableSorted(s: seq<Value>): seq<Value> {
    if s == [] then [] else InsertStable(StableSorted(s[..|s| - 1]), s[|s| - 1])
  }

  lemma {:induction false} AtTimeSnoc(s: seq<Value>, x: Value, t: int)
    ensures AtTime(s + [x], t) == AtTime(s, t) + (if x.time == t then [x] else [])
  {
    assert (s + [x])[..|s|] == s;
  }

  lemma {:induction false} InsertStableKeeps(s: seq<Value>, v: Value)
    requires Sorted(s)
    ensures |InsertStable(s, v)| == |s| + 1
    ensures Sorted(InsertStable(s, v))
    ensures var t := InsertStable(s, v)[|s|].time; t == v.time || (s != [] && t == s[|s| - 1].time)
  {
    if s != [] && s[|s| - 1].time > v.time {
      var p, x := s[..|s| - 1], s[|s| - 1];
      InsertStableKeeps(p, v);
      var r := InsertStable(p, v);
      assert r[|p|].time <= x.time;
      assert forall i :: 0 <= i < |r| ==> r[i].time <= r[|p|].time;
    }
  }

  lemma {:induction false} InsertStableAt(s: seq<Value>, v: Value, t: int)
    ensures AtTime(InsertStable(s, v), t) == AtTime(s, t) + (if v.time == t then [v] else [])
  {
    hide AtTime;
    if s == [] || s[|s| - 1].time <= v.time {
      AtTimeSnoc(s, v, t);
    } else {
      var p, x := s[..|s| - 1], s[|s| - 1];
      InsertStableAt(p, v, t);
      AtTimeSnoc(InsertStable(p, v), x, t);
      AtTimeSnoc(p, x, t);
      assert s == p + [x];
    }
  }

  lemma {:induction false} StableSortedKeeps(s: seq<Value>)
    ensures |StableSorted(s)| == |s| && Sorted(StableSorted(s))
  {
    if s != [] {
      StableSortedKeeps(s[..|s| - 1]);
      InsertStableKeeps(StableSorted(s[..|s| - 1]), s[|s| - 1]);
    }
  }

  lemma {:induction false} StableSortedAt(s: seq<Value>, t: int)
    ensures AtTime(StableSorted(s), t) == AtTime(s, t)
  {
    if s != [] {
      hide AtTime, InsertStable, StableSorted;
      var p, x := s[..|s| - 1], s[|s| - 1];
      assert s == p + [x];
      StableSortedAt(p, t);
      StableSortedSnoc(p, x);
      InsertStableAt(StableSorted(p), x, t);
      AtTimeSnoc(p, x, t);
    }
  }

  lemma {:induction false} StableSortedSnoc(s: seq<Value>, x: Value)
    ensures StableSorted(s + [x]) == InsertStable(StableSorted(s), x)
  {
    hide InsertStable;
    assert (s + [x])[..|s|] == s;
  }

  /** The library's stable sort: sorted in time, equal timestamps keep their order. */
  method SortStable(a: array<Value>, n: nat)
    requires n <= a.Length
    modifies a
    ensures Sorted(a[..n])
    ensures forall t :: AtTime(a[..n], t) == AtTime(old(a[..n]), t)
  {
    var s := StableSorted(a[..n]);
    StableSortedKeeps(a[..n]);
    forall t ensures AtTime(s, t) == AtTime(a[..n], t) { StableSortedAt(a[..n], t); }
    forall i | 0 <= i < n {
      a[i] := s[i];
    }
    assert a[..n] == s;
  }

  lemma {:induction false} ViewStableAt(a: seq<Value>, b: seq<Value>, t: int)
    requires AtTime(a, t) == AtTime(b, t)
    ensures t in View(a) <==> t in View(b)
    ensures t in View(a) ==> View(a)[t] == View(b)[t]
  {
    ViewFromAtTime(a, t);
    ViewFromAtTime(b, t);
  }

  lemma {:induction false} ViewStable(a: seq<Value>, b: seq<Value>)
    requires forall t :: AtTime(a, t) == AtTime(b, t)
    ensures View(a) == View(b)
  {
    hide View, AtTime;
    forall t ensures t in View(a) <==> t in View(b)
             ensures t in View(a) ==> View(a)[t] == View(b)[t] {
      ViewStableAt(a, b, t);
    }
  }

  lemma {:induction false} AdjacentAscending(s: seq<Value>)
    requires forall i :: 0 <= i < |s| - 1 ==> s[i].time < s[i + 1].time
    ensures Ascending(s)
  {
    if |s| > 1 {
      var n := |s| - 1;
      AdjacentAscending(s[..n]);
      assert s[n - 1].time < s[n - 1 + 1].time;
      assert forall i :: 0 <= i < n ==> s[..n][i] == s[i] && s[i].time <= s[n - 1].time;
    }
  }

  /** Sorts `a[..n]` and keeps, for each timestamp, the value that came last. */
  method Deduplicate(a: array<Value>, n: nat) returns (m: nat)
    requires n <= a.Length
    modifies a
    ensures m <= n && (m == 0 <==> n == 0)
    ensures Ascending(a[..m])
    ensures View(a[..m]) == View(old(a[..n]))
  {
    if n <= 1 {
      return n;
    }
    var needSort := false;
    var k := 1;
    while k < n && !needSort
      invariant 1 <= k <= n
      invariant needSort || forall i :: 0 <= i < k - 1 ==> a[i].time < a[i + 1].time
    {
      needSort := a[k - 1].time >= a[k].time;
      k := k + 1;
    }
    if !needSort {
      AdjacentAscending(a[..n]);
      return n;
    }

    SortStable(a, n);
    ViewStable(a[..n], old(a[..n]));
    m := KeepLast(a, n);
  }

  /** Overwrites each run of equal timestamps by its last value. */
  method KeepLast(a: array<Value>, n: nat) returns (m: nat)
    requires 0 < n <= a.Length && Sorted(a[..n])
    modifies a
    ensures 0 < m <= n
    ensures Ascending(a[..m])
    ensures View(a[..m]) == View(old(a[..n]))
  {
    hide *;
    ghost var s := a[..n];
    var i, j := 0, 1;
    FirstKept(s);
    assert a[..1] == s[..1];
    while j < n
      invariant 0 <= i < j <= n
      invariant forall k :: j <= k < n ==> a[k] == s[k]
      invariant Kept(s, j, a[..i + 1])
    {
      var v := a[j];
      ghost var kept := a[..i + 1];
      NextKept(s, j, kept);
      if v.time != a[i].time {
        i := i + 1;
        a[i] := v;
        assert a[..i + 1] == kept + [v];
      } else {
        a[i] := v;
        assert a[..i + 1] == kept[..i] + [v];
      }
      j := j + 1;
    }
    assert s[..n] == s;
    KeptMeaning(s, n, a[..i + 1]);
    return i + 1;
  }

  /** `kept` is the de-duplicated form of the first `j` values of the sorted list `s`. */
  ghost predicate Kept(s: seq<Value>, j: nat, kept: seq<Value>) {
    && 0 < j <= |s| && Sorted(s)
    && kept != [] && Ascending(kept) && kept[|kept| - 1].time == s[j - 1].time
    && View(kept) == View(s[..j])
  }

  lemma {:induction false} FirstKept(s: seq<Value>)
    requires s != [] && Sorted(s)
    ensures Kept(s, 1, s[..1])
  {
  }

  lemma {:induction false} KeptMeaning(s: seq<Value>, j: nat, kept: seq<Value>)
    requires Kept(s, j, kept)
    ensures Ascending(kept) && View(kept) == View(s[..j])
  {
  }

  lemma {:induction false} NextKept(s: seq<Value>, j: nat, kept: seq<Value>)
    requires Kept(s, j, kept) && j < |s|
    ensures kept != []
    ensures Kept(s, j + 1, (if s[j].time != kept[|kept| - 1].time then kept else kept[..|kept| - 1]) + [s[j]])
  {
    hide View;
    var v, p, x := s[j], kept[..|kept| - 1], kept[|kept| - 1];
    assert s[..j + 1] == s[..j] + [v] && kept == p + [x];
    SnocView(s[..j], v);
    SnocView(kept, v);
    SnocView(p, v);
    SnocView(p, x);
    assert s[j - 1].time <= v.time;
  }

  // ---------------------------------------------------------------- overlay

  /** A copy of `s` with de-duplicated contents. */
  method Deduplicated(s: seq<Value>) returns (d: seq<Value>)
    ensures Ascending(d) && View(d) == View(s)
    ensures d == [] <==> s == []
  {
    var a := new Value[|s|](i requires 0 <= i < |s| => s[i]);
    assert a[..] == s && a[..|s|] == s;
    var m := Deduplicate(a, |s|);
    d := a[..m];
  }

  /** Overlays `b` on `a`: the result means both, with `b` winning. */
  method Merge(a: seq<Value>, b: seq<Value>) returns (out: seq<Value>)
    ensures View(out) == View(a) + View(b)
    ensures Ascending(out) <==> (a != [] && b != []) || Ascending(a + b)
  {
    hide View;
    EmptyView();
    if |a| == 0 {
      assert a + b == b;
      return b;
    }
    if |b| == 0 {
      assert a + b == a;
      return a;
    }
    var x := Deduplicated(a);
    var y := Deduplicated(b);
    if x[|x| - 1].time < y[0].time {
      ViewAppend(x, y);
      return x + y;
    }
    if y[|y| - 1].time < x[0].time {
      ViewAppend(y, x);
      ViewDisjoint(y, x);
      return y + x;
    }
    out := Overlay(x, y);
  }

  /** The two-finger loop of Merge on ascending lists. */
  method Overlay(a: seq<Value>, b: seq<Value>) returns (out: seq<Value>)
    requires Ascending(a) && Ascending(b)
    ensures Ascending(out)
    ensures View(out) == View(a) + View(b)
  {
    hide *;
    var x, y := a, b;
    out := [];
    StartOverlay(a, b);
    while |x| > 0 && |y| > 0
      invariant Overlaying(out, x, y, View(a) + View(b))
      decreases |x| + |y|
    {
      NextOverlay(out, x, y, View(a) + View(b));
      if x[0].time < y[0].time {
        out, x := out + [x[0]], x[1..];
      } else if x[0].time == y[0].time {
        x := x[1..];
      } else {
        out, y := out + [y[0]], y[1..];
      }
    }
    EndOverlay(out, x, y, View(a) + View(b));
    out := if |x| > 0 then out + x else out + y;
  }

  /** `out` is done, and with what is left of both lists it means `all`. */
  ghost predicate Overlaying(out: seq<Value>, x: seq<Value>, y: seq<Value>, all: map<int, int>) {
    && Ascending(x) && Ascending(y) && Ascending(out) && Before(out, x) && Before(out, y)
    && View(out) + View(x) + View(y) == all
  }

  lemma {:induction false} StartOverlay(a: seq<Value>, b: seq<Value>)
    requires Ascending(a) && Ascending(b)
    ensures Overlaying([], a, b, View(a) + View(b))
  {
    hide View;
    EmptyView();
  }

  lemma {:induction false} NextOverlay(out: seq<Value>, x: seq<Value>, y: seq<Value>, all: map<int, int>)
    requires x != [] && y != [] && Overlaying(out, x, y, all)
    ensures x[0].time < y[0].time ==> Overlaying(out + [x[0]], x[1..], y, all)
    ensures x[0].time == y[0].time ==> Overlaying(out, x[1..], y, all)
    ensures x[0].time > y[0].time ==> Overlaying(out + [y[0]], x, y[1..], all)
  {
    hide View;
    if x[0].time < y[0].time {
      TakeLeft(out, x, y);
    } else if x[0].time == y[0].time {
      DropLeft(out, x, y);
    } else {
      TakeRight(out, x, y);
    }
  }

  lemma {:induction false} EndOverlay(out: seq<Value>, x: seq<Value>, y: seq<Value>, all: map<int, int>)
    requires Overlaying(out, x, y, all) && (x == [] || y == [])
    ensures var r := if |x| > 0 then out + x else out + y;
            Ascending(r) && View(r) == all
  {
    hide View;
    EmptyView();
    ViewAppend(out, x);
    ViewAppend(out, y);
  }

  lemma {:induction false} EmptyView()
    ensures View([]) == map[]
  {
  }

  lemma {:induction false} TakeLeft(out: seq<Value>, x: seq<Value>, y: seq<Value>)
    requires Ascending(x) && Ascending(y) && x != []
    requires forall j :: 0 <= j < |y| ==> x[0].time < y[j].time
    ensures View(out + [x[0]]) + View(x[1..]) + View(y) == View(out) + View(x) + View(y)
  {
    hide View;
    HeadView(x);
    SnocView(out, x[0]);
    ViewKeys(y, x[0].time);
  }

  lemma {:induction false} DropLeft(out: seq<Value>, x: seq<Value>, y: seq<Value>)
    requires Ascending(x) && Ascending(y) && x != [] && y != [] && x[0].time == y[0].time
    ensures View(out) + View(x[1..]) + View(y) == View(out) + View(x) + View(y)
  {
    hide View;
    HeadView(x);
    HeadView(y);
  }

  lemma {:induction false} TakeRight(out: seq<Value>, x: seq<Value>, y: seq<Value>)
    requires Ascending(x) && Ascending(y) && y != []
    requires forall j :: 0 <= j < |x| ==> y[0].time < x[j].time
    ensures View(out + [y[0]]) + View(x) + View(y[1..]) == View(out) + View(x) + View(y)
  {
    hide View;
    HeadView(y);
    SnocView(out, y[0]);
    ViewKeys(x, y[0].time);
  }

  /** Taking the head off an ascending list takes its one entry off the meaning. */
  lemma {:induction false} HeadView(s: seq<Value>)
    requires Ascending(s) && s != []
    ensures View([s[0]]) == map[s[0].time := s[0].payload]
    ensures View(s) == View(s[1..])[s[0].time := s[0].payload]
    ensures s[0].time !in View(s[1..])
  {
    assert [s[0]][..0] == [];
    assert s == [s[0]] + s[1..];
    ViewAppend([s[0]], s[1..]);
    ViewKeys(s[1..], s[0].time);
  }

  lemma {:induction false} ViewDisjoint(a: seq<Value>, b: seq<Value>)
    requires Before(a, b)
    ensures View(a) + View(b) == View(b) + View(a)
  {
    forall t | t in View(a) ensures t !in View(b) {
      ViewKeys(a, t);
      ViewKeys(b, t);
    }
  }
}
