/** Merging cached values over stored ones in either direction, as the batch cursors promise it. */
module Merging {
  import opened Sequences
  import opened Values

  /** `a` comes strictly before `b` in the direction of the cursor. */
  predicate Precedes(asc: bool, a: int, b: int) {
    if asc then a < b else b < a
  }

  ghost predicate Ordered(asc: bool, s: seq<Value>) {
    forall i, j :: 0 <= i < j < |s| ==> Precedes(asc, s[i].time, s[j].time)
  }

  /** Every value of `s` comes after `t`. */
  ghost predicate After(asc: bool, t: int, s: seq<Value>) {
    forall i :: 0 <= i < |s| ==> Precedes(asc, t, s[i].time)
  }

  /** The ordered merge of cached and stored values, the cache winning ties. */
  ghost function Merged(asc: bool, c: seq<Value>, t: seq<Value>): seq<Value>
    decreases |c| + |t|
  {
    if c == [] then t
    else if t == [] then c
    else if c[0].time == t[0].time then [c[0]] + Merged(asc, c[1..], t[1..])
    else if Precedes(asc, c[0].time, t[0].time) then [c[0]] + Merged(asc, c[1..], t)
    else [t[0]] + Merged(asc, c, t[1..])
  }

  lemma {:induction false} OrderedTail(asc: bool, s: seq<Value>)
    requires s != [] && Ordered(asc, s)
    ensures Ordered(asc, s[1..]) && After(asc, s[0].time, s[1..])
  {
  }

  lemma {:induction false} OrderedCons(asc: bool, x: Value, s: seq<Value>)
    requires Ordered(asc, s) && After(asc, x.time, s)
    ensures Ordered(asc, [x] + s)
  {
  }

  lemma {:induction false} AfterCons(asc: bool, t: int, x: Value, s: seq<Value>)
    requires Precedes(asc, t, x.time) && After(asc, t, s)
    ensures After(asc, t, [x] + s)
  {
  }

  lemma {:induction false} AfterHead(asc: bool, t: int, s: seq<Value>)
    requires s != [] && After(asc, t, s)
    ensures Precedes(asc, t, s[0].time) && After(asc, t, s[1..])
  {
  }

  /** A merge of values behind `x` stays behind `x`. */
  lemma {:induction false} MergedAfter(asc: bool, x: int, c: seq<Value>, t: seq<Value>)
    requires After(asc, x, c) && After(asc, x, t)
    ensures After(asc, x, Merged(asc, c, t))
    decreases |c| + |t|
  {
    hide After;
    if c != [] && t != [] {
      AfterHead(asc, x, c);
      AfterHead(asc, x, t);
      if c[0].time == t[0].time {
        MergedAfter(asc, x, c[1..], t[1..]);
        AfterCons(asc, x, c[0], Merged(asc, c[1..], t[1..]));
      } else if Precedes(asc, c[0].time, t[0].time) {
        MergedAfter(asc, x, c[1..], t);
        AfterCons(asc, x, c[0], Merged(asc, c[1..], t));
      } else {
        MergedAfter(asc, x, c, t[1..]);
        AfterCons(asc, x, t[0], Merged(asc, c, t[1..]));
      }
    }
  }

  /** The whole of an ordered list comes no earlier than its head. */
  lemma {:induction false} AllAfter(asc: bool, x: int, s: seq<Value>)
    requires Ordered(asc, s) && s != [] && Precedes(asc, x, s[0].time)
    ensures After(asc, x, s)
  {
  }

  /** The merge is strictly ordered. */
  lemma {:induction false} MergedOrdered(asc: bool, c: seq<Value>, t: seq<Value>)
    requires Ordered(asc, c) && Ordered(asc, t)
    ensures Ordered(asc, Merged(asc, c, t))
    decreases |c| + |t|
  {
    hide Ordered, After;
    if c != [] && t != [] {
      OrderedTail(asc, c);
      OrderedTail(asc, t);
      if c[0].time == t[0].time {
        MergedOrdered(asc, c[1..], t[1..]);
        MergedAfter(asc, c[0].time, c[1..], t[1..]);
        OrderedCons(asc, c[0], Merged(asc, c[1..], t[1..]));
      } else if Precedes(asc, c[0].time, t[0].time) {
        MergedOrdered(asc, c[1..], t);
        AllAfter(asc, c[0].time, t);
        MergedAfter(asc, c[0].time, c[1..], t);
        OrderedCons(asc, c[0], Merged(asc, c[1..], t));
      } else {
        MergedOrdered(asc, c, t[1..]);
        AllAfter(asc, t[0].time, c);
        MergedAfter(asc, t[0].time, c, t[1..]);
        OrderedCons(asc, t[0], Merged(asc, c, t[1..]));
      }
    }
  }

  lemma {:induction false} ConsView(asc: bool, x: Value, s: seq<Value>)
    requires After(asc, x.time, s)
    ensures View([x] + s) == View(s)[x.time := x.payload]
    ensures x.time !in View(s)
  {
    hide View;
    ViewAppend([x], s);
    assert View([x]) == map[x.time := x.payload] by { SnocView([], x); EmptyView(); assert [] + [x] == [x]; }
    ViewKeys(s, x.time);
  }

  /** The merge means the stored values overlaid with the cached ones. */
  lemma {:induction false} MergedView(asc: bool, c: seq<Value>, t: seq<Value>)
    requires Ordered(asc, c) && Ordered(asc, t)
    ensures View(Merged(asc, c, t)) == View(t) + View(c)
    decreases |c| + |t|
  {
    hide Ordered, After, View;
    EmptyView();
    if c != [] && t != [] {
      OrderedTail(asc, c);
      OrderedTail(asc, t);
      assert c == [c[0]] + c[1..] && t == [t[0]] + t[1..];
      ConsView(asc, c[0], c[1..]);
      ConsView(asc, t[0], t[1..]);
      if c[0].time == t[0].time {
        MergedView(asc, c[1..], t[1..]);
        MergedAfter(asc, c[0].time, c[1..], t[1..]);
        ConsView(asc, c[0], Merged(asc, c[1..], t[1..]));
      } else if Precedes(asc, c[0].time, t[0].time) {
        MergedView(asc, c[1..], t);
        AllAfter(asc, c[0].time, t);
        MergedAfter(asc, c[0].time, c[1..], t);
        ConsView(asc, c[0], Merged(asc, c[1..], t));
      } else {
        MergedView(asc, c, t[1..]);
        AllAfter(asc, t[0].time, c);
        ConsView(asc, t[0], c);
        MergedAfter(asc, t[0].time, c, t[1..]);
        ConsView(asc, t[0], Merged(asc, c, t[1..]));
      }
    }
  }

  // ---------------------------------------------------------------- batches

  /** `s` cut into batches of `n` values, the last one holding the rest. */
  ghost function Batches(s: seq<Value>, n: nat): seq<seq<Value>>
    requires n > 0
    decreases |s|
  {
    if s == [] then [] else if |s| <= n then [s] else [s[..n]] + Batches(s[n..], n)
  }

  /** The batches hold every value once, in order, and all but the last are full. */
  lemma {:induction false} BatchesMeaning(s: seq<Value>, n: nat)
    requires n > 0
    ensures Concat(Batches(s, n)) == s
    ensures var bs := Batches(s, n);
            forall i :: 0 <= i < |bs| ==> bs[i] != [] && |bs[i]| <= n && (i < |bs| - 1 ==> |bs[i]| == n)
    decreases |s|
  {
    if |s| > n {
      BatchesMeaning(s[n..], n);
      var rest := Batches(s[n..], n);
      assert ([s[..n]] + rest)[1..] == rest;
      assert s == s[..n] + s[n..];
    } else if s != [] {
      assert Concat([s]) == s + Concat([]);
    }
  }

  /** How many values the next batch holds. */
  function BatchSize(left: seq<Value>, n: nat): nat {
    if |left| <= n then |left| else n
  }

  lemma {:induction false} NextBatch(s: seq<Value>, n: nat)
    requires n > 0
    ensures var k := BatchSize(s, n); Batches(s, n) == if s == [] then [] else [s[..k]] + Batches(s[k..], n)
  {
    if |s| <= n {
      assert s[..|s|] == s && s[|s|..] == [];
    }
  }

  /** Reading one more batch: what was read and what is left make up the same batches. */
  lemma {:induction false} ReadBatch(bs: seq<seq<Value>>, s: seq<Value>, n: nat, total: seq<seq<Value>>)
    requires n > 0 && bs + Batches(s, n) == total
    ensures s == [] ==> bs == total
    ensures s != [] ==> (bs + [s[..BatchSize(s, n)]]) + Batches(s[BatchSize(s, n)..], n) == total
  {
    hide Batches;
    NextBatch(s, n);
    if s == [] {
      assert bs + [] == bs;
    } else {
      var b, rest := [s[..BatchSize(s, n)]], Batches(s[BatchSize(s, n)..], n);
      assert (bs + b) + rest == bs + (b + rest);
    }
  }

  // ---------------------------------------------------------------- bounds

  /** The values that do not lie beyond `bound` in the given direction. */
  ghost function Inside(asc: bool, s: seq<Value>, bound: int): seq<Value> {
    if s == [] then []
    else (if Precedes(asc, bound, s[0].time) then [] else [s[0]]) + Inside(asc, s[1..], bound)
  }

  lemma {:induction false} InsideAppend(asc: bool, a: seq<Value>, b: seq<Value>, bound: int)
    ensures Inside(asc, a + b, bound) == Inside(asc, a, bound) + Inside(asc, b, bound)
  {
    if a == [] {
      assert a + b == b;
    } else {
      assert (a + b)[1..] == a[1..] + b && (a + b)[0] == a[0];
      InsideAppend(asc, a[1..], b, bound);
      hide Precedes;
      var head := if Precedes(asc, bound, a[0].time) then [] else [a[0]];
      Regrouped(head, Inside(asc, a[1..], bound), Inside(asc, b, bound));
    }
  }

  lemma {:induction false} InsideNone(asc: bool, s: seq<Value>, bound: int)
    requires After(asc, bound, s)
    ensures Inside(asc, s, bound) == []
  {
    if s != [] {
      InsideNone(asc, s[1..], bound);
    }
  }

  lemma {:induction false} InsideAll(asc: bool, s: seq<Value>, bound: int)
    requires forall i :: 0 <= i < |s| ==> !Precedes(asc, bound, s[i].time)
    ensures Inside(asc, s, bound) == s
  {
    if s != [] {
      InsideAll(asc, s[1..], bound);
    }
  }

  /** A list that splits at `k` into values inside the bound and values beyond it. */
  lemma {:induction false} InsidePrefix(asc: bool, s: seq<Value>, bound: int, k: nat)
    requires k <= |s|
    requires forall i :: 0 <= i < k ==> !Precedes(asc, bound, s[i].time)
    requires forall i :: k <= i < |s| ==> Precedes(asc, bound, s[i].time)
    ensures Inside(asc, s, bound) == s[..k]
  {
    hide Inside;
    assert s == s[..k] + s[k..];
    InsideAppend(asc, s[..k], s[k..], bound);
    InsideAll(asc, s[..k], bound);
    InsideNone(asc, s[k..], bound);
  }

  /** A list that splits at `k` into values before the bound and values from the bound on. */
  lemma {:induction false} InsideSuffix(asc: bool, s: seq<Value>, bound: int, k: nat)
    requires k <= |s|
    requires forall i :: 0 <= i < k ==> Precedes(asc, bound, s[i].time)
    requires forall i :: k <= i < |s| ==> !Precedes(asc, bound, s[i].time)
    ensures Inside(asc, s, bound) == s[k..]
  {
    hide Inside;
    assert s == s[..k] + s[k..];
    InsideAppend(asc, s[..k], s[k..], bound);
    InsideNone(asc, s[..k], bound);
    InsideAll(asc, s[k..], bound);
  }

  /** If nothing of the first `k` values of an ordered list lies inside the bound, nothing of the list does. */
  lemma {:induction false} InsideStops(asc: bool, s: seq<Value>, bound: int, k: nat)
    requires Ordered(asc, s) && k <= |s| && (k == 0 ==> s == [])
    ensures Inside(asc, s, bound) == Inside(asc, s[..k], bound) + Inside(asc, s[k..], bound)
    ensures Inside(asc, s[..k], bound) == [] ==> Inside(asc, s, bound) == []
  {
    assert s == s[..k] + s[k..];
    InsideAppend(asc, s[..k], s[k..], bound);
    if s != [] && Inside(asc, s[..k], bound) == [] {
      assert Precedes(asc, bound, s[0].time);
      InsideNone(asc, s, bound);
    }
  }

  // ---------------------------------------------------------------- reading backwards

  ghost function Back(s: seq<Value>): seq<Value> {
    if s == [] then [] else [s[|s| - 1]] + Back(s[..|s| - 1])
  }

  lemma {:induction false} BackAt(s: seq<Value>, i: nat)
    ensures |Back(s)| == |s|
    ensures i < |s| ==> Back(s)[i] == s[|s| - 1 - i]
  {
    if s != [] {
      BackAt(s[..|s| - 1], if i == 0 then 0 else i - 1);
    }
  }

  lemma {:induction false} BackOrdered(s: seq<Value>)
    requires Ascending(s)
    ensures Ordered(false, Back(s))
  {
    hide Back;
    BackAt(s, 0);
    forall i, j | 0 <= i < j < |Back(s)| ensures Precedes(false, Back(s)[i].time, Back(s)[j].time) {
      BackAt(s, i);
      BackAt(s, j);
    }
  }

  lemma {:induction false} BackAppend(a: seq<Value>, b: seq<Value>)
    ensures Back(a + b) == Back(b) + Back(a)
    decreases |b|
  {
    if b == [] {
      assert a + b == a;
    } else {
      assert (a + b)[..|a + b| - 1] == a + b[..|b| - 1];
      BackAppend(a, b[..|b| - 1]);
    }
  }

  /** The blocks one after the other, each read backwards. */
  ghost function FlatBack(bs: seq<seq<Value>>): seq<Value> {
    if bs == [] then [] else Back(bs[0]) + FlatBack(bs[1..])
  }
}
