/** What overlap and disorder together can do: a key from which compaction drops a value. */
module LostValue {
  import opened Values
  import opened Windows
  import opened Rounds
  import opened Compaction

  const H := Stored([Value(50, 0), Value(60, 0)], [])
  const X := Stored([Value(1, 0), Value(20, 0), Value(40, 0)], [])
  const Y := Stored([Value(30, 0), Value(55, 0)], [])
  const Z := Stored([Value(5, 0), Value(10, 0)], [])

  /** A list of two or three values, filtered. */
  lemma {:induction false} Filter2(a: Value, b: Value, min: int, max: int)
    ensures Within([a, b], min, max) ==
            (if min <= a.time <= max then [a] else []) + (if min <= b.time <= max then [b] else [])
    ensures Without([a, b], min, max) ==
            (if min <= a.time <= max then [] else [a]) + (if min <= b.time <= max then [] else [b])
  {
    hide Within, Without;
    FilterSnoc([], a, min, max);
    FilterSnoc([a], b, min, max);
    FilterAll([], min, max);
    assert [a] + [b] == [a, b] && [] + [a] == [a];
  }

  lemma {:induction false} Filter3(a: Value, b: Value, c: Value, min: int, max: int)
    ensures Within([a, b, c], min, max) == Within([a, b], min, max) + (if min <= c.time <= max then [c] else [])
    ensures Without([a, b, c], min, max) == Without([a, b], min, max) + (if min <= c.time <= max then [] else [c])
  {
    hide Within, Without;
    FilterSnoc([a, b], c, min, max);
    assert [a, b] + [c] == [a, b, c];
  }

  lemma {:induction false} Filter1(a: Value, min: int, max: int)
    ensures Within([a], min, max) == (if min <= a.time <= max then [a] else [])
    ensures Without([a], min, max) == (if min <= a.time <= max then [] else [a])
  {
    hide Within, Without;
    FilterSnoc([], a, min, max);
    FilterAll([], min, max);
    assert [] + [a] == [a];
  }

  lemma {:induction false} AllOk()
    ensures H.Valid() && X.Valid() && Y.Valid() && Z.Valid()
  {
  }

  /** The window of a list, block by block. */
  lemma {:induction false} Window4(a: Reading, b: Reading, c: Reading, d: Reading)
    requires a.Valid() && b.Valid() && c.Valid() && d.Valid()
    ensures ValidReadings([a, b, c, d])
    ensures var w := TimeRange(a.stored.MinTime(), a.stored.MaxTime());
            Window([a, b, c, d]) == Narrow(Narrow(Narrow(Narrow(w, a), b), c), d)
  {
    var rs := [a, b, c, d];
    hide WindowAfter, Narrow;
    WindowStart(rs);
    WindowNext(rs, 0);
    WindowNext(rs, 1);
    WindowNext(rs, 2);
    WindowNext(rs, 3);
  }

  lemma {:induction false} Window3(a: Reading, b: Reading, c: Reading)
    requires a.Valid() && b.Valid() && c.Valid()
    ensures ValidReadings([a, b, c])
    ensures var w := TimeRange(a.stored.MinTime(), a.stored.MaxTime());
            Window([a, b, c]) == Narrow(Narrow(Narrow(w, a), b), c)
  {
    var rs := [a, b, c];
    hide WindowAfter, Narrow;
    WindowStart(rs);
    WindowNext(rs, 0);
    WindowNext(rs, 1);
    WindowNext(rs, 2);
  }

  /** The first round reads the end of X before its beginning. */
  lemma {:induction false} Round1()
    ensures H.Valid() && X.Valid() && Y.Valid() && Z.Valid()
    ensures var rs := [Unread(H), Unread(X), Unread(Y), Unread(Z)];
            ValidReadings(rs) && Window(rs) == TimeRange(30, 55)
            && StepAll(rs, Window(rs)) == [Reading(H, 50, 50), Reading(X, 40, 40), Reading(Y, 30, 55), Unread(Z)]
            && Fresh(Unread(H), TimeRange(30, 55)) == [Value(50, 0)]
            && Fresh(Unread(X), TimeRange(30, 55)) == [Value(40, 0)]
            && Fresh(Unread(Y), TimeRange(30, 55)) == Y.values
  {
    AllOk();
    First();
    Fresh1();
    hide Fresh, WindowAfter;
  }

  lemma {:induction false} First()
    ensures H.Valid() && X.Valid() && Y.Valid() && Z.Valid()
    ensures var rs := [Unread(H), Unread(X), Unread(Y), Unread(Z)];
            ValidReadings(rs) && Window(rs) == TimeRange(30, 55)
  {
    AllOk();
    hide Window;
    Window4(Unread(H), Unread(X), Unread(Y), Unread(Z));
  }

  lemma {:induction false} Fresh1()
    ensures Fresh(Unread(H), TimeRange(30, 55)) == [Value(50, 0)]
    ensures Fresh(Unread(X), TimeRange(30, 55)) == [Value(40, 0)]
    ensures Fresh(Unread(Y), TimeRange(30, 55)) == Y.values
  {
    hide Within, Without;
    FilterNone(H.values, MAX_TIME, MIN_TIME);
    FilterNone(X.values, MAX_TIME, MIN_TIME);
    FilterNone(Y.values, MAX_TIME, MIN_TIME);
    Filter2(H.values[0], H.values[1], 30, 55);
    Filter2(X.values[0], X.values[1], 30, 55);
    Filter3(X.values[0], X.values[1], X.values[2], 30, 55);
    Filter2(Y.values[0], Y.values[1], 30, 55);
  }

  /** The second round reads what is left of H. */
  lemma {:induction false} Round2()
    ensures H.Valid() && X.Valid() && Y.Valid() && Z.Valid()
    ensures var rs := [Reading(H, 50, 50), Reading(X, 40, 40), Reading(Y, 30, 55), Unread(Z)];
            ValidReadings(rs) && Window(rs) == TimeRange(50, 60)
            && StepAll(rs, Window(rs)) == [Reading(H, 50, 60), Reading(X, 40, 40), Reading(Y, 30, 55), Unread(Z)]
            && Fresh(rs[0], TimeRange(50, 60)) == [Value(60, 0)]
  {
    AllOk();
    Second();
    Fresh2();
    hide Fresh, WindowAfter;
  }

  lemma {:induction false} Second()
    ensures H.Valid() && X.Valid() && Y.Valid() && Z.Valid()
    ensures var rs := [Reading(H, 50, 50), Reading(X, 40, 40), Reading(Y, 30, 55), Unread(Z)];
            ValidReadings(rs) && Window(rs) == TimeRange(50, 60)
  {
    AllOk();
    hide Window;
    Window4(Reading(H, 50, 50), Reading(X, 40, 40), Reading(Y, 30, 55), Unread(Z));
  }

  lemma {:induction false} Fresh2()
    ensures Fresh(Reading(H, 50, 50), TimeRange(50, 60)) == [Value(60, 0)]
  {
    hide Within, Without;
    Filter2(H.values[0], H.values[1], 50, 50);
    Filter1(H.values[1], 50, 60);
    assert Without(H.values, 50, 50) == [H.values[1]];
  }

  /** The third round reads the beginning of X; its read range now spans the middle, which was never read. */
  lemma {:induction false} Round3()
    ensures H.Valid() && X.Valid() && Y.Valid() && Z.Valid()
    ensures var rs := [Reading(X, 40, 40), Reading(Y, 30, 55), Unread(Z)];
            ValidReadings(rs) && Window(rs) == TimeRange(1, 10)
            && StepAll(rs, Window(rs)) == [Reading(X, 1, 40), Reading(Y, 30, 55), Reading(Z, 5, 10)]
            && Fresh(rs[0], TimeRange(1, 10)) == [Value(1, 0)] && Fresh(rs[2], TimeRange(1, 10)) == Z.values
  {
    AllOk();
    Third();
    Fresh3();
    hide Fresh, WindowAfter;
  }

  lemma {:induction false} Third()
    ensures X.Valid() && Y.Valid() && Z.Valid()
    ensures var rs := [Reading(X, 40, 40), Reading(Y, 30, 55), Unread(Z)];
            ValidReadings(rs) && Window(rs) == TimeRange(1, 10)
  {
    AllOk();
    hide Window;
    Window3(Reading(X, 40, 40), Reading(Y, 30, 55), Unread(Z));
  }

  lemma {:induction false} Fresh3()
    ensures Fresh(Reading(X, 40, 40), TimeRange(1, 10)) == [Value(1, 0)]
    ensures Fresh(Unread(Z), TimeRange(1, 10)) == Z.values
  {
    hide Within, Without;
    Filter2(X.values[0], X.values[1], 40, 40);
    Filter3(X.values[0], X.values[1], X.values[2], 40, 40);
    assert Without(X.values, 40, 40) == [X.values[0], X.values[1]];
    Filter2(X.values[0], X.values[1], 1, 10);
    FilterNone(Z.values, MAX_TIME, MIN_TIME);
    Filter2(Z.values[0], Z.values[1], 1, 10);
  }

  /** A time that no block contributes is not in the round's contribution. */
  lemma {:induction false} PartsMiss(rs: seq<Reading>, w: TimeRange, t: int)
    requires ValidReadings(rs)
    requires forall i :: 0 <= i < |rs| ==> rs[i].stored.tombstones == []
    requires forall i, k :: 0 <= i < |rs| && 0 <= k < |Fresh(rs[i], w)| && !Skipped(rs[i], w) ==>
             Fresh(rs[i], w)[k].time != t
    ensures t !in Parts(rs, w)
  {
    hide View, Fresh;
    if rs != [] {
      var p, r := rs[..|rs| - 1], rs[|rs| - 1];
      PartsMiss(p, w, t);
      EmptyView();
      ViewKeys(Part(r, w), t);
    }
  }

  const KEY := [H, X, Y, Z]

  /**
   * The four blocks are out of order and overlap. After three rounds all of them count as read,
   * but the value stamped 20 was never taken.
   */
  lemma {:induction false} ValueLost()
    ensures AllValid(KEY) && !InOrder(KEY) && 20 in Meaning(KEY) && 20 !in Yield(KEY)
  {
    hide Total, Meaning, InOrder, AllValid;
    OutOfOrder();
    Meant();
    assert UnreadAll(KEY) == [Unread(H), Unread(X), Unread(Y), Unread(Z)];
    LostFrom1();
  }

  lemma {:induction false} LostFrom1()
    ensures var rs := [Unread(H), Unread(X), Unread(Y), Unread(Z)];
            ValidReadings(rs) && 20 !in Total(rs)
  {
    hide Total, StepAll, Parts, Window, Fresh;
    Missed();
    LostFrom2();
    Round1();
    TotalRound([Unread(H), Unread(X), Unread(Y), Unread(Z)]);
  }

  lemma {:induction false} LostFrom2()
    ensures var rs := [Reading(H, 50, 50), Reading(X, 40, 40), Reading(Y, 30, 55), Unread(Z)];
            ValidReadings(rs) && 20 !in Total(rs)
  {
    hide Total, StepAll, Parts, Window, Fresh;
    Missed();
    LostFrom3();
    Round2();
    TotalRound([Reading(H, 50, 50), Reading(X, 40, 40), Reading(Y, 30, 55), Unread(Z)]);
    var rs := [Reading(H, 50, 60), Reading(X, 40, 40), Reading(Y, 30, 55), Unread(Z)];
    assert rs[1..] == [Reading(X, 40, 40), Reading(Y, 30, 55), Unread(Z)];
    TotalDrop(rs);
  }

  lemma {:induction false} LostFrom3()
    ensures var rs := [Reading(X, 40, 40), Reading(Y, 30, 55), Unread(Z)];
            ValidReadings(rs) && 20 !in Total(rs)
  {
    hide Total, StepAll, Parts, Window, Fresh;
    Missed();
    Round3();
    TotalRound([Reading(X, 40, 40), Reading(Y, 30, 55), Unread(Z)]);
    AllRead();
  }

  lemma {:induction false} AllRead()
    ensures X.Valid() && Y.Valid() && Z.Valid()
    ensures Total([Reading(X, 1, 40), Reading(Y, 30, 55), Reading(Z, 5, 10)]) == map[]
  {
    hide Total;
    AllOk();
    var rs := [Reading(X, 1, 40), Reading(Y, 30, 55), Reading(Z, 5, 10)];
    TotalDrop(rs);
    TotalDrop(rs[1..]);
    TotalDrop(rs[1..][1..]);
    TotalNone();
    assert rs[1..][1..][1..] == [];
  }

  /** Compaction of the four blocks, fast or full, in chunks of any size, emits no value stamped 20. */
  method CompactLoses(size: nat, fast: bool) returns (out: seq<OutBlock>)
    requires size > 0
    ensures 20 in Meaning(KEY) && 20 !in View(Flat(out))
  {
    hide *;
    ValueLost();
    var bs := NewBlocks(KEY);
    out := CompactKey(bs, size, fast);
  }

  lemma {:induction false} Missed()
    ensures H.Valid() && X.Valid() && Y.Valid() && Z.Valid()
    ensures 20 !in Parts([Unread(H), Unread(X), Unread(Y), Unread(Z)], TimeRange(30, 55))
    ensures 20 !in Parts([Reading(H, 50, 50), Reading(X, 40, 40), Reading(Y, 30, 55), Unread(Z)], TimeRange(50, 60))
    ensures 20 !in Parts([Reading(X, 40, 40), Reading(Y, 30, 55), Unread(Z)], TimeRange(1, 10))
  {
    hide Within, Without, Fresh, Parts, View, StepAll, Window;
    Round1();
    Round2();
    Round3();
    PartsMiss([Unread(H), Unread(X), Unread(Y), Unread(Z)], TimeRange(30, 55), 20);
    PartsMiss([Reading(H, 50, 50), Reading(X, 40, 40), Reading(Y, 30, 55), Unread(Z)], TimeRange(50, 60), 20);
    PartsMiss([Reading(X, 40, 40), Reading(Y, 30, 55), Unread(Z)], TimeRange(1, 10), 20);
  }

  lemma {:induction false} OutOfOrder()
    ensures AllValid(KEY) && !InOrder(KEY)
  {
    AllOk();
    var all := KEY;
    assert all[1].MaxTime() < all[0].MinTime();
  }

  lemma {:induction false} Meant()
    ensures 20 in Meaning(KEY)
  {
    var all := KEY;
    hide Meaning;
    AllOk();
    ViewAt(X.values, 1);
    assert 20 in BlockView(all[1]);
    MeaningHas(all, 1, 20);
  }
}
