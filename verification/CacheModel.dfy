/** Typed, sized values and what the in-memory cache keeps of them. */
module CacheModel {
  import opened Values
  import opened MapSums

  type Key = string

  /** What the payload of a value stands for. */
  datatype Kind = FloatKind | IntegerKind | UnsignedKind | BooleanKind | StringKind(length: nat)

  type Kinds = int -> Kind

  /** The type tag of a value; the tag of an unsigned value is also that of an entry created without values. */
  function Tag(k: Kind): nat {
    match k
    case FloatKind => 1
    case IntegerKind => 2
    case StringKind(_) => 3
    case BooleanKind => 4
    case UnsignedKind => 0
  }

  /** The bytes a value is counted as. */
  function Width(k: Kind): (n: nat)
    ensures n >= 8
  {
    match k
    case StringKind(length) => 8 + length
    case BooleanKind => 9
    case _ => 16
  }

  function SizeOf(s: seq<Value>, kinds: Kinds): nat {
    if s == [] then 0 else SizeOf(s[..|s| - 1], kinds) + Width(kinds(s[|s| - 1].payload))
  }

  /** All values have the type `tag`. */
  ghost predicate Uniform(s: seq<Value>, tag: nat, kinds: Kinds) {
    forall i :: 0 <= i < |s| ==> Tag(kinds(s[i].payload)) == tag
  }

  datatype Entry = Entry(values: seq<Value>, vtype: nat)

  /** The entry holds what `log` means, in values of its own type; without values its type is 0. */
  ghost predicate Holds(e: Entry, log: seq<Value>, kinds: Kinds) {
    View(e.values) == View(log) && Uniform(e.values, e.vtype, kinds) && (e.values == [] ==> e.vtype == 0)
  }

  ghost predicate AllHold(store: map<Key, Entry>, log: map<Key, seq<Value>>, kinds: Kinds) {
    store.Keys == log.Keys && forall k :: k in store ==> Holds(store[k], log[k], kinds)
  }

  /** The bytes counted for a key and its values. */
  ghost function Weight(kinds: Kinds): (Key, Entry) -> nat {
    (k: Key, e: Entry) => |k| + SizeOf(e.values, kinds)
  }

  ghost function LogOf(log: map<Key, seq<Value>>, key: Key): seq<Value> {
    if key in log then log[key] else []
  }

  // ---------------------------------------------------------------- sizes

  lemma {:induction false} SizeSnoc(s: seq<Value>, x: Value, kinds: Kinds)
    ensures SizeOf(s + [x], kinds) == SizeOf(s, kinds) + Width(kinds(x.payload))
  {
    assert (s + [x])[..|s|] == s;
  }

  lemma {:induction false} SizeAppend(a: seq<Value>, b: seq<Value>, kinds: Kinds)
    ensures SizeOf(a + b, kinds) == SizeOf(a, kinds) + SizeOf(b, kinds)
    decreases |b|
  {
    if b == [] {
      assert a + b == a;
    } else {
      hide SizeOf, Width;
      var p, x := b[..|b| - 1], b[|b| - 1];
      assert a + b == (a + p) + [x] && b == p + [x];
      SizeSnoc(a + p, x, kinds);
      SizeSnoc(p, x, kinds);
      SizeAppend(a, p, kinds);
    }
  }

  lemma {:induction false} SizePositive(s: seq<Value>, kinds: Kinds)
    ensures SizeOf(s, kinds) == 0 <==> s == []
  {
  }

  ghost function PointWeight(kinds: Kinds): (int, int) -> nat {
    (t: int, p: int) => Width(kinds(p))
  }

  /** The distinct times of a list weigh no more than the list, and as much if it is ascending. */
  lemma {:induction false} ViewSize(s: seq<Value>, kinds: Kinds)
    ensures Sum(View(s), PointWeight(kinds)) <= SizeOf(s, kinds)
    ensures Ascending(s) ==> Sum(View(s), PointWeight(kinds)) == SizeOf(s, kinds)
  {
    var w := PointWeight(kinds);
    if s == [] {
      SumNone(w);
    } else {
      hide Sum, Width;
      var p, x := s[..|s| - 1], s[|s| - 1];
      ViewSize(p, kinds);
      SumPut(View(p), x.time, x.payload, w);
      if Ascending(s) {
        ViewKeys(p, x.time);
        assert View(p) - {x.time} == View(p);
      }
    }
  }

  /** Deduplicating never makes an entry larger. */
  lemma {:induction false} DedupSize(s: seq<Value>, d: seq<Value>, kinds: Kinds)
    requires Ascending(d) && View(d) == View(s)
    ensures SizeOf(d, kinds) <= SizeOf(s, kinds)
  {
    hide View, Sum, SizeOf;
    ViewSize(s, kinds);
    ViewSize(d, kinds);
  }

  lemma {:induction false} ViewFrom(s: seq<Value>, t: int)
    requires t in View(s)
    ensures exists i :: 0 <= i < |s| && s[i] == Value(t, View(s)[t])
  {
    var p, x := s[..|s| - 1], s[|s| - 1];
    if x.time == t {
      assert s[|s| - 1] == Value(t, View(s)[t]);
    } else {
      ViewFrom(p, t);
      var i :| 0 <= i < |p| && p[i] == Value(t, View(p)[t]);
      assert s[i] == Value(t, View(s)[t]);
    }
  }

  /** Deduplicating keeps the type of the values. */
  lemma {:induction false} DedupUniform(s: seq<Value>, d: seq<Value>, tag: nat, kinds: Kinds)
    requires Ascending(d) && View(d) == View(s) && Uniform(s, tag, kinds)
    ensures Uniform(d, tag, kinds)
  {
    hide View;
    forall i | 0 <= i < |d| ensures Tag(kinds(d[i].payload)) == tag {
      ViewAt(d, i);
      ViewFrom(s, d[i].time);
      var j :| 0 <= j < |s| && s[j] == Value(d[i].time, View(s)[d[i].time]);
      assert Tag(kinds(s[j].payload)) == tag;
    }
  }

  // ---------------------------------------------------------------- the store

  lemma {:induction false} PutHolds(store: map<Key, Entry>, log: map<Key, seq<Value>>, key: Key, e: Entry,
                                    l: seq<Value>, kinds: Kinds)
    requires AllHold(store, log, kinds) && Holds(e, l, kinds)
    ensures AllHold(store[key := e], log[key := l], kinds)
  {
    hide Holds;
  }

  lemma {:induction false} RemoveHolds(store: map<Key, Entry>, log: map<Key, seq<Value>>, key: Key, kinds: Kinds)
    requires AllHold(store, log, kinds)
    ensures AllHold(store - {key}, log - {key}, kinds)
  {
    hide Holds;
  }

  /** Adding values of the entry's type. */
  lemma {:induction false} AddHolds(e: Entry, l: seq<Value>, vs: seq<Value>, kinds: Kinds)
    requires View(e.values) == View(l) && Uniform(e.values, e.vtype, kinds) && Uniform(vs, e.vtype, kinds)
    requires e.values == [] && vs == [] ==> e.vtype == 0
    ensures Holds(Entry(e.values + vs, e.vtype), l + vs, kinds)
    ensures SizeOf(e.values + vs, kinds) == SizeOf(e.values, kinds) + SizeOf(vs, kinds)
  {
    hide View, SizeOf;
    ViewAppend(e.values, vs);
    ViewAppend(l, vs);
    SizeAppend(e.values, vs, kinds);
  }

  /** If nothing is counted, nothing is stored. */
  lemma {:induction false} NothingCounted(store: map<Key, Entry>, kinds: Kinds, key: Key)
    requires Sum(store, Weight(kinds)) == 0 && key in store
    ensures key == "" && store[key].values == []
  {
    hide SizeOf, Sum;
    SumPart(store, key, Weight(kinds));
    SizePositive(store[key].values, kinds);
  }

  /** A store that counts for nothing means nothing under any key. */
  lemma {:induction false} NothingMeant(store: map<Key, Entry>, log: map<Key, seq<Value>>, kinds: Kinds, key: Key)
    requires Sum(store, Weight(kinds)) == 0 && AllHold(store, log, kinds)
    ensures View(LogOf(log, key)) == map[]
  {
    hide Sum;
    if key in store {
      NothingCounted(store, kinds, key);
    }
    EmptyView();
  }

  // ---------------------------------------------------------------- writes

  /** The type a write to `key` must have: that of the entry, or of its own first value. */
  function Expected(store: map<Key, Entry>, key: Key, vs: seq<Value>, kinds: Kinds): nat {
    if key in store then store[key].vtype else if vs == [] then 0 else Tag(kinds(vs[0].payload))
  }

  ghost predicate Fitting(store: map<Key, Entry>, key: Key, vs: seq<Value>, kinds: Kinds) {
    Uniform(vs, Expected(store, key, vs, kinds), kinds)
  }

  /** The entry of `key` after a fitting write. */
  ghost function Added(store: map<Key, Entry>, key: Key, vs: seq<Value>, kinds: Kinds): Entry {
    Entry((if key in store then store[key].values else []) + vs, Expected(store, key, vs, kinds))
  }

  /** The bytes a write adds: nothing if it does not fit, and the key if it is new. */
  ghost function Charged(store: map<Key, Entry>, kinds: Kinds): (Key, seq<Value>) -> nat {
    (k: Key, vs: seq<Value>) =>
      if Fitting(store, k, vs, kinds) then SizeOf(vs, kinds) + (if k in store then 0 else |k|) else 0
  }

  ghost function Sizes(kinds: Kinds): (Key, seq<Value>) -> nat {
    (k: Key, vs: seq<Value>) => SizeOf(vs, kinds)
  }

  /** A fitting write keeps the store in step with the log and adds exactly what it is charged. */
  lemma {:induction false} WriteHolds(store: map<Key, Entry>, log: map<Key, seq<Value>>, key: Key, vs: seq<Value>,
                                      kinds: Kinds)
    requires AllHold(store, log, kinds) && Fitting(store, key, vs, kinds)
    ensures AllHold(store[key := Added(store, key, vs, kinds)], log[key := LogOf(log, key) + vs], kinds)
    ensures Sum(store[key := Added(store, key, vs, kinds)], Weight(kinds))
         == Sum(store, Weight(kinds)) + Charged(store, kinds)(key, vs)
  {
    hide SizeOf, View, AllHold;
    var e := if key in store then store[key] else Entry([], Expected(store, key, vs, kinds));
    HeldAt(store, log, key, kinds);
    AddHolds(e, LogOf(log, key), vs, kinds);
    PutHolds(store, log, key, Added(store, key, vs, kinds), LogOf(log, key) + vs, kinds);
    SumPut(store, key, Added(store, key, vs, kinds), Weight(kinds));
    SizePositive([], kinds);
  }

  lemma {:induction false} HeldAt(store: map<Key, Entry>, log: map<Key, seq<Value>>, key: Key, kinds: Kinds)
    requires AllHold(store, log, kinds)
    ensures if key in store then Holds(store[key], LogOf(log, key), kinds) else LogOf(log, key) == []
  {
  }

  // ---------------------------------------------------------------- types that clash

  /** Both are of one type. */
  ghost predicate SameKind(a: Kind, b: Kind) {
    && (a.FloatKind? <==> b.FloatKind?) && (a.IntegerKind? <==> b.IntegerKind?)
    && (a.UnsignedKind? <==> b.UnsignedKind?) && (a.BooleanKind? <==> b.BooleanKind?)
    && (a.StringKind? <==> b.StringKind?)
  }

  lemma {:induction false} TagExactly(a: Kind, b: Kind)
    ensures Tag(a) == Tag(b) <==> SameKind(a, b)
    ensures Tag(a) == 0 <==> a.UnsignedKind?
  {
  }

  ghost function KindAt(s: seq<Value>, i: nat, kinds: Kinds): Kind
    requires i < |s|
  {
    kinds(s[i].payload)
  }

  /** Some value of the one list is of another type than some value of the other. */
  ghost predicate Differ(s: seq<Value>, t: seq<Value>, kinds: Kinds) {
    exists i, j :: 0 <= i < |s| && 0 <= j < |t| && !SameKind(KindAt(s, i, kinds), KindAt(t, j, kinds))
  }

  /**
   * A write clashes with what is held under its key: with the values there, or without any with the unsigned type,
   * or under a new key with itself.
   */
  ghost predicate Clashes(store: map<Key, Entry>, key: Key, vs: seq<Value>, kinds: Kinds) {
    if key !in store then Differ(vs, vs, kinds)
    else if store[key].values == [] then exists i :: 0 <= i < |vs| && !KindAt(vs, i, kinds).UnsignedKind?
    else Differ(vs, store[key].values, kinds)
  }

  /** All values are of one type. */
  ghost predicate OneKind(s: seq<Value>, kinds: Kinds) {
    forall i, j :: 0 <= i < |s| && 0 <= j < |s| ==> SameKind(KindAt(s, i, kinds), KindAt(s, j, kinds))
  }

  lemma {:induction false} UniformKind(s: seq<Value>, tag: nat, kinds: Kinds)
    requires Uniform(s, tag, kinds)
    ensures OneKind(s, kinds)
  {
    hide Tag, SameKind;
    forall i, j | 0 <= i < |s| && 0 <= j < |s| ensures SameKind(KindAt(s, i, kinds), KindAt(s, j, kinds)) {
      TagExactly(KindAt(s, i, kinds), KindAt(s, j, kinds));
    }
  }

  /** Values have the tag of others exactly if no two of them differ. */
  lemma {:induction false} UniformExactly(s: seq<Value>, t: seq<Value>, tag: nat, kinds: Kinds)
    requires Uniform(t, tag, kinds) && t != []
    ensures Uniform(s, tag, kinds) <==> !Differ(s, t, kinds)
  {
    hide Tag, SameKind;
    forall i, j | 0 <= i < |s| && 0 <= j < |t|
      ensures Tag(kinds(s[i].payload)) == tag <==> SameKind(KindAt(s, i, kinds), KindAt(t, j, kinds)) {
      TagExactly(KindAt(s, i, kinds), KindAt(t, j, kinds));
    }
    if !Differ(s, t, kinds) {
      forall i | 0 <= i < |s| ensures Tag(kinds(s[i].payload)) == tag {
        assert SameKind(KindAt(s, i, kinds), KindAt(t, 0, kinds));
      }
    }
  }

  /** A write fits exactly if it does not clash. */
  lemma {:induction false} FittingExactly(store: map<Key, Entry>, log: map<Key, seq<Value>>, key: Key, vs: seq<Value>,
                                          kinds: Kinds)
    requires AllHold(store, log, kinds)
    ensures Fitting(store, key, vs, kinds) <==> !Clashes(store, key, vs, kinds)
  {
    hide AllHold, Tag, View, SameKind, Differ, Uniform;
    HeldAt(store, log, key, kinds);
    if key !in store {
      FitsItself(vs, kinds);
    } else if store[key].values == [] {
      UnsignedExactly(vs, kinds);
    } else {
      UniformExactly(vs, store[key].values, store[key].vtype, kinds);
    }
  }

  lemma {:induction false} FitsItself(vs: seq<Value>, kinds: Kinds)
    ensures vs == [] ==> Uniform(vs, 0, kinds) && !Differ(vs, vs, kinds)
    ensures vs != [] ==> (Uniform(vs, Tag(kinds(vs[0].payload)), kinds) <==> !Differ(vs, vs, kinds))
  {
    hide Tag, SameKind;
    if vs != [] {
      var tag := Tag(kinds(vs[0].payload));
      if Uniform(vs, tag, kinds) {
        UniformExactly(vs, vs, tag, kinds);
      }
      if !Differ(vs, vs, kinds) {
        forall i | 0 <= i < |vs| ensures Tag(kinds(vs[i].payload)) == tag {
          TagExactly(KindAt(vs, i, kinds), KindAt(vs, 0, kinds));
          assert SameKind(KindAt(vs, i, kinds), KindAt(vs, 0, kinds));
        }
      }
    }
  }

  lemma {:induction false} UnsignedExactly(vs: seq<Value>, kinds: Kinds)
    ensures Uniform(vs, 0, kinds) <==> forall i :: 0 <= i < |vs| ==> KindAt(vs, i, kinds).UnsignedKind?
  {
    hide Tag;
    forall i | 0 <= i < |vs| ensures Tag(kinds(vs[i].payload)) == 0 <==> KindAt(vs, i, kinds).UnsignedKind? {
      TagExactly(KindAt(vs, i, kinds), KindAt(vs, i, kinds));
    }
  }

  /** The bytes of one value: 8 for its time, and those of its payload. */
  lemma {:induction false} OneSize(v: Value, kinds: Kinds)
    ensures SizeOf([v], kinds) == 8 + match kinds(v.payload)
                                      case StringKind(n) => n
                                      case BooleanKind => 1
                                      case FloatKind => 8
                                      case IntegerKind => 8
                                      case UnsignedKind => 8
  {
    assert [v][..0] == [];
  }

  /** A first write without values fixes the type of the key to unsigned: no other value is taken afterwards. */
  lemma {:induction false} EmptyWriteFixesType(store: map<Key, Entry>, key: Key, vs: seq<Value>, kinds: Kinds)
    requires key !in store
    ensures var store' := store[key := Added(store, key, [], kinds)];
            Fitting(store', key, vs, kinds) <==> forall i :: 0 <= i < |vs| ==> kinds(vs[i].payload).UnsignedKind?
  {
    var store' := store[key := Added(store, key, [], kinds)];
    assert Expected(store', key, vs, kinds) == 0;
    assert forall i :: 0 <= i < |vs| ==> (Tag(kinds(vs[i].payload)) == 0 <==> kinds(vs[i].payload).UnsignedKind?);
  }

  // ---------------------------------------------------------------- what readers see

  /** The last-write-wins meaning of a key: the snapshot's writes, then the later ones on top. */
  ghost function Overlaid(snap: map<Key, seq<Value>>, hot: map<Key, seq<Value>>, key: Key): map<int, int> {
    View(LogOf(snap, key)) + View(LogOf(hot, key))
  }

  /** No reader can tell the two states apart. */
  ghost predicate SameReads(snap: map<Key, seq<Value>>, hot: map<Key, seq<Value>>, snap': map<Key, seq<Value>>,
                            hot': map<Key, seq<Value>>)
  {
    forall key :: Overlaid(snap, hot, key) == Overlaid(snap', hot', key)
  }

  /** Moving the hot writes into a snapshot that counts for nothing is invisible. */
  lemma {:induction false} FreezeReads(store: map<Key, Entry>, snap: map<Key, seq<Value>>, hot: map<Key, seq<Value>>,
                                       kinds: Kinds)
    requires Sum(store, Weight(kinds)) == 0 && AllHold(store, snap, kinds)
    ensures SameReads(snap, hot, hot, map[])
  {
    hide View, Sum, AllHold;
    EmptyView();
    forall key ensures Overlaid(snap, hot, key) == Overlaid(hot, map[], key) {
      NothingMeant(store, snap, kinds, key);
    }
  }

  /** Replacing the values of an entry by their deduplication. */
  lemma {:induction false} DedupHolds(store: map<Key, Entry>, log: map<Key, seq<Value>>, key: Key, d: seq<Value>,
                                      kinds: Kinds)
    requires AllHold(store, log, kinds) && key in store
    requires Ascending(d) && View(d) == View(store[key].values)
    ensures AllHold(store[key := store[key].(values := d)], log, kinds)
    ensures Sum(store[key := store[key].(values := d)], Weight(kinds)) <= Sum(store, Weight(kinds))
  {
    hide View, Sum, SizeOf, AllHold;
    HeldAt(store, log, key, kinds);
    var e := store[key].(values := d);
    DedupUniform(store[key].values, d, e.vtype, kinds);
    SomeKept(store[key].values, d);
    DedupSize(store[key].values, d, kinds);
    SameKeys(store, log, kinds);
    PutHolds(store, log, key, e, log[key], kinds);
    assert log[key := log[key]] == log;
    SumPut(store, key, e, Weight(kinds));
  }

  lemma {:induction false} SomeKept(s: seq<Value>, d: seq<Value>)
    requires View(d) == View(s)
    ensures d == [] ==> s == []
  {
    if s != [] {
      hide View;
      ViewKeys(s, s[0].time);
      ViewKeys(d, s[0].time);
    }
  }

  lemma {:induction false} SameKeys(store: map<Key, Entry>, log: map<Key, seq<Value>>, kinds: Kinds)
    requires AllHold(store, log, kinds)
    ensures store.Keys == log.Keys
  {
  }

  // ---------------------------------------------------------------- writing several keys

  ghost function KeyLengths(): (Key, seq<Value>) -> nat {
    (k: Key, vs: seq<Value>) => |k|
  }

  /** The keys that still have to be written are as they were. */
  ghost predicate Untouched(store0: map<Key, Entry>, store: map<Key, Entry>, rest: map<Key, seq<Value>>) {
    forall k :: k in rest ==> (k in store <==> k in store0) && (k in store ==> store[k] == store0[k])
  }

  /** Every fitting write of `done`, and nothing else, has reached the log. */
  ghost predicate Logged(log0: map<Key, seq<Value>>, log: map<Key, seq<Value>>, store0: map<Key, Entry>,
                         done: map<Key, seq<Value>>, kinds: Kinds) {
    forall k ::
      LogOf(log, k) == LogOf(log0, k) + if k in done && Fitting(store0, k, done[k], kinds) then done[k] else []
  }

  lemma {:induction false} LoggedNone(log: map<Key, seq<Value>>, store0: map<Key, Entry>, values: map<Key, seq<Value>>,
                                      kinds: Kinds)
    ensures Logged(log, log, store0, values - values.Keys, kinds)
  {
  }

  lemma {:induction false} LoggedNext(log0: map<Key, seq<Value>>, log: map<Key, seq<Value>>, store0: map<Key, Entry>,
                                      values: map<Key, seq<Value>>, rest: map<Key, seq<Value>>, k: Key, kinds: Kinds)
    requires rest.Keys <= values.Keys && k in rest && rest[k] == values[k]
    requires Logged(log0, log, store0, values - rest.Keys, kinds)
    ensures var log' := if Fitting(store0, k, values[k], kinds) then log[k := LogOf(log, k) + values[k]] else log;
            Logged(log0, log', store0, values - (rest - {k}).Keys, kinds)
  {
    hide Fitting;
    var done := values - (rest - {k}).Keys;
    var log' := if Fitting(store0, k, values[k], kinds) then log[k := LogOf(log, k) + values[k]] else log;
    assert k in done && done[k] == values[k];
    forall x
      ensures LogOf(log', x) == LogOf(log0, x) + if x in done && Fitting(store0, x, done[x], kinds) then done[x] else []
    {
      assert LogOf(log, x) == LogOf(log0, x)
             + if x in values - rest.Keys && Fitting(store0, x, (values - rest.Keys)[x], kinds)
               then (values - rest.Keys)[x] else [];
      assert LogOf(log0, k) + [] == LogOf(log0, k);
    }
  }

  lemma {:induction false} UntouchedNext(store0: map<Key, Entry>, store: map<Key, Entry>, rest: map<Key, seq<Value>>,
                                         k: Key, e: Entry)
    requires Untouched(store0, store, rest)
    ensures Untouched(store0, store, rest - {k}) && Untouched(store0, store[k := e], rest - {k})
  {
  }

  /** An untouched key takes the same writes at the same charge as at the start. */
  lemma {:induction false} UntouchedAt(store0: map<Key, Entry>, store: map<Key, Entry>, rest: map<Key, seq<Value>>,
                                       k: Key, kinds: Kinds)
    requires Untouched(store0, store, rest) && k in rest
    ensures Fitting(store, k, rest[k], kinds) == Fitting(store0, k, rest[k], kinds)
    ensures Charged(store, kinds)(k, rest[k]) == Charged(store0, kinds)(k, rest[k]) <= SizeOf(rest[k], kinds) + |k|
    ensures k in store <==> k in store0
  {
  }

  ghost predicate Part(rest: map<Key, seq<Value>>, values: map<Key, seq<Value>>) {
    rest.Keys <= values.Keys && forall k :: k in rest ==> rest[k] == values[k]
  }

  ghost predicate AllFit(store: map<Key, Entry>, values: map<Key, seq<Value>>, kinds: Kinds) {
    forall k :: k in values ==> Fitting(store, k, values[k], kinds)
  }

  lemma {:induction false} AllFitNext(store: map<Key, Entry>, values: map<Key, seq<Value>>, rest: map<Key, seq<Value>>,
                                      k: Key, kinds: Kinds)
    requires Part(rest, values) && k in rest
    ensures rest[k] == values[k] && Part(rest - {k}, values)
    ensures AllFit(store, values - (rest - {k}).Keys, kinds)
       <==> AllFit(store, values - rest.Keys, kinds) && Fitting(store, k, rest[k], kinds)
  {
    hide Fitting;
    var more, done := values - (rest - {k}).Keys, values - rest.Keys;
    assert forall x :: x in more <==> x in done || x == k;
    assert more[k] == values[k];
    if AllFit(store, more, kinds) {
      forall x | x in done ensures Fitting(store, x, done[x], kinds) {
        assert Fitting(store, x, more[x], kinds);
      }
    }
  }

  /** What the cache keeps. */
  datatype State = State(store: map<Key, Entry>, log: map<Key, seq<Value>>, size: nat)

  /**
   * The state while `rest` of `values` has still to be written: the sizes of the rest are already
   * counted, everything else is counted exactly as it was charged.
   */
  ghost predicate Halfway(s0: State, s: State, values: map<Key, seq<Value>>, rest: map<Key, seq<Value>>, limit: nat,
                          kinds: Kinds)
  {
    && Part(rest, values) && AllHold(s.store, s.log, kinds) && Untouched(s0.store, s.store, rest)
    && Logged(s0.log, s.log, s0.store, values - rest.Keys, kinds)
    && s.size + Sum(rest, Charged(s0.store, kinds)) ==
       s0.size + Sum(values, Charged(s0.store, kinds)) + Sum(rest, Sizes(kinds))
    && s.size + Sum(rest, KeyLengths()) < limit
    && Sum(s.store, Weight(kinds)) + Sum(rest, Sizes(kinds)) <= s.size
  }

  /** The state after one of several writes. */
  ghost function WroteOne(s: State, k: Key, vs: seq<Value>, kinds: Kinds): State
    requires SizeOf(vs, kinds) <= s.size
  {
    var size := s.size + Charged(s.store, kinds)(k, vs) - SizeOf(vs, kinds);
    if Fitting(s.store, k, vs, kinds)
    then State(s.store[k := Added(s.store, k, vs, kinds)], s.log[k := LogOf(s.log, k) + vs], size)
    else State(s.store, s.log, size)
  }

  lemma {:induction false} HalfwayStart(s0: State, values: map<Key, seq<Value>>, limit: nat, kinds: Kinds)
    requires AllHold(s0.store, s0.log, kinds) && Sum(s0.store, Weight(kinds)) <= s0.size
    requires s0.size + Sum(values, Sizes(kinds)) + Sum(values, KeyLengths()) < limit
    ensures Halfway(s0, s0.(size := s0.size + Sum(values, Sizes(kinds))), values, values, limit, kinds)
  {
    hide Sum, AllHold, Logged, Sizes, KeyLengths, Charged, Weight;
    LoggedNone(s0.log, s0.store, values, kinds);
  }

  lemma {:induction false} HalfwayAt(s0: State, s: State, values: map<Key, seq<Value>>, rest: map<Key, seq<Value>>,
                                     k: Key, limit: nat, kinds: Kinds)
    requires Halfway(s0, s, values, rest, limit, kinds) && k in rest
    ensures AllHold(s.store, s.log, kinds) && SizeOf(rest[k], kinds) <= s.size && s.size + |k| < limit
    ensures Part(rest, values) && Fitting(s.store, k, rest[k], kinds) == Fitting(s0.store, k, rest[k], kinds)
  {
    hide Sum, AllHold, Logged, Part;
    UntouchedAt(s0.store, s.store, rest, k, kinds);
    SumRemove(rest, k, Sizes(kinds));
    SumRemove(rest, k, KeyLengths());
  }

  lemma {:induction false} HalfwayNext(s0: State, s: State, values: map<Key, seq<Value>>, rest: map<Key, seq<Value>>,
                                       k: Key, limit: nat, kinds: Kinds)
    requires Halfway(s0, s, values, rest, limit, kinds) && k in rest && SizeOf(rest[k], kinds) <= s.size
    ensures Halfway(s0, WroteOne(s, k, rest[k], kinds), values, rest - {k}, limit, kinds)
  {
    hide Sum, SizeOf, AllHold, Logged, Untouched, Fitting, Charged, Sizes, KeyLengths, Weight, Part, Added;
    var charge := Charged(s0.store, kinds);
    RestStep(rest, k, charge, kinds);
    UntouchedAt(s0.store, s.store, rest, k, kinds);
    UntouchedNext(s0.store, s.store, rest, k, Added(s.store, k, rest[k], kinds));
    AllFitNext(s0.store, values, rest, k, kinds);
    PartKeys(rest, values);
    LoggedNext(s0.log, s.log, s0.store, values, rest, k, kinds);
    NotCharged(s.store, k, rest[k], kinds);
    if Fitting(s.store, k, rest[k], kinds) {
      WriteHolds(s.store, s.log, k, rest[k], kinds);
    }
  }

  lemma {:induction false} NotCharged(store: map<Key, Entry>, k: Key, vs: seq<Value>, kinds: Kinds)
    ensures !Fitting(store, k, vs, kinds) ==> Charged(store, kinds)(k, vs) == 0
  {
  }

  lemma {:induction false} HalfwayEnd(s0: State, s: State, values: map<Key, seq<Value>>, limit: nat, kinds: Kinds)
    requires Halfway(s0, s, values, map[], limit, kinds)
    ensures AllHold(s.store, s.log, kinds) && Sum(s.store, Weight(kinds)) <= s.size < limit
    ensures Logged(s0.log, s.log, s0.store, values, kinds)
    ensures s.size == s0.size + Sum(values, Charged(s0.store, kinds))
  {
    hide Sum, SizeOf, AllHold, Logged, Charged, Sizes, KeyLengths, Weight, Part;
    ghost var none: map<Key, seq<Value>> := map[];
    SumNone(Charged(s0.store, kinds));
    SumNone(Sizes(kinds));
    SumNone(KeyLengths());
    assert values - none.Keys == values;
  }

  lemma {:induction false} PartKeys(rest: map<Key, seq<Value>>, values: map<Key, seq<Value>>)
    requires Part(rest, values)
    ensures rest.Keys <= values.Keys
  {
  }

  lemma {:induction false} RestStep(rest: map<Key, seq<Value>>, k: Key, charge: (Key, seq<Value>) -> nat, kinds: Kinds)
    requires k in rest
    ensures Sum(rest, charge) == charge(k, rest[k]) + Sum(rest - {k}, charge)
    ensures Sum(rest, Sizes(kinds)) == SizeOf(rest[k], kinds) + Sum(rest - {k}, Sizes(kinds))
    ensures Sum(rest, KeyLengths()) == |k| + Sum(rest - {k}, KeyLengths())
  {
    hide Sum, SizeOf;
    SumRemove(rest, k, charge);
    SumRemove(rest, k, Sizes(kinds));
    SumRemove(rest, k, KeyLengths());
  }
}
