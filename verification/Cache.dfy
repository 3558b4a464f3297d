/** The in-memory cache: a hot store, and the snapshot that is being written to disk. */
module Caches {
  import opened Values
  import opened MapSums
  import opened CacheModel
  import opened RangeDelete
  import opened ByteCodes

  datatype WriteStatus = Written | LimitExceeded | TypeConflict

  class Cache {
    var size: nat
    var snapshotSize: nat
    var store: map<Key, Entry>
    var maxSize: nat
    var snapshot: Cache?
    var snapshotting: bool
    const kinds: Kinds

    /** The values written under each key of the store since they were last dropped, in order. */
    ghost var log: map<Key, seq<Value>>

    /** The store means its log, and everything in it is counted. */
    ghost predicate Own()
      reads this
    {
      size < TWO64 && Sum(store, Weight(kinds)) <= size && AllHold(store, log, kinds)
    }

    ghost predicate Valid()
      reads this, snapshot
    {
      && Own() && size + snapshotSize < TWO64
      && if snapshot == null then snapshotSize == 0 && !snapshotting
         else && snapshot != this && snapshot.Own() && snapshot.kinds == kinds
              && snapshot.snapshotSize == 0 && snapshotSize == snapshot.size
    }

    ghost function SnapshotLog(): map<Key, seq<Value>>
      reads this, snapshot
    {
      if snapshot == null then map[] else snapshot.log
    }

    constructor (maxSize: nat, kinds: Kinds)
      ensures Valid() && snapshot == null && store == map[] && log == map[] && size == 0
      ensures this.maxSize == maxSize && this.kinds == kinds && snapshotSize == 0 && !snapshotting
    {
      size, snapshotSize, store, log := 0, 0, map[], map[];
      this.maxSize, this.kinds := maxSize, kinds;
      snapshot, snapshotting := null, false;
      new;
      SumNone(Weight(kinds));
    }

    // ---------------------------------------------------------------- sizes, modulo 2^64

    function Size(): nat
      reads this
    {
      (size + snapshotSize) % TWO64
    }

    method IncreaseSize(delta: nat)
      requires size + delta < TWO64
      modifies this`size
      ensures size == old(size) + delta
    {
      size := (size + delta) % TWO64;
    }

    /** Subtracts by adding the complement; exact because no more is taken than was counted. */
    method DecreaseSize(delta: nat)
      requires delta <= size < TWO64
      modifies this`size
      ensures size == old(size) - delta
    {
      size := (size + (TWO64 - 1 - (delta + TWO64 - 1) % TWO64)) % TWO64;
    }

    // ---------------------------------------------------------------- writing

    method AllTagged(vs: seq<Value>, tag: nat) returns (ok: bool)
      ensures ok <==> Uniform(vs, tag, kinds)
    {
      for i := 0 to |vs|
        invariant Uniform(vs[..i], tag, kinds)
      {
        if Tag(kinds(vs[i].payload)) != tag {
          return false;
        }
      }
      return true;
    }

    /** Adds values to the entry of `key`, creating it if needed; refuses values of another type. */
    method StoreWrite(key: Key, vs: seq<Value>) returns (newKey: bool, ok: bool)
      requires AllHold(store, log, kinds)
      modifies this`store, this`log
      ensures ok <==> old(Fitting(store, key, vs, kinds))
      ensures newKey <==> ok && key !in old(store)
      ensures !ok ==> store == old(store) && log == old(log)
      ensures ok ==> store == old(store[key := Added(store, key, vs, kinds)])
      ensures ok ==> log == old(log[key := LogOf(log, key) + vs])
      ensures AllHold(store, log, kinds)
      ensures !ok <==> old(Clashes(store, key, vs, kinds))
    {
      hide SizeOf, View, AllHold, LogOf, Fitting, Added, Uniform, Tag, Clashes;
      FittingExactly(store, log, key, vs, kinds);
      if Fitting(store, key, vs, kinds) {
        WriteHolds(store, log, key, vs, kinds);
      }
      if key in store {
        FittingOld(store, key, vs, kinds);
        var e := store[key];
        if |vs| > 0 {
          ok := AllTagged(vs, e.vtype);
          if !ok {
            return false, false;
          }
        }
        store := store[key := Entry(e.values + vs, e.vtype)];
        log := log[key := LogOf(log, key) + vs];
        return false, true;
      }
      FittingNew(store, key, vs, kinds);
      var tag := if |vs| == 0 then 0 else Tag(kinds(vs[0].payload));
      ok := AllTagged(vs, tag);
      if !ok {
        return false, false;
      }
      store := store[key := Entry(vs, tag)];
      log := log[key := LogOf(log, key) + vs];
      return true, true;
    }

    /** Writes the values of one key, within the memory limit. */
    method Write(key: Key, vs: seq<Value>) returns (st: WriteStatus)
      requires Valid() && size + snapshotSize + SizeOf(vs, kinds) + |key| < TWO64
      modifies this`size, this`store, this`log
      ensures Valid()
      ensures st == if maxSize > 0 && old(Size()) + SizeOf(vs, kinds) > maxSize then LimitExceeded
                    else if old(Fitting(store, key, vs, kinds)) then Written else TypeConflict
      ensures st == Written ==> log == old(log[key := LogOf(log, key) + vs])
      ensures st == Written ==> size == old(size) + old(Charged(store, kinds))(key, vs)
      ensures st != Written ==> log == old(log) && store == old(store) && size == old(size)
      ensures st == TypeConflict <==>
              !(maxSize > 0 && old(Size()) + SizeOf(vs, kinds) > maxSize) && old(Clashes(store, key, vs, kinds))
      ensures st == Written && |vs| == 1 ==>
                size == old(size) + (if key in old(store) then 0 else |key|) + 8 + match kinds(vs[0].payload)
                                                                                   case StringKind(n) => n
                                                                                   case BooleanKind => 1
                                                                                   case FloatKind => 8
                                                                                   case IntegerKind => 8
                                                                                   case UnsignedKind => 8
    {
      hide SizeOf, View, AllHold, Sum, Clashes, Fitting, Added, LogOf, Charged;
      FittingExactly(store, log, key, vs, kinds);
      ChargedFitting(store, key, vs, kinds);
      if |vs| == 1 {
        assert vs == [vs[0]];
        OneSize(vs[0], kinds);
      }
      var added := SizeOf(vs, kinds);
      var n := (Size() + added) % TWO64;
      if maxSize > 0 && n > maxSize {
        return LimitExceeded;
      }
      if Fitting(store, key, vs, kinds) {
        WriteHolds(store, log, key, vs, kinds);
      }
      var newKey, ok := StoreWrite(key, vs);
      if !ok {
        return TypeConflict;
      }
      if newKey {
        added := added + |key|;
      }
      IncreaseSize(added);
      return Written;
    }

    method TotalSize(values: map<Key, seq<Value>>) returns (n: nat)
      ensures n == Sum(values, Sizes(kinds))
    {
      hide SizeOf, Sum;
      n := 0;
      var rest := values;
      while rest != map[]
        invariant n + Sum(rest, Sizes(kinds)) == Sum(values, Sizes(kinds))
        decreases |rest|
      {
        assert rest.Keys != {};
        var k :| k in rest.Keys;
        SumRemove(rest, k, Sizes(kinds));
        Less(rest, k);
        n := n + SizeOf(rest[k], kinds);
        rest := rest - {k};
      }
      SumNone(Sizes(kinds));
    }

    /** Writes one key of several, correcting the size that was added for all of them beforehand. */
    method WriteOne(key: Key, vs: seq<Value>) returns (ok: bool)
      requires AllHold(store, log, kinds) && SizeOf(vs, kinds) <= size && size + |key| < TWO64
      modifies this`size, this`store, this`log
      ensures AllHold(store, log, kinds) && (ok <==> old(Fitting(store, key, vs, kinds)))
      ensures State(store, log, size) == old(WroteOne(State(store, log, size), key, vs, kinds))
    {
      hide SizeOf, View, AllHold, Sum;
      if Fitting(store, key, vs, kinds) {
        WriteHolds(store, log, key, vs, kinds);
      }
      var newKey;
      newKey, ok := StoreWrite(key, vs);
      if !ok {
        DecreaseSize(SizeOf(vs, kinds));
      }
      if newKey {
        IncreaseSize(|key|);
      }
    }

    /** Writes several keys; those of a wrong type are refused and the others still written. */
    method WriteMulti(values: map<Key, seq<Value>>) returns (st: WriteStatus)
      requires Valid()
      requires size + snapshotSize + Sum(values, Sizes(kinds)) + Sum(values, KeyLengths()) < TWO64
      modifies this`size, this`store, this`log
      ensures Valid()
      ensures st == if maxSize > 0 && old(Size()) + Sum(values, Sizes(kinds)) > maxSize then LimitExceeded
                    else if old(AllFit(store, values, kinds)) then Written else TypeConflict
      ensures st == LimitExceeded ==> log == old(log) && store == old(store) && size == old(size)
      ensures st != LimitExceeded ==> Logged(old(log), log, old(store), values, kinds)
      ensures st != LimitExceeded ==> size == old(size) + Sum(values, old(Charged(store, kinds)))
      ensures st == TypeConflict <==>
              && !(maxSize > 0 && old(Size()) + Sum(values, Sizes(kinds)) > maxSize)
              && exists k :: k in values && old(Clashes(store, k, values[k], kinds))
    {
      hide SizeOf, View, AllHold, Sum, Logged, AllFit, Clashes;
      AllFitExactly(store, log, values, kinds);
      var added := TotalSize(values);
      if maxSize > 0 && (Size() + added) % TWO64 > maxSize {
        return LimitExceeded;
      }
      IncreaseSize(added);
      st := WriteEach(values, State(store, log, old(size)));
    }

    method WriteEach(values: map<Key, seq<Value>>, ghost s0: State) returns (st: WriteStatus)
      requires AllHold(store, log, kinds) && Sum(store, Weight(kinds)) <= s0.size
      requires s0.store == store && s0.log == log && size == s0.size + Sum(values, Sizes(kinds))
      requires size + snapshotSize + Sum(values, KeyLengths()) < TWO64
      modifies this`size, this`store, this`log
      ensures AllHold(store, log, kinds) && Sum(store, Weight(kinds)) <= size && size + snapshotSize < TWO64
      ensures st == if AllFit(s0.store, values, kinds) then Written else TypeConflict
      ensures Logged(s0.log, log, s0.store, values, kinds)
      ensures size == s0.size + Sum(values, Charged(s0.store, kinds))
    {
      hide *;
      st := Written;
      var rest := values;
      ghost var limit: nat := TWO64 - snapshotSize;
      HalfwayStart(s0, values, limit, kinds);
      NoneTried(s0.store, values, kinds);
      while rest != map[]
        invariant Halfway(s0, State(store, log, size), values, rest, limit, kinds)
        invariant st == if TriedFit(s0.store, values, rest, kinds) then Written else TypeConflict
        decreases |rest|
      {
        assert rest.Keys != {};
        var k :| k in rest.Keys;
        Less(rest, k);
        ghost var s := State(store, log, size);
        HalfwayAt(s0, s, values, rest, k, limit, kinds);
        TriedNext(s0.store, values, rest, k, kinds);
        HalfwayNext(s0, s, values, rest, k, limit, kinds);
        var ok := WriteOne(k, rest[k]);
        if !ok {
          st := TypeConflict;
        }
        rest := rest - {k};
      }
      HalfwayEnd(s0, State(store, log, size), values, limit, kinds);
      AllTried(s0.store, values, kinds);
    }

    /** All values of an entry are of one type. */
    lemma {:induction false} EntriesOfOneKind(key: Key)
      requires Valid() && key in store
      ensures OneKind(store[key].values, kinds)
    {
      hide SizeOf, View, Sum, OneKind, Tag;
      HeldAt(store, log, key, kinds);
      UniformKind(store[key].values, store[key].vtype, kinds);
    }

    // ---------------------------------------------------------------- snapshots

    /** Moves the hot store into the snapshot and starts an empty one. */
    method Freeze()
      requires Valid() && snapshot != null && snapshotSize == 0
      modifies this`size, this`snapshotSize, this`store, this`log, snapshot
      ensures Valid()
      ensures snapshot.log == old(log) && snapshot.size == old(size)
      ensures log == map[] && store == map[] && size == 0
      ensures SameReads(old(snapshot.log), old(log), snapshot.log, log)
    {
      hide SizeOf, View, AllHold, Sum, SameReads;
      FreezeReads(snapshot.store, snapshot.log, log, kinds);
      snapshot.store, store := store, snapshot.store;
      var total := Size();
      snapshot.size := total;
      snapshotSize := total;
      store := map[];
      size := 0;
      snapshot.log, log := log, map[];
      EmptyHolds(kinds);
    }

    /** Hands out the snapshot to be written: a failed one again, or else the hot store. */
    method Snapshot() returns (snap: Cache?)
      requires Valid()
      modifies this`size, this`snapshotSize, this`store, this`log, this`snapshot, this`snapshotting, snapshot
      ensures Valid() && SameReads(old(SnapshotLog()), old(log), SnapshotLog(), log)
      ensures size + snapshotSize == old(size + snapshotSize)
      ensures old(snapshotting) ==> snap == null && log == old(log) && snapshot == old(snapshot)
      ensures !old(snapshotting) ==> snap == snapshot && snap != null && snapshotting
      ensures !old(snapshotting) && old(snapshotSize) > 0 ==>
                snapshot == old(snapshot) && snapshot.log == old(SnapshotLog()) && log == old(log)
      ensures !old(snapshotting) && old(snapshotSize) == 0 ==>
                && snapshot.log == old(log) && snapshot.size == old(size)
                && log == map[] && store == map[] && size == 0
    {
      hide SizeOf, View, AllHold, Sum, SameReads;
      ReadsRefl(SnapshotLog(), log);
      if snapshotting {
        return null;
      }
      snapshotting := true;
      if snapshot == null {
        snapshot := new Cache(0, kinds);
      }
      if snapshot.Size() > 0 {
        return snapshot;
      }
      Freeze();
      return snapshot;
    }

    /** Ends a snapshot; a successful one is dropped, a failed one stays to be retried. */
    method ClearSnapshot(success: bool)
      requires Valid() && snapshot != null
      modifies this`snapshot, this`snapshotting, this`snapshotSize
      ensures Valid() && !snapshotting && snapshot != null
      ensures success ==> SnapshotLog() == map[] && snapshotSize == 0
      ensures !success ==> snapshot == old(snapshot)
    {
      hide SizeOf, View, AllHold, Sum;
      snapshotting := false;
      if success {
        snapshot := new Cache(0, kinds);
        snapshotSize := 0;
      }
    }

    // ---------------------------------------------------------------- reading

    /** Sorts and deduplicates one entry in place. */
    method DeduplicateEntry(key: Key)
      requires Own() && key in store
      modifies this`store
      ensures Own() && store.Keys == old(store.Keys)
      ensures Ascending(store[key].values) && View(store[key].values) == View(LogOf(log, key))
      ensures forall k :: k in store && k != key ==> store[k] == old(store)[k]
    {
      hide SizeOf, View, AllHold, Sum;
      HeldAt(store, log, key, kinds);
      if |store[key].values| <= 1 {
        return;
      }
      var d := Deduplicated(store[key].values);
      DedupHolds(store, log, key, d, kinds);
      store := store[key := store[key].(values := d)];
    }

    /** Sorts and deduplicates every entry in place. */
    method Deduplicate()
      requires Own()
      modifies this`store
      ensures Own() && store.Keys == old(store.Keys)
      ensures forall k :: k in store ==> Ascending(store[k].values)
    {
      hide SizeOf, View, AllHold, Sum, Ascending;
      var todo := store.Keys;
      while todo != {}
        invariant Own() && store.Keys == old(store.Keys) && todo <= store.Keys
        invariant forall k :: k in store && k !in todo ==> Ascending(store[k].values)
        decreases |todo|
      {
        var k :| k in todo;
        DeduplicateEntry(k);
        todo := todo - {k};
      }
    }

    /** The values of a key, sorted, the last write winning. */
    method Values(key: Key) returns (vs: seq<Value>)
      requires Valid()
      modifies this`store, (if snapshot == null then {} else {snapshot})`store
      ensures Valid() && Ascending(vs) && View(vs) == Overlaid(SnapshotLog(), log, key)
      ensures store.Keys == old(store.Keys) && (key in store ==> Ascending(store[key].values))
      ensures snapshot != null && key in snapshot.store ==> Ascending(snapshot.store[key].values)
    {
      hide SizeOf, View, AllHold, Sum, Ascending;
      var frozen, hot := [], [];
      EmptyView();
      HeldAt(store, log, key, kinds);
      if key in store {
        DeduplicateEntry(key);
        hot := store[key].values;
      }
      if snapshot != null {
        HeldAt(snapshot.store, snapshot.log, key, kinds);
        if key in snapshot.store {
          snapshot.DeduplicateEntry(key);
          frozen := snapshot.store[key].values;
        }
      }
      ViewAppend(frozen, hot);
      vs := Deduplicated(frozen + hot);
    }

    /** Cuts the range out of the entry of one key, and drops the key if nothing is left. */
    method DeleteOne(k: Key, min: int, max: int)
      requires Valid()
      modifies this`size, this`store, this`log
      ensures Valid() && store == DeletedOne(old(store), k, min, max)
      ensures log == if k in store then old(log)[k := store[k].values] else old(log) - {k}
      ensures old(size) - size == old(Sum(store, Weight(kinds))) - Sum(store, Weight(kinds))
    {
      hide SizeOf, View, AllHold, Sum, Excluded;
      SameKeys(store, log, kinds);
      if k !in store {
        assert log - {k} == log;
        return;
      }
      DeleteHolds(store, log, k, min, max, kinds);
      var origSize := SizeOf(store[k].values, kinds);
      if min == MIN_TIME && max == MAX_TIME {
        DecreaseSize(origSize + |k|);
        store, log := store - {k}, log - {k};
        return;
      }
      var left := Filter(store[k].values, min, max);
      if |left| == 0 {
        DecreaseSize(origSize + |k|);
        store, log := store - {k}, log - {k};
        return;
      }
      DecreaseSize(origSize - SizeOf(left, kinds));
      store, log := store[k := Entry(left, store[k].vtype)], log[k := left];
    }

    /** Deletes a time range from the hot values of the keys; what a snapshot holds of them stays visible. */
    method DeleteRange(keys: seq<Key>, min: int, max: int)
      requires Valid()
      modifies this`size, this`store, this`log
      ensures Valid() && store == Deleted(old(store), keys, min, max) && Relogged(old(log), log, store, keys)
      ensures old(size) - size == old(Sum(store, Weight(kinds))) - Sum(store, Weight(kinds))
    {
      hide SizeOf, View, AllHold, Sum, DeletedOne, Relogged;
      ReloggedNone(log, store, kinds);
      for i := 0 to |keys|
        invariant Valid() && store == Deleted(old(store), keys[..i], min, max)
        invariant Relogged(old(log), log, store, keys[..i])
        invariant old(size) - size == old(Sum(store, Weight(kinds))) - Sum(store, Weight(kinds))
      {
        assert keys[..i + 1] == keys[..i] + [keys[i]];
        ReloggedNext(old(log), log, store, keys[..i], keys[i], min, max);
        DeletedSnoc(old(store), keys[..i], keys[i], min, max);
        DeleteOne(keys[i], min, max);
      }
      assert keys[..|keys|] == keys;
    }

    /** Drops the hot values of the keys. */
    method Delete(keys: seq<Key>)
      requires Valid()
      modifies this`size, this`store, this`log
      ensures Valid() && log == old(log) - (set i | 0 <= i < |keys| :: keys[i])
      ensures store == old(store) - (set i | 0 <= i < |keys| :: keys[i])
      ensures old(size) - size == old(Sum(store, Weight(kinds))) - Sum(store, Weight(kinds))
    {
      hide SizeOf, View, AllHold, Sum, Deleted;
      SameKeys(store, log, kinds);
      DeletedWhole(store, keys);
      DeleteRange(keys, MIN_TIME, MAX_TIME);
      assert forall k :: k in keys <==> k in (set i | 0 <= i < |keys| :: keys[i]);
    }
  }

  lemma {:induction false} ChargedFitting(store: map<Key, Entry>, k: Key, vs: seq<Value>, kinds: Kinds)
    ensures Fitting(store, k, vs, kinds) ==>
              Charged(store, kinds)(k, vs) == SizeOf(vs, kinds) + if k in store then 0 else |k|
  {
  }

  lemma {:induction false} AllFitExactly(store: map<Key, Entry>, log: map<Key, seq<Value>>,
                                         values: map<Key, seq<Value>>, kinds: Kinds)
    requires AllHold(store, log, kinds)
    ensures AllFit(store, values, kinds) <==> !exists k :: k in values && Clashes(store, k, values[k], kinds)
  {
    hide AllHold, Fitting, Clashes;
    forall k | k in values ensures Fitting(store, k, values[k], kinds) <==> !Clashes(store, k, values[k], kinds) {
      FittingExactly(store, log, k, values[k], kinds);
    }
  }

  lemma {:induction false} FittingOld(store: map<Key, Entry>, k: Key, vs: seq<Value>, kinds: Kinds)
    requires k in store
    ensures Fitting(store, k, vs, kinds) <==> vs == [] || Uniform(vs, store[k].vtype, kinds)
    ensures Added(store, k, vs, kinds) == Entry(store[k].values + vs, store[k].vtype)
  {
  }

  lemma {:induction false} FittingNew(store: map<Key, Entry>, k: Key, vs: seq<Value>, kinds: Kinds)
    requires k !in store
    ensures var tag := if |vs| == 0 then 0 else Tag(kinds(vs[0].payload));
            (Fitting(store, k, vs, kinds) <==> Uniform(vs, tag, kinds)) && Added(store, k, vs, kinds) == Entry(vs, tag)
  {
    hide Uniform;
    assert [] + vs == vs;
  }

  /** What is not left fits. */
  ghost predicate TriedFit(store: map<Key, Entry>, values: map<Key, seq<Value>>, rest: map<Key, seq<Value>>,
                           kinds: Kinds)
  {
    AllFit(store, values - rest.Keys, kinds)
  }

  lemma {:induction false} NoneTried(store: map<Key, Entry>, values: map<Key, seq<Value>>, kinds: Kinds)
    ensures TriedFit(store, values, values, kinds)
  {
  }

  lemma {:induction false} TriedNext(store: map<Key, Entry>, values: map<Key, seq<Value>>, rest: map<Key, seq<Value>>,
                                     k: Key, kinds: Kinds)
    requires Part(rest, values) && k in rest
    ensures TriedFit(store, values, rest - {k}, kinds)
       <==> TriedFit(store, values, rest, kinds) && Fitting(store, k, rest[k], kinds)
  {
    hide AllFit, Fitting;
    AllFitNext(store, values, rest, k, kinds);
  }

  lemma {:induction false} AllTried(store: map<Key, Entry>, values: map<Key, seq<Value>>, kinds: Kinds)
    ensures TriedFit(store, values, map[], kinds) <==> AllFit(store, values, kinds)
  {
    hide AllFit;
    ghost var none: map<Key, seq<Value>> := map[];
    assert values - none.Keys == values;
  }

  lemma {:induction false} ReadsRefl(snap: map<Key, seq<Value>>, hot: map<Key, seq<Value>>)
    ensures SameReads(snap, hot, snap, hot)
  {
  }

  lemma {:induction false} EmptyHolds(kinds: Kinds)
    ensures AllHold(map[], map[], kinds) && Sum(map[], Weight(kinds)) == 0 && View(LogOf(map[], "")) == map[]
    ensures View([]) == map[]
  {
  }
}
