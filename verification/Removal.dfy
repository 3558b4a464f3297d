/** Removing a data node: its shards lose an owner, and shards left without one are given to a survivor. */
module Removal {
  import opened Options
  import opened Sequences
  import opened Cluster

  // ---------------------------------------------------------------- one owner list

  /** The list without its last occurrence of `id`. */
  ghost function Relinquished(owners: seq<NodeId>, id: NodeId): seq<NodeId> {
    if owners == [] then []
    else if owners[|owners| - 1] == id then owners[..|owners| - 1]
    else Relinquished(owners[..|owners| - 1], id) + [owners[|owners| - 1]]
  }

  ghost function Occurs(owners: seq<NodeId>, n: NodeId): nat {
    if owners == [] then 0 else Occurs(owners[..|owners| - 1], n) + if owners[|owners| - 1] == n then 1 else 0
  }

  /** One occurrence of `id` goes, all else stays: the id is gone exactly if it occurred at most once. */
  lemma {:induction false} RelinquishedOccurs(owners: seq<NodeId>, id: NodeId, n: NodeId)
    ensures Occurs(Relinquished(owners, id), n) ==
            if n == id && Occurs(owners, id) > 0 then Occurs(owners, id) - 1 else Occurs(owners, n)
  {
    if owners != [] {
      var p, x := owners[..|owners| - 1], owners[|owners| - 1];
      if x != id {
        RelinquishedOccurs(p, id, n);
        assert (Relinquished(p, id) + [x])[..|Relinquished(p, id)|] == Relinquished(p, id);
      }
    }
  }

  lemma {:induction false} OccursIn(owners: seq<NodeId>, n: NodeId)
    ensures Occurs(owners, n) > 0 <==> n in owners
    ensures Distinct(owners) ==> Occurs(owners, n) <= 1
  {
    if owners != [] {
      OccursIn(owners[..|owners| - 1], n);
      assert owners == owners[..|owners| - 1] + [owners[|owners| - 1]];
    }
  }

  // ---------------------------------------------------------------- counts and the choice of an owner

  type Freqs = map<NodeId, nat>

  ghost predicate Minimal(freqs: Freqs, n: NodeId) {
    n in freqs && forall m :: m in freqs ==> freqs[n] <= freqs[m]
  }

  /** A node with the fewest shards, and the counts with one more for it; none if there is no node. */
  method NewShardOwner(freqs: Freqs) returns (owner: Option<NodeId>, freqs': Freqs)
    ensures owner.None? <==> freqs == map[]
    ensures owner.Some? ==> Minimal(freqs, owner.value) && freqs' == freqs[owner.value := freqs[owner.value] + 1]
  {
    var minId: int, minFreq: nat := -1, 0;
    var rest := freqs.Keys;
    while rest != {}
      invariant rest <= freqs.Keys
      invariant minId == -1 ==> rest == freqs.Keys
      invariant minId != -1 ==> minId >= 0 && minId in freqs && minFreq == freqs[minId]
      invariant minId != -1 ==> forall m :: m in freqs && m !in rest ==> minFreq <= freqs[m]
      decreases |rest|
    {
      var id :| id in rest;
      var freq := freqs[id];
      if minId == -1 || freq < minFreq {
        minId, minFreq := id, freq;
      }
      rest := rest - {id};
    }
    if minId < 0 {
      assert freqs.Keys == {};
      return None, freqs;
    }
    return Some(minId), freqs[minId := freqs[minId] + 1];
  }

  /** Owners chosen one after the other, each with the fewest shards at its turn. */
  ghost predicate Greedy(freqs: Freqs, ws: seq<NodeId>) {
    ws == [] || (Minimal(freqs, ws[0]) && Greedy(freqs[ws[0] := freqs[ws[0]] + 1], ws[1..]))
  }

  /** The counts after the choices. */
  ghost function Tally(freqs: Freqs, ws: seq<NodeId>): Freqs
    requires Greedy(freqs, ws)
  {
    if ws == [] then freqs else Tally(freqs[ws[0] := freqs[ws[0]] + 1], ws[1..])
  }

  /** Counts only grow, by one for each choice. */
  lemma {:induction false} TallyCounts(freqs: Freqs, ws: seq<NodeId>, n: NodeId)
    requires Greedy(freqs, ws) && n in freqs
    ensures Tally(freqs, ws).Keys == freqs.Keys
    ensures Tally(freqs, ws)[n] == freqs[n] + Occurs(ws, n)
    decreases |ws|
  {
    if ws != [] {
      TallyCounts(freqs[ws[0] := freqs[ws[0]] + 1], ws[1..], n);
      OccursCons(ws, n);
    }
  }

  lemma {:induction false} OccursCons(ws: seq<NodeId>, n: NodeId)
    requires ws != []
    ensures Occurs(ws, n) == Occurs(ws[1..], n) + if ws[0] == n then 1 else 0
  {
    if |ws| > 1 {
      assert ws[1..][..|ws| - 2] == ws[..|ws| - 1][1..];
      OccursCons(ws[..|ws| - 1], n);
    }
  }

  /** Greedy choices balance the load: whoever was chosen ends up at most one above anyone else. */
  lemma {:induction false} GreedyBalanced(freqs: Freqs, ws: seq<NodeId>, w: NodeId, m: NodeId)
    requires Greedy(freqs, ws) && w in ws && m in freqs
    ensures w in Tally(freqs, ws) && m in Tally(freqs, ws)
    ensures Tally(freqs, ws)[w] <= Tally(freqs, ws)[m] + 1
    decreases |ws|
  {
    var next := freqs[ws[0] := freqs[ws[0]] + 1];
    TallyCounts(freqs, ws, m);
    if w in ws[1..] {
      GreedyBalanced(next, ws[1..], w, m);
    } else {
      assert ws[0] == w;
      TallyCounts(freqs, ws, w);
      OccursCons(ws, w);
      OccursIn(ws[1..], w);
    }
  }

  // ---------------------------------------------------------------- one group

  /** How many shards of the group a node owns. */
  ghost function Load(shards: seq<Shard>, n: NodeId): nat {
    if shards == [] then 0 else Load(shards[..|shards| - 1], n) + Occurs(shards[|shards| - 1].owners, n)
  }

  /** The counts are the loads of the nodes that own something. */
  ghost predicate Counts(freqs: Freqs, shards: seq<Shard>) {
    forall n :: (n in freqs <==> Load(shards, n) > 0) && (n in freqs ==> freqs[n] == Load(shards, n))
  }

  ghost predicate Stripped(before: seq<Shard>, after: seq<Shard>, id: NodeId) {
    |after| == |before| &&
    forall i :: 0 <= i < |before| ==> after[i] == Shard(before[i].id, Relinquished(before[i].owners, id))
  }

  /** `at` lists the shards without owners, in order. */
  ghost predicate Orphans(at: seq<nat>, shards: seq<Shard>) {
    && (forall k :: 0 <= k < |at| ==> at[k] < |shards| && shards[at[k]].owners == [])
    && (forall k, l :: 0 <= k < l < |at| ==> at[k] < at[l])
    && (forall i :: 0 <= i < |shards| && shards[i].owners == [] ==> i in at)
  }

  /** `orphans` are the shards at `at`. */
  ghost predicate Listed(orphans: seq<Shard>, at: seq<nat>, shards: seq<Shard>) {
    |orphans| == |at| && forall k :: 0 <= k < |at| ==> at[k] < |shards| && orphans[k] == shards[at[k]]
  }

  lemma {:induction false} OccursSnoc(p: seq<NodeId>, x: NodeId, n: NodeId)
    ensures Occurs(p + [x], n) == Occurs(p, n) + if x == n then 1 else 0
  {
    assert (p + [x])[..|p|] == p;
  }

  lemma {:induction false} LoadSnoc(p: seq<Shard>, s: Shard, n: NodeId)
    ensures Load(p + [s], n) == Load(p, n) + Occurs(s.owners, n)
  {
    assert (p + [s])[..|p|] == p;
  }

  lemma {:induction false} LoadAt(shards: seq<Shard>, i: nat, n: NodeId)
    requires i < |shards|
    ensures Occurs(shards[i].owners, n) <= Load(shards, n)
  {
    if i < |shards| - 1 {
      LoadAt(shards[..|shards| - 1], i, n);
    }
  }

  lemma {:induction false} LoadFrom(shards: seq<Shard>, n: NodeId)
    ensures Load(shards, n) > 0 <==> exists i :: 0 <= i < |shards| && n in shards[i].owners
  {
    if shards != [] {
      var p := shards[..|shards| - 1];
      LoadFrom(p, n);
      OccursIn(shards[|shards| - 1].owners, n);
      if Load(p, n) > 0 {
        var i :| 0 <= i < |p| && n in p[i].owners;
        assert n in shards[i].owners;
      }
      if Occurs(shards[|shards| - 1].owners, n) > 0 {
        assert n in shards[|shards| - 1].owners;
      }
    }
  }

  // ---------------------------------------------------------------- statuses

  type StatusMap = map<nat, map<NodeId, ShardStatus>>

  /** Some shard with the id `sid` lists the node. */
  ghost predicate Lists(shards: seq<Shard>, sid: nat, id: NodeId) {
    exists i :: 0 <= i < |shards| && shards[i].id == sid && id in shards[i].owners
  }

  /** The node lost its status for every shard that lists it, and nothing else changed. */
  ghost predicate Unlisted(before: StatusMap, after: StatusMap, shards: seq<Shard>, id: NodeId) {
    && after.Keys == before.Keys
    && forall sid :: sid in before ==> after[sid] == if Lists(shards, sid, id) then before[sid] - {id} else before[sid]
  }

  lemma {:induction false} ListsAppend(a: seq<Shard>, b: seq<Shard>, sid: nat, id: NodeId)
    ensures Lists(a + b, sid, id) <==> Lists(a, sid, id) || Lists(b, sid, id)
  {
    var c := a + b;
    if Lists(a, sid, id) {
      var i :| 0 <= i < |a| && a[i].id == sid && id in a[i].owners;
      assert c[i] == a[i];
    }
    if Lists(b, sid, id) {
      var i :| 0 <= i < |b| && b[i].id == sid && id in b[i].owners;
      assert c[|a| + i] == b[i];
    }
    if Lists(c, sid, id) {
      var i :| 0 <= i < |c| && c[i].id == sid && id in c[i].owners;
      assert if i < |a| then a[i] == c[i] else b[i - |a|] == c[i];
    }
  }

  lemma {:induction false} UnlistedNone(status: StatusMap, id: NodeId)
    ensures Unlisted(status, status, [], id)
  {
  }

  lemma {:induction false} UnlistedMore(s0: StatusMap, s1: StatusMap, s2: StatusMap, a: seq<Shard>, b: seq<Shard>,
                                        id: NodeId)
    requires Unlisted(s0, s1, a, id) && Unlisted(s1, s2, b, id)
    ensures Unlisted(s0, s2, a + b, id)
  {
    hide Lists;
    forall sid | sid in s0 ensures s2[sid] == if Lists(a + b, sid, id) then s0[sid] - {id} else s0[sid] {
      ListsAppend(a, b, sid, id);
      assert s0[sid] - {id} - {id} == s0[sid] - {id};
    }
  }

  /** One owner of a shard: a status is dropped if it is the node. */
  lemma {:induction false} UnlistedOwner(s0: StatusMap, s1: StatusMap, sid: nat, owners: seq<NodeId>, o: NodeId,
                                         id: NodeId)
    requires Unlisted(s0, s1, [Shard(sid, owners)], id)
    ensures Unlisted(s0, if o == id && sid in s1 then s1[sid := s1[sid] - {id}] else s1, [Shard(sid, owners + [o])], id)
  {
    var a, b := [Shard(sid, owners)], [Shard(sid, owners + [o])];
    forall x ensures Lists(b, x, id) <==> Lists(a, x, id) || (x == sid && o == id) {
      assert a[0].id == sid && b[0].id == sid;
    }
    if sid in s0 {
      assert s0[sid] - {id} - {id} == s0[sid] - {id};
    }
  }

  lemma {:induction false} UnlistedStart(status: StatusMap, sid: nat, id: NodeId)
    ensures Unlisted(status, status, [Shard(sid, [])], id)
  {
  }

  /**
   * A new group keeps one status for each owner. After a removal that is still so of the shards that kept an
   * owner, but not of those that were reassigned: the new owner is given none.
   */
  lemma {:induction false} StatusAfter(owners: seq<NodeId>, id: NodeId, w: NodeId)
    requires Distinct(owners) && w != id
    ensures var left := Relinquished(owners, id);
            Statuses(owners) - {id} == Statuses(if left == [] then [w] else left) <==> left != []
  {
    hide Relinquished, Occurs;
    var left := Relinquished(owners, id);
    forall n ensures n in left <==> n in owners && n != id {
      RelinquishedOccurs(owners, id, n);
      OccursIn(owners, n);
      OccursIn(left, n);
    }
    assert left == [] ==> w in Statuses([w]) && w !in Statuses(owners) - {id};
  }

  // ---------------------------------------------------------------- the loop over a group

  /** Counts the owners of one shard and takes `id` off it. */
  method StripShard(s: Shard, id: NodeId, freqs: Freqs, status: StatusMap, ghost before: seq<Shard>)
    returns (t: Shard, freqs': Freqs, status': StatusMap)
    requires Counts(freqs, before)
    ensures Counts(freqs', before + [s]) && t == Shard(s.id, Relinquished(s.owners, id))
            && Unlisted(status, status', [s], id)
  {
    hide Occurs, Load, Relinquished, Counts, Unlisted;
    var nodeIdx := -1;
    freqs', status' := freqs, status;
    StartCount(freqs, before, s);
    UnlistedStart(status, s.id, id);
    assert s.owners[..0] == [];
    for i := 0 to |s.owners|
      invariant Counts(freqs', before + [Shard(s.id, s.owners[..i])])
      invariant LastAt(s.owners[..i], id, nodeIdx)
      invariant Unlisted(status, status', [Shard(s.id, s.owners[..i])], id)
    {
      assert s.owners[..i + 1] == s.owners[..i] + [s.owners[i]];
      UnlistedOwner(status, status', s.id, s.owners[..i], s.owners[i], id);
      if s.owners[i] == id {
        nodeIdx := i;
        if s.id in status' {
          status' := status'[s.id := status'[s.id] - {id}];
        }
      }
      var o := s.owners[i];
      CountOne(freqs', before, s.id, s.owners[..i], o);
      freqs' := freqs'[o := (if o in freqs' then freqs'[o] else 0) + 1];
    }
    assert s.owners[..|s.owners|] == s.owners && Shard(s.id, s.owners) == s;
    RelinquishLast(s.owners, id, nodeIdx);
    var owners := s.owners;
    if nodeIdx > -1 {
      owners := owners[..nodeIdx] + owners[nodeIdx + 1..];
    }
    t := Shard(s.id, owners);
  }

  ghost predicate LastAt(owners: seq<NodeId>, id: NodeId, k: int) {
    && -1 <= k < |owners| && (k >= 0 ==> owners[k] == id)
    && forall i :: k < i < |owners| ==> owners[i] != id
  }

  lemma {:induction false} RelinquishLast(owners: seq<NodeId>, id: NodeId, k: int)
    requires LastAt(owners, id, k)
    ensures Relinquished(owners, id) == if k >= 0 then owners[..k] + owners[k + 1..] else owners
  {
    if owners != [] {
      var n := |owners| - 1;
      var p := owners[..n];
      if k == n {
        assert p + owners[n + 1..] == p;
      } else {
        RelinquishLast(p, id, k);
        assert owners == p + [owners[n]];
        assert k >= 0 ==> p[..k] == owners[..k] && p[k + 1..] + [owners[n]] == owners[k + 1..];
      }
    }
  }

  lemma {:induction false} StartCount(freqs: Freqs, before: seq<Shard>, s: Shard)
    requires Counts(freqs, before)
    ensures Counts(freqs, before + [Shard(s.id, s.owners[..0])])
  {
    hide Load;
    forall n ensures Load(before + [Shard(s.id, s.owners[..0])], n) == Load(before, n) {
      LoadSnoc(before, Shard(s.id, s.owners[..0]), n);
    }
  }

  lemma {:induction false} CountOne(freqs: Freqs, before: seq<Shard>, sid: nat, owners: seq<NodeId>, o: NodeId)
    requires Counts(freqs, before + [Shard(sid, owners)])
    ensures Counts(freqs[o := (if o in freqs then freqs[o] else 0) + 1], before + [Shard(sid, owners + [o])])
  {
    hide Load, Occurs;
    forall n
      ensures Load(before + [Shard(sid, owners + [o])], n) ==
              Load(before + [Shard(sid, owners)], n) + if n == o then 1 else 0
    {
      LoadSnoc(before, Shard(sid, owners), n);
      LoadSnoc(before, Shard(sid, owners + [o]), n);
      OccursSnoc(owners, o, n);
    }
  }

  /** Takes `id` off every shard, counts the owners there were, and lists the shards without one. */
  method StripGroup(shards: seq<Shard>, id: NodeId, status: StatusMap)
    returns (after: seq<Shard>, freqs: Freqs, orphans: seq<Shard>, status': StatusMap, ghost at: seq<nat>)
    ensures Stripped(shards, after, id) && Counts(freqs, shards) && Orphans(at, after)
    ensures Listed(orphans, at, after) && Unlisted(status, status', shards, id)
  {
    hide Relinquished, Load, Counts, Stripped, Orphans, Listed, Unlisted;
    after, freqs, orphans, at := [], map[], [], [];
    status' := status;
    StripNone(shards, id);
    UnlistedNone(status, id);
    assert shards[..0] == [];
    for i := 0 to |shards|
      invariant Stripped(shards[..i], after, id) && Counts(freqs, shards[..i]) && Orphans(at, after)
      invariant |after| == i && Listed(orphans, at, after) && Unlisted(status, status', shards[..i], id)
    {
      assert shards[..i + 1] == shards[..i] + [shards[i]];
      var t;
      ghost var was := status';
      t, freqs, status' := StripShard(shards[i], id, freqs, status', shards[..i]);
      UnlistedMore(status, was, status', shards[..i], [shards[i]], id);
      MoreOrphans(at, after, t);
      MoreListed(orphans, at, after, t);
      MoreStripped(shards[..i], after, id, shards[i], t);
      after := after + [t];
      if |t.owners| == 0 {
        orphans := orphans + [t];
        at := at + [i];
      }
    }
    assert shards[..|shards|] == shards;
  }

  lemma {:induction false} StripNone(shards: seq<Shard>, id: NodeId)
    ensures Stripped(shards[..0], [], id) && Counts(map[], shards[..0]) && Orphans([], []) && Listed([], [], [])
  {
    assert shards[..0] == [];
  }

  lemma {:induction false} MoreStripped(before: seq<Shard>, after: seq<Shard>, id: NodeId, s: Shard, t: Shard)
    requires Stripped(before, after, id) && t == Shard(s.id, Relinquished(s.owners, id))
    ensures Stripped(before + [s], after + [t], id)
  {
    hide Relinquished;
  }

  lemma {:induction false} MoreListed(orphans: seq<Shard>, at: seq<nat>, shards: seq<Shard>, t: Shard)
    requires Listed(orphans, at, shards)
    ensures Listed(orphans, at, shards + [t]) && Listed(orphans + [t], at + [|shards|], shards + [t])
  {
  }

  lemma {:induction false} MoreOrphans(at: seq<nat>, shards: seq<Shard>, t: Shard)
    requires Orphans(at, shards)
    ensures Orphans(if t.owners == [] then at + [|shards|] else at, shards + [t])
  {
    hide Orphans;
    if t.owners == [] {
      OrphanAdded(at, shards, t);
    } else {
      OrphanKept(at, shards, t);
    }
  }

  lemma {:induction false} OrphanKept(at: seq<nat>, shards: seq<Shard>, t: Shard)
    requires Orphans(at, shards) && t.owners != []
    ensures Orphans(at, shards + [t])
  {
    var more := shards + [t];
    forall i | 0 <= i < |more| && more[i].owners == [] ensures i in at {
      assert more[i] == shards[i];
    }
  }

  lemma {:induction false} OrphanAdded(at: seq<nat>, shards: seq<Shard>, t: Shard)
    requires Orphans(at, shards) && t.owners == []
    ensures Orphans(at + [|shards|], shards + [t])
  {
    var more, at' := shards + [t], at + [|shards|];
    assert forall k :: 0 <= k < |at| ==> at'[k] == at[k] && more[at[k]] == shards[at[k]];
    assert at'[|at|] == |shards| && more[|shards|] == t;
    forall i | 0 <= i < |more| && more[i].owners == [] ensures i in at' {
      if i < |shards| {
        assert shards[i].owners == [] && i in at;
      }
    }
  }

  /** The orphans got the owners `ws`, in order; the other shards are as they were. */
  ghost predicate Adopted(before: seq<Shard>, at: seq<nat>, ws: seq<NodeId>, after: seq<Shard>) {
    && |after| == |before| && |ws| <= |at|
    && (forall k :: 0 <= k < |ws| ==> at[k] < |before| && after[at[k]] == Shard(before[at[k]].id, [ws[k]]))
    && (forall i :: 0 <= i < |before| && i !in at[..|ws|] ==> after[i] == before[i])
  }

  ghost predicate DistinctIds(shards: seq<Shard>) {
    forall i, j :: 0 <= i < j < |shards| ==> shards[i].id != shards[j].id
  }

  /** Adds an owner to the first shard with the given id. */
  method AddOwner(shards: seq<Shard>, sid: nat, owner: NodeId, ghost i: nat) returns (after: seq<Shard>)
    requires DistinctIds(shards) && i < |shards| && shards[i].id == sid
    ensures after == shards[i := Shard(sid, shards[i].owners + [owner])]
  {
    after := shards;
    for k := 0 to |shards|
      invariant after == shards && k <= i
    {
      if shards[k].id == sid {
        after := shards[k := Shard(sid, shards[k].owners + [owner])];
        break;
      }
    }
  }

  lemma {:induction false} AdoptedNext(before: seq<Shard>, at: seq<nat>, ws: seq<NodeId>, after: seq<Shard>, w: NodeId)
    requires Adopted(before, at, ws, after) && Orphans(at, before) && |ws| < |at|
    ensures at[|ws|] < |after| && after[at[|ws|]] == before[at[|ws|]]
    ensures Adopted(before, at, ws + [w], after[at[|ws|] := Shard(before[at[|ws|]].id, [w])])
  {
    var k := |ws|;
    var next := after[at[k] := Shard(before[at[k]].id, [w])];
    assert at[..k + 1] == at[..k] + [at[k]];
    assert at[k] !in at[..k];
    forall j | 0 <= j < k + 1 ensures next[at[j]] == Shard(before[at[j]].id, [(ws + [w])[j]]) {
      assert j < k ==> at[j] != at[k];
    }
  }

  lemma {:induction false} GreedySnoc(freqs: Freqs, ws: seq<NodeId>, w: NodeId)
    requires Greedy(freqs, ws) && Minimal(Tally(freqs, ws), w)
    ensures Greedy(freqs, ws + [w])
    ensures w in Tally(freqs, ws) && Tally(freqs, ws + [w]) == Tally(freqs, ws)[w := Tally(freqs, ws)[w] + 1]
    decreases |ws|
  {
    if ws == [] {
      assert ws + [w] == [w] && [w][1..] == [];
    } else {
      assert (ws + [w])[1..] == ws[1..] + [w];
      GreedySnoc(freqs[ws[0] := freqs[ws[0]] + 1], ws[1..], w);
    }
  }

  /** Gives every orphan a new owner; fails exactly if there are orphans but no survivor. */
  method Reassign(shards: seq<Shard>, orphans: seq<Shard>, freqs: Freqs, ghost at: seq<nat>)
    returns (after: seq<Shard>, failed: bool, ghost ws: seq<NodeId>)
    requires DistinctIds(shards) && Orphans(at, shards)
    requires Listed(orphans, at, shards)
    ensures failed <==> freqs == map[] && orphans != []
    ensures !failed ==> |ws| == |at| && Greedy(freqs, ws) && Adopted(shards, at, ws, after)
  {
    hide Orphans, Adopted, Greedy, Tally, Minimal;
    after, failed, ws := shards, false, [];
    var now := freqs;
    StartAdopting(shards, at, freqs);
    for k := 0 to |orphans|
      invariant |ws| == k && Greedy(freqs, ws) && now == Tally(freqs, ws) && (now == map[] <==> freqs == map[])
      invariant Adopted(shards, at, ws, after) && (k > 0 ==> freqs != map[])
    {
      var owner, next := NewShardOwner(now);
      if owner.None? {
        return after, true, ws;
      }
      AdoptedNext(shards, at, ws, after, owner.value);
      GreedySnoc(freqs, ws, owner.value);
      AdoptedIds(shards, at, ws, after);
      OrphanAt(shards, at, k);
      after := AddOwner(after, orphans[k].id, owner.value, at[k]);
      assert [] + [owner.value] == [owner.value];
      now := next;
      ws := ws + [owner.value];
    }
  }

  lemma {:induction false} OrphanAt(shards: seq<Shard>, at: seq<nat>, k: nat)
    requires Orphans(at, shards) && k < |at|
    ensures at[k] < |shards| && shards[at[k]].owners == []
  {
  }

  lemma {:induction false} StartAdopting(shards: seq<Shard>, at: seq<nat>, freqs: Freqs)
    ensures Adopted(shards, at, [], shards) && Greedy(freqs, []) && Tally(freqs, []) == freqs
  {
  }

  lemma {:induction false} AdoptedIds(before: seq<Shard>, at: seq<nat>, ws: seq<NodeId>, after: seq<Shard>)
    requires Adopted(before, at, ws, after) && DistinctIds(before)
    ensures DistinctIds(after) && |after| == |before|
  {
    forall i | 0 <= i < |after| ensures after[i].id == before[i].id {
      if i in at[..|ws|] {
        var k :| 0 <= k < |ws| && at[..|ws|][k] == i;
        assert at[k] == i;
      }
    }
  }

  datatype Outcome = Kept | Deleted | Failed

  /** Every shard of the group lists distinct owners. */
  ghost predicate DistinctOwners(shards: seq<Shard>) {
    forall i :: 0 <= i < |shards| ==> Distinct(shards[i].owners)
  }

  /** No shard is owned by anyone but `id`. */
  ghost predicate OnlyOwner(shards: seq<Shard>, id: NodeId) {
    forall n :: n != id ==> Load(shards, n) == 0
  }

  /** Removes a node from one group: deleted, failed or kept, each under its exact condition. */
  method RemoveFromGroup(shards: seq<Shard>, id: NodeId, status: StatusMap)
    returns (after: seq<Shard>, out: Outcome, status': StatusMap)
    requires DistinctIds(shards)
    ensures Unlisted(status, status', shards, id)
    ensures out == if AllOrphaned(shards, id) then Deleted
                   else if AnyOrphaned(shards, id) && OnlyOwner(shards, id) then Failed else Kept
    ensures out == Deleted ==> Stripped(shards, after, id)
    ensures out == Kept ==> Rebalanced(shards, after, id)
  {
    hide Stripped, Orphans, Counts, Greedy, Adopted, OnlyOwner, Survivors, Listed, AllOrphaned, AnyOrphaned, Rebalanced,
         Unlisted;
    var stripped, counts, orphans, left, at := StripGroup(shards, id, status);
    after, status' := stripped, left;
    Surviving(counts, shards, id);
    ListedSizes(orphans, at, shards, stripped, id);
    OrphanCount(shards, stripped, id, at);
    if |shards| == 0 || |orphans| == |shards| {
      return after, Deleted, status';
    }
    var failed;
    ghost var ws;
    StrippedIds(shards, stripped, id);
    after, failed, ws := Reassign(stripped, orphans, counts - {id}, at);
    if failed {
      return after, Failed, status';
    }
    IsRebalanced(shards, stripped, id, at, ws, counts - {id}, after);
    return after, Kept, status';
  }

  /** The counts that the orphans are assigned by: the loads of the surviving owners. */
  ghost predicate Survivors(freqs: Freqs, shards: seq<Shard>, id: NodeId) {
    forall n :: (n in freqs <==> n != id && Load(shards, n) > 0) && (n in freqs ==> freqs[n] == Load(shards, n))
  }

  lemma {:induction false} Surviving(counts: Freqs, shards: seq<Shard>, id: NodeId)
    requires Counts(counts, shards)
    ensures Survivors(counts - {id}, shards, id)
    ensures counts - {id} == map[] <==> OnlyOwner(shards, id)
  {
    hide Load;
    var freqs := counts - {id};
    if OnlyOwner(shards, id) {
      assert forall n :: n !in freqs;
    }
    if freqs == map[] {
      forall n | n != id ensures Load(shards, n) == 0 {
        assert n !in freqs;
      }
    }
  }

  lemma {:induction false} ListedSizes(orphans: seq<Shard>, at: seq<nat>, shards: seq<Shard>, stripped: seq<Shard>,
                                       id: NodeId)
    requires Listed(orphans, at, stripped) && Orphans(at, stripped) && Stripped(shards, stripped, id)
    ensures |orphans| == |at| && (shards == [] ==> at == [])
  {
    assert at == [] || at[0] < |stripped|;
  }

  lemma {:induction false} StrippedIds(shards: seq<Shard>, stripped: seq<Shard>, id: NodeId)
    requires Stripped(shards, stripped, id) && DistinctIds(shards)
    ensures DistinctIds(stripped)
  {
    hide Relinquished;
  }

  // ---------------------------------------------------------------- what removal guarantees

  ghost predicate NoOwner(shards: seq<Shard>, id: NodeId) {
    forall i :: 0 <= i < |shards| ==> id !in shards[i].owners
  }

  /** Every shard has an owner, and every owner survives and owned a shard of the group before. */
  ghost predicate Owned(before: seq<Shard>, after: seq<Shard>, id: NodeId) {
    && (forall i :: 0 <= i < |after| ==> after[i].owners != [])
    && forall i, n :: 0 <= i < |after| && n in after[i].owners ==> n != id && Load(before, n) > 0
  }

  /** With distinct owners, one removal takes the id off for good and leaves the others. */
  lemma {:induction false} StrippedOwners(shards: seq<Shard>, stripped: seq<Shard>, id: NodeId, i: nat, n: NodeId)
    requires Stripped(shards, stripped, id) && DistinctOwners(shards) && i < |shards|
    ensures id !in stripped[i].owners
    ensures n in stripped[i].owners ==> n != id && Load(shards, n) > 0
  {
    hide Relinquished, Occurs, Load;
    var o := shards[i].owners;
    RelinquishedOccurs(o, id, id);
    RelinquishedOccurs(o, id, n);
    OccursIn(o, id);
    OccursIn(o, n);
    OccursIn(Relinquished(o, id), id);
    OccursIn(Relinquished(o, id), n);
    LoadAt(shards, i, n);
  }

  /** Reassignment cannot fail: a shard that kept an owner names a survivor. */
  lemma {:induction false} NeverFails(shards: seq<Shard>, id: NodeId)
    requires DistinctOwners(shards) && !AllOrphaned(shards, id)
    ensures !OnlyOwner(shards, id)
  {
    hide Relinquished, Load;
    var i :| 0 <= i < |shards| && Relinquished(shards[i].owners, id) != [];
    var n := Relinquished(shards[i].owners, id)[0];
    RelinquishedOccurs(shards[i].owners, id, n);
    OccursIn(shards[i].owners, n);
    OccursIn(Relinquished(shards[i].owners, id), n);
    LoadAt(shards, i, n);
  }

  /** With a duplicate owner it can: the id stays on one shard while the other has nobody to go to. */
  lemma {:induction false} FailureExample()
    ensures var shards := [Shard(1, [7, 7]), Shard(2, [7])];
            DistinctIds(shards) && AnyOrphaned(shards, 7) && !AllOrphaned(shards, 7) && OnlyOwner(shards, 7)
  {
    var shards := [Shard(1, [7, 7]), Shard(2, [7])];
    assert Relinquished(shards[0].owners, 7) == [7] && Relinquished(shards[1].owners, 7) == [];
    forall n | n != 7 ensures Load(shards, n) == 0 {
      LoadFrom(shards, n);
    }
  }

  lemma {:induction false} KeptOne(shards: seq<Shard>, at: seq<nat>) returns (i: nat)
    requires Orphans(at, shards) && |at| < |shards|
    ensures i < |shards| && shards[i].owners != []
  {
    i := 0;
    while i < |at| && at[i] == i
      invariant i <= |at| && forall j :: 0 <= j < i ==> at[j] == j
    {
      i := i + 1;
    }
    assert i < |at| ==> at[i] > i by { if i < |at| { ClimbsTo(at, i); } }
    assert i !in at;
  }

  /** After a removal every shard is owned by survivors of its group. */
  lemma {:induction false} KeptOwned(shards: seq<Shard>, stripped: seq<Shard>, id: NodeId, at: seq<nat>,
                                     ws: seq<NodeId>, freqs: Freqs, after: seq<Shard>)
    requires Stripped(shards, stripped, id) && DistinctOwners(shards) && Orphans(at, stripped)
    requires Survivors(freqs, shards, id) && |ws| == |at| && Greedy(freqs, ws) && Adopted(stripped, at, ws, after)
    ensures Owned(shards, after, id) && NoOwner(after, id)
  {
    hide Relinquished, Load, Greedy, Stripped, Orphans, Survivors, Adopted;
    forall i | 0 <= i < |after| ensures after[i].owners != [] && id !in after[i].owners {
      KeptOwnedAt(shards, stripped, id, at, ws, freqs, after, i, id);
    }
    forall i, n | 0 <= i < |after| && n in after[i].owners ensures n != id && Load(shards, n) > 0 {
      KeptOwnedAt(shards, stripped, id, at, ws, freqs, after, i, n);
    }
  }

  lemma {:induction false} KeptOwnedAt(shards: seq<Shard>, stripped: seq<Shard>, id: NodeId, at: seq<nat>,
                                       ws: seq<NodeId>, freqs: Freqs, after: seq<Shard>, i: nat, n: NodeId)
    requires Stripped(shards, stripped, id) && DistinctOwners(shards) && Orphans(at, stripped)
    requires Survivors(freqs, shards, id) && |ws| == |at| && Greedy(freqs, ws) && Adopted(stripped, at, ws, after)
             && i < |after|
    ensures after[i].owners != [] && (n in after[i].owners ==> n != id && Load(shards, n) > 0)
  {
    hide Relinquished, Load, Greedy;
    assert at[..|at|] == at;
    if i in at {
      var k :| 0 <= k < |at| && at[k] == i;
      assert after[i].owners == [ws[k]];
      ChosenSurvives(freqs, ws, k);
    } else {
      assert after[i] == stripped[i];
      StrippedOwners(shards, stripped, id, i, n);
    }
  }

  lemma {:induction false} ChosenSurvives(freqs: Freqs, ws: seq<NodeId>, k: nat)
    requires Greedy(freqs, ws) && k < |ws|
    ensures ws[k] in freqs
    decreases k
  {
    if k > 0 {
      ChosenSurvives(freqs[ws[0] := freqs[ws[0]] + 1], ws[1..], k - 1);
    }
  }

  lemma {:induction false} StrippedGone(shards: seq<Shard>, stripped: seq<Shard>, id: NodeId)
    requires Stripped(shards, stripped, id) && DistinctOwners(shards)
    ensures NoOwner(stripped, id)
  {
    hide Relinquished;
    forall i | 0 <= i < |stripped| ensures id !in stripped[i].owners {
      StrippedOwners(shards, stripped, id, i, id);
    }
  }

  /** The orphans were given out greedily, by the loads of the survivors. */
  ghost predicate Rebalanced(before: seq<Shard>, after: seq<Shard>, id: NodeId) {
    exists stripped: seq<Shard>, at: seq<nat>, ws: seq<NodeId>, freqs: Freqs ::
      && Stripped(before, stripped, id) && Orphans(at, stripped) && Survivors(freqs, before, id)
      && |ws| == |at| && Greedy(freqs, ws) && Adopted(stripped, at, ws, after)
  }

  /** `id` was all that owned any shard of the group. */
  ghost predicate AllOrphaned(shards: seq<Shard>, id: NodeId) {
    forall i :: 0 <= i < |shards| ==> Relinquished(shards[i].owners, id) == []
  }

  ghost predicate AnyOrphaned(shards: seq<Shard>, id: NodeId) {
    exists i :: 0 <= i < |shards| && Relinquished(shards[i].owners, id) == []
  }

  /** What is promised of a group after node `id` was removed. */
  ghost predicate GroupWithout(g: ShardGroup, h: ShardGroup, id: NodeId) {
    && h.id == g.id && h.start == g.start && h.end == g.end && NoOwner(h.shards, id)
    && if AllOrphaned(g.shards, id) then h.deleted
       else h.deleted == g.deleted && Owned(g.shards, h.shards, id) && Rebalanced(g.shards, h.shards, id)
  }

  ghost predicate Sound(g: ShardGroup) {
    DistinctIds(g.shards) && DistinctOwners(g.shards)
  }

  /** Removes a node from a group; reassignment never fails. */
  method UpdateGroup(g: ShardGroup, id: NodeId, status: StatusMap) returns (h: ShardGroup, ok: bool, status': StatusMap)
    requires Sound(g)
    ensures ok && GroupWithout(g, h, id) && Unlisted(status, status', g.shards, id)
  {
    hide Stripped, OnlyOwner, NoOwner, Owned, DistinctIds, DistinctOwners, AllOrphaned, AnyOrphaned, Rebalanced,
         Unlisted;
    var after, out;
    after, out, status' := RemoveFromGroup(g.shards, id, status);
    if !AllOrphaned(g.shards, id) {
      NeverFails(g.shards, id);
    }
    if out == Deleted {
      StrippedGone(g.shards, after, id);
      return ShardGroup(g.id, g.start, g.end, after, true), true, status';
    }
    if out == Failed {
      return g, false, status';
    }
    RebalancedOwned(g.shards, after, id);
    return ShardGroup(g.id, g.start, g.end, after, g.deleted), true, status';
  }

  lemma {:induction false} RebalancedOwned(shards: seq<Shard>, after: seq<Shard>, id: NodeId)
    requires Rebalanced(shards, after, id) && DistinctOwners(shards)
    ensures Owned(shards, after, id) && NoOwner(after, id)
  {
    hide Stripped, Orphans, Survivors, Greedy, Adopted, Owned, NoOwner, DistinctOwners;
    var stripped: seq<Shard>, at: seq<nat>, ws: seq<NodeId>, freqs: Freqs :|
      && Stripped(shards, stripped, id) && Orphans(at, stripped) && Survivors(freqs, shards, id)
      && |ws| == |at| && Greedy(freqs, ws) && Adopted(stripped, at, ws, after);
    KeptOwned(shards, stripped, id, at, ws, freqs, after);
  }

  lemma {:induction false} IsRebalanced(shards: seq<Shard>, stripped: seq<Shard>, id: NodeId, at: seq<nat>,
                                        ws: seq<NodeId>, freqs: Freqs, after: seq<Shard>)
    requires Stripped(shards, stripped, id) && Orphans(at, stripped)
    requires Survivors(freqs, shards, id) && |ws| == |at| && Greedy(freqs, ws) && Adopted(stripped, at, ws, after)
    ensures Rebalanced(shards, after, id)
  {
    hide Stripped, Orphans, Survivors, Greedy, Adopted;
  }

  lemma {:induction false} OrphanCount(shards: seq<Shard>, stripped: seq<Shard>, id: NodeId, at: seq<nat>)
    requires Stripped(shards, stripped, id) && Orphans(at, stripped)
    ensures |at| <= |shards| && (|at| == |shards| <==> AllOrphaned(shards, id))
            && (at != [] <==> AnyOrphaned(shards, id))
  {
    hide Relinquished;
    AtMost(at, stripped);
    if |at| < |shards| {
      var i := KeptOne(stripped, at);
      assert Relinquished(shards[i].owners, id) != [];
    } else {
      AllListed(stripped, at);
    }
    if at != [] {
      assert Relinquished(shards[at[0]].owners, id) == [];
    }
  }

  lemma {:induction false} AtMost(at: seq<nat>, shards: seq<Shard>)
    requires Orphans(at, shards)
    ensures |at| <= |shards|
  {
    if at != [] {
      ClimbsTo(at, |at| - 1);
    }
  }

  lemma {:induction false} ClimbsTo(at: seq<nat>, k: nat)
    requires k < |at| && forall i, j :: 0 <= i < j < |at| ==> at[i] < at[j]
    ensures at[k] >= k
  {
    if k > 0 {
      ClimbsTo(at, k - 1);
    }
  }

  lemma {:induction false} AllListed(shards: seq<Shard>, at: seq<nat>)
    requires Orphans(at, shards) && |at| == |shards|
    ensures forall i :: 0 <= i < |shards| ==> shards[i].owners == []
  {
    forall i | 0 <= i < |shards| ensures shards[i].owners == [] {
      ClimbsTo(at, i);
      FallsTo(at, i, |shards|);
      assert at[i] == i;
    }
  }

  lemma {:induction false} FallsTo(at: seq<nat>, k: nat, n: nat)
    requires k < |at| == n && (forall i, j :: 0 <= i < j < |at| ==> at[i] < at[j])
    requires forall i :: 0 <= i < |at| ==> at[i] < n
    ensures at[k] <= k
    decreases n - k
  {
    if k < n - 1 {
      FallsTo(at, k + 1, n);
    }
  }

  // ---------------------------------------------------------------- the whole metadata

  ghost predicate AllSound(gs: seq<ShardGroup>) {
    forall i :: 0 <= i < |gs| ==> Sound(gs[i])
  }

  ghost predicate AllWithout(gs: seq<ShardGroup>, hs: seq<ShardGroup>, id: NodeId) {
    |hs| == |gs| && forall i :: 0 <= i < |gs| ==> GroupWithout(gs[i], hs[i], id)
  }

  /** The shards of the groups. */
  ghost function ShardsOf(gs: seq<ShardGroup>): seq<Shard> {
    if gs == [] then [] else ShardsOf(gs[..|gs| - 1]) + gs[|gs| - 1].shards
  }

  lemma {:induction false} ShardsSnoc(gs: seq<ShardGroup>, g: ShardGroup)
    ensures ShardsOf(gs + [g]) == ShardsOf(gs) + g.shards
  {
    assert (gs + [g])[..|gs|] == gs;
  }

  lemma {:induction false} NoShards()
    ensures ShardsOf([]) == []
  {
  }

  method UpdatePolicy(policy: RetentionPolicy, id: NodeId, status: StatusMap) returns (ok: bool, status': StatusMap)
    requires AllSound(policy.groups)
    modifies policy`groups
    ensures ok && AllWithout(old(policy.groups), policy.groups, id)
    ensures Unlisted(status, status', ShardsOf(old(policy.groups)), id)
  {
    hide Sound, GroupWithout, Unlisted, ShardsOf;
    status' := status;
    NoShards();
    UnlistedNone(status, id);
    assert old(policy.groups)[..0] == [];
    for i := 0 to |policy.groups|
      invariant Unlisted(status, status', ShardsOf(old(policy.groups)[..i]), id)
      invariant |policy.groups| == |old(policy.groups)|
      invariant AllWithout(old(policy.groups)[..i], policy.groups[..i], id)
      invariant policy.groups[i..] == old(policy.groups)[i..]
    {
      assert policy.groups[i] == old(policy.groups)[i];
      var h;
      ghost var was, g := status', policy.groups[i];
      h, ok, status' := UpdateGroup(policy.groups[i], id, status');
      if !ok {
        return false, status';
      }
      assert old(policy.groups)[..i + 1] == old(policy.groups)[..i] + [g];
      ShardsSnoc(old(policy.groups)[..i], g);
      UnlistedMore(status, was, status', ShardsOf(old(policy.groups)[..i]), g.shards, id);
      assert policy.groups[i := h][..i + 1] == policy.groups[..i] + [h];
      assert policy.groups[i := h][i + 1..] == policy.groups[i..][1..];
      assert old(policy.groups)[i + 1..] == old(policy.groups)[i..][1..];
      policy.groups := policy.groups[i := h];
    }
    assert policy.groups[..|policy.groups|] == policy.groups;
    assert old(policy.groups)[..|policy.groups|] == old(policy.groups);
    ok := true;
  }

  ghost predicate DistinctPolicies(ps: seq<RetentionPolicy>) {
    forall i, j :: 0 <= i < j < |ps| ==> ps[i] != ps[j]
  }

  /** The shards of all groups of the policies. */
  ghost function PolicyShards(ps: seq<RetentionPolicy>): seq<Shard>
    reads ps
  {
    if ps == [] then [] else PolicyShards(ps[..|ps| - 1]) + ShardsOf(ps[|ps| - 1].groups)
  }

  lemma {:induction false} NoPolicyShards()
    ensures PolicyShards([]) == []
  {
  }

  datatype RemoveStatus = Removed | NodeNotFound | CannotReassign

  /** Removes a data node: no group keeps it, and every live group stays owned by its survivors. */
  method DeleteDataNode(data: Data, policies: seq<RetentionPolicy>, id: NodeId) returns (st: RemoveStatus)
    requires DistinctPolicies(policies) && forall i :: 0 <= i < |policies| ==> AllSound(policies[i].groups)
    modifies data`dataNodes, data`shardStatus, set i | 0 <= i < |policies| :: policies[i]
    ensures st == if id in old(data.dataNodes) then Removed else NodeNotFound
    ensures id !in data.dataNodes && forall n :: n != id ==> (n in data.dataNodes <==> n in old(data.dataNodes))
    ensures st == Removed ==> forall i :: 0 <= i < |policies| ==>
            AllWithout(old(policies[i].groups), policies[i].groups, id)
    ensures st == Removed ==> Unlisted(old(data.shardStatus), data.shardStatus, old(PolicyShards(policies)), id)
    ensures st != Removed ==> data.shardStatus == old(data.shardStatus)
    ensures st != Removed ==> forall i :: 0 <= i < |policies| ==> policies[i].groups == old(policies[i].groups)
  {
    hide AllSound, AllWithout, Unlisted, ShardsOf;
    var nodes := [];
    for i := 0 to |data.dataNodes|
      invariant |nodes| <= i && (|nodes| == i <==> id !in data.dataNodes[..i])
      invariant forall n :: n in nodes <==> n != id && n in data.dataNodes[..i]
    {
      assert data.dataNodes[..i + 1] == data.dataNodes[..i] + [data.dataNodes[i]];
      if data.dataNodes[i] != id {
        nodes := nodes + [data.dataNodes[i]];
      }
    }
    assert data.dataNodes[..|data.dataNodes|] == data.dataNodes;
    if |nodes| == |data.dataNodes| {
      return NodeNotFound;
    }
    data.dataNodes := nodes;
    NoPolicyShards();
    UnlistedNone(data.shardStatus, id);
    assert policies[..0] == [];
    for i := 0 to |policies|
      invariant data.dataNodes == nodes
      invariant Unlisted(old(data.shardStatus), data.shardStatus, old(PolicyShards(policies[..i])), id)
      invariant forall j :: 0 <= j < i ==> AllWithout(old(policies[j].groups), policies[j].groups, id)
      invariant forall j :: i <= j < |policies| ==> policies[j].groups == old(policies[j].groups)
    {
      var ok, status := UpdatePolicy(policies[i], id, data.shardStatus);
      if !ok {
        return CannotReassign;
      }
      assert policies[..i + 1][..i] == policies[..i];
      UnlistedMore(old(data.shardStatus), data.shardStatus, status, old(PolicyShards(policies[..i])),
                   old(ShardsOf(policies[i].groups)), id);
      data.shardStatus := status;
    }
    assert policies[..|policies|] == policies;
    return Removed;
  }
}
