/** The cluster's metadata: shard groups, their owners, and how a new group is placed on the nodes. */
module Cluster {
  import opened Sequences
  import opened Sorting

  type NodeId = nat

  datatype Shard = Shard(id: nat, owners: seq<NodeId>)

  /** A group covers the times [start, end). */
  datatype ShardGroup = ShardGroup(id: nat, start: int, end: int, shards: seq<Shard>, deleted: bool) {
    predicate Contains(t: int) {
      start <= t < end
    }

    predicate Serves(t: int) {
      Contains(t) && !deleted
    }
  }

  datatype ShardStatus = WriteRead | ReadOnly

  /** The order of the groups of a policy: by end, then by start. */
  predicate GroupLess(g: ShardGroup, h: ShardGroup) {
    g.end < h.end || (g.end == h.end && g.start < h.start)
  }

  lemma {:induction false} GroupOrder()
    ensures Order(GroupLess)
  {
  }

  class RetentionPolicy {
    var replicaN: nat
    var duration: int
    var groups: seq<ShardGroup>

    constructor (replicaN: nat, duration: int)
      ensures this.replicaN == replicaN && this.duration == duration && groups == []
    {
      this.replicaN, this.duration, groups := replicaN, duration, [];
    }

    /** Gives the groups to come another length; those there are stay. */
    method Update(duration: int)
      modifies this`duration
      ensures this.duration == duration
    {
      this.duration := duration;
    }

    /** The index of the first live group for the time, or -1. */
    method ShardGroupByTimestamp(t: int) returns (k: int)
      ensures -1 <= k < |groups|
      ensures k >= 0 ==> groups[k].Serves(t)
      ensures forall i :: 0 <= i < (if k < 0 then |groups| else k) ==> !groups[i].Serves(t)
    {
      for i := 0 to |groups|
        invariant forall j :: 0 <= j < i ==> !groups[j].Serves(t)
      {
        if groups[i].Contains(t) && !groups[i].deleted {
          return i;
        }
      }
      return -1;
    }
  }

  /** Some live group contains the time. */
  ghost predicate Served(groups: seq<ShardGroup>, t: int) {
    exists i :: 0 <= i < |groups| && groups[i].Serves(t)
  }

  // ---------------------------------------------------------------- times

  /** The time rounded down to a multiple of the duration; times count from the zero time. */
  function Truncate(t: int, d: int): int {
    if d <= 0 then t else t - t % d
  }

  lemma {:induction false} MulFar(k: int, d: int)
    requires d > 0
    ensures k > 0 ==> k * d >= d
    ensures k < 0 ==> k * d <= -d
  {
  }

  lemma {:induction false} SameMultiple(a: int, b: int, d: int, k: int)
    requires d > 0 && a == b + k * d && -d < a - b < d
    ensures k == 0
  {
    MulFar(k, d);
  }

  /** It is the one multiple of the duration within a duration before the time. */
  lemma {:induction false} TruncateExactly(t: int, d: int, u: int)
    ensures d > 0 ==> (Truncate(t, d) == u <==> u % d == 0 && u <= t < u + d)
    ensures d <= 0 ==> Truncate(t, d) == t
  {
    if d > 0 {
      var q := t / d;
      assert t == d * q + t % d && Truncate(t, d) == d * q;
      MultipleMod(q, d);
      if u % d == 0 && u <= t < u + d {
        var k := q - u / d;
        assert u == d * (u / d) && d * q - d * (u / d) == k * d;
        SameMultiple(d * q, u, d, k);
      }
    }
  }

  lemma {:induction false} MultipleMod(q: int, d: int)
    requires d > 0
    ensures (d * q) % d == 0
  {
    var m := d * q;
    var k := q - m / d;
    assert m == d * (m / d) + m % d && d * q - d * (m / d) == k * d;
    SameMultiple(m % d, 0, d, k);
  }

  /** The groups of one duration that cover two times are equal or disjoint. */
  lemma {:induction false} GroupTimes(t: int, u: int, d: int)
    requires d > 0
    ensures Truncate(t, d) <= t < Truncate(t, d) + d
    ensures Truncate(t, d) == Truncate(u, d)
         || Truncate(t, d) + d <= Truncate(u, d) || Truncate(u, d) + d <= Truncate(t, d)
  {
    var k := t / d - u / d;
    assert t - t % d == d * (t / d) && u - u % d == d * (u / d);
    assert d * (t / d) - d * (u / d) == k * d;
    var a, b := Truncate(t, d), Truncate(u, d);
    if -d < a - b < d {
      SameMultiple(a, b, d, k);
    }
  }

  /** Two groups have the same times, or no time belongs to both. */
  ghost predicate Apart(g: ShardGroup, h: ShardGroup) {
    (g.start == h.start && g.end == h.end) || g.end <= h.start || h.end <= g.start
  }

  /** A group as it is cut for a duration. */
  ghost predicate OfDuration(g: ShardGroup, d: int) {
    d > 0 && g.start == Truncate(g.start, d) && g.end == g.start + d
  }

  lemma {:induction false} OneDuration(g: ShardGroup, h: ShardGroup, d: int)
    requires OfDuration(g, d) && OfDuration(h, d)
    ensures Apart(g, h)
  {
    GroupTimes(g.start, h.start, d);
  }

  /** The live groups are cut for one duration, and no time belongs to two of them. */
  ghost predicate Aligned(groups: seq<ShardGroup>, d: int) {
    && d > 0 && (forall g :: g in groups && !g.deleted ==> OfDuration(g, d))
    && forall g, h, t :: g in groups && h in groups && g.Serves(t) && h.Serves(t) ==> g == h
  }

  lemma {:induction false} TruncateTwice(t: int, d: int)
    requires d > 0
    ensures Truncate(Truncate(t, d), d) == Truncate(t, d)
  {
    GroupTimes(Truncate(t, d), t, d);
    GroupTimes(t, t, d);
  }

  lemma {:induction false} AlignedMore(groups: seq<ShardGroup>, next: seq<ShardGroup>, g: ShardGroup, d: int, t: int)
    requires Aligned(groups, d) && multiset(next) == multiset(groups) + multiset{g}
    requires !g.deleted && g.start == Truncate(t, d) && g.end == g.start + d
    requires forall i :: 0 <= i < |groups| ==> !groups[i].Serves(t)
    ensures Aligned(next, d)
  {
    hide Truncate;
    TruncateTwice(t, d);
    GroupTimes(t, t, d);
    MoreGroups(groups, next, g);
    forall h, u | h in groups ensures !(h.Serves(u) && g.Serves(u)) {
      assert g.Serves(t) && !h.Serves(t);
      if !h.deleted {
        OneDuration(g, h, d);
      }
    }
  }

  // ---------------------------------------------------------------- placement

  /** The owners of shard `i`: the next `r` nodes, going round. */
  function Round(nodes: seq<NodeId>, start: nat, r: nat, i: nat): (s: seq<NodeId>)
    requires nodes != []
    ensures |s| == r
  {
    seq(r, j requires 0 <= j < r => nodes[(start + i * r + j) % |nodes|])
  }

  lemma {:induction false} ModApart(s: nat, x: nat, y: nat, n: nat)
    requires x < y < n
    ensures (s + x) % n != (s + y) % n
  {
    if (s + x) % n == (s + y) % n {
      var a, b := (s + x) / n, (s + y) / n;
      assert s + x == n * a + (s + x) % n && s + y == n * b + (s + y) % n;
      assert n * b - n * a == (b - a) * n;
      SameMultiple(s + y, s + x, n, b - a);
    }
  }

  lemma {:induction false} Slots(r: nat, shardN: nat, n: nat, i: nat, j: nat)
    requires r > 0 && shardN == n / r && i < shardN && j < r
    ensures i * r + j < n
  {
    assert shardN * r <= n;
    assert (i + 1) * r <= shardN * r;
  }

  lemma {:induction false} SlotsApart(r: nat, i: nat, j: nat, i': nat, j': nat)
    requires j < r && j' < r && (i, j) != (i', j')
    ensures i * r + j != i' * r + j'
  {
    if i * r + j == i' * r + j' {
      assert (i - i') * r == j' - j;
      SameMultiple(j', j, r, i - i');
    }
  }

  lemma {:induction false} RoundAt(nodes: seq<NodeId>, start: nat, r: nat, i: nat, j: nat)
    requires nodes != [] && j < r
    ensures Round(nodes, start, r, i)[j] == nodes[(start + (i * r + j)) % |nodes|]
  {
    assert start + (i * r + j) == start + i * r + j;
  }

  lemma {:induction false} NodesApart(nodes: seq<NodeId>, start: nat, x: nat, y: nat)
    requires Distinct(nodes) && x < |nodes| && y < |nodes| && x != y
    ensures nodes[(start + x) % |nodes|] != nodes[(start + y) % |nodes|]
  {
    if x < y { ModApart(start, x, y, |nodes|); } else { ModApart(start, y, x, |nodes|); }
  }

  /** No slot of a group is filled twice: a shard's owners differ, and no node owns two shards. */
  lemma {:induction false} RoundDistinct(nodes: seq<NodeId>, start: nat, r: nat, i: nat, j: nat, i': nat, j': nat)
    requires Distinct(nodes) && nodes != [] && 0 < r && i < |nodes| / r && i' < |nodes| / r && j < r && j' < r
    requires (i, j) != (i', j')
    ensures Round(nodes, start, r, i)[j] != Round(nodes, start, r, i')[j']
  {
    var n, x, y := |nodes|, i * r + j, i' * r + j';
    Slots(r, n / r, n, i, j);
    Slots(r, n / r, n, i', j');
    SlotsApart(r, i, j, i', j');
    hide Round, Distinct;
    NodesApart(nodes, start, x, y);
    RoundAt(nodes, start, r, i, j);
    RoundAt(nodes, start, r, i', j');
  }

  /** The replication factor that is used: at least one, at most the number of nodes. */
  function Replicas(replicaN: nat, nodes: nat): (r: nat)
    requires nodes > 0
    ensures 0 < r <= nodes
  {
    if replicaN == 0 then 1 else if replicaN > nodes then nodes else replicaN
  }

  /**
   * As many owners per shard as there are to be replicas: one if none is asked for, and every node if there are not
   * enough; as many shards as the nodes then suffice for.
   */
  ghost predicate Replicated(shards: seq<Shard>, nodes: seq<NodeId>, replicaN: nat) {
    if replicaN == 0 then |shards| == |nodes| && forall i :: 0 <= i < |shards| ==> |shards[i].owners| == 1
    else if replicaN <= |nodes| then
      |shards| == |nodes| / replicaN && forall i :: 0 <= i < |shards| ==> |shards[i].owners| == replicaN
    else |shards| == 1 && |shards[0].owners| == |nodes| && forall n :: n in nodes ==> n in shards[0].owners
  }

  /** The nodes take turns, starting from the log index. */
  ghost predicate InTurn(shards: seq<Shard>, nodes: seq<NodeId>, index: nat)
    requires nodes != []
  {
    forall i, j :: 0 <= i < |shards| && 0 <= j < |shards[i].owners| ==>
      shards[i].owners[j] == nodes[(index % |nodes| + i * |shards[i].owners| + j) % |nodes|]
  }

  lemma {:induction false} PlacedReplicated(shards: seq<Shard>, nodes: seq<NodeId>, replicaN: nat, firstId: nat,
                                            start: nat)
    requires start < |nodes| && |shards| == |nodes| / Replicas(replicaN, |nodes|)
    requires RoundRobin(shards, nodes, start, Replicas(replicaN, |nodes|), firstId)
    ensures Replicated(shards, nodes, replicaN)
  {
    hide Round;
    var n := |nodes|;
    Quotients(n);
    if replicaN > n {
      assert shards[0] == Shard(firstId + 0, Round(nodes, start, n, 0));
      forall k | 0 <= k < n ensures nodes[k] in shards[0].owners {
        RoundReaches(nodes, start, k);
      }
    }
  }

  lemma {:induction false} Quotients(n: nat)
    requires n > 0
    ensures n / 1 == n && n / n == 1
  {
  }

  lemma {:induction false} PlacedInTurn(shards: seq<Shard>, nodes: seq<NodeId>, r: nat, firstId: nat, index: nat)
    requires nodes != [] && RoundRobin(shards, nodes, index % |nodes|, r, firstId)
    ensures InTurn(shards, nodes, index)
  {
    hide Round;
    forall i, j | 0 <= i < |shards| && 0 <= j < |shards[i].owners|
      ensures shards[i].owners[j] == nodes[(index % |nodes| + i * |shards[i].owners| + j) % |nodes|] {
      assert shards[i] == Shard(firstId + i, Round(nodes, index % |nodes|, r, i));
      RoundAt(nodes, index % |nodes|, r, i, j);
      assert index % |nodes| + (i * r + j) == index % |nodes| + i * r + j;
    }
  }

  /** Going round once reaches every node. */
  lemma {:induction false} RoundReaches(nodes: seq<NodeId>, start: nat, k: nat)
    requires start < |nodes| && k < |nodes|
    ensures nodes[k] in Round(nodes, start, |nodes|, 0)
  {
    var n := |nodes|;
    var j := if k >= start then k - start else k + n - start;
    assert (start + 0 * n + j) % n == k by {
      assert start + 0 * n + j == if k >= start then k else k + n;
      Wrapped(k, n);
    }
    assert Round(nodes, start, n, 0)[j] == nodes[k];
  }

  lemma {:induction false} Wrapped(k: nat, n: nat)
    requires k < n
    ensures k % n == k && (k + n) % n == k
  {
  }

  /** What is promised of a new group's shards. */
  ghost predicate WellPlaced(shards: seq<Shard>, nodes: seq<NodeId>, r: nat, firstId: nat) {
    && r > 0 && |shards| == |nodes| / r
    && (forall i :: 0 <= i < |shards| ==> shards[i].id == firstId + i && |shards[i].owners| == r)
    && (forall i, j :: 0 <= i < |shards| && 0 <= j < |shards[i].owners| ==> shards[i].owners[j] in nodes)
    && (forall i, j, i', j' :: 0 <= i < |shards| && 0 <= j < |shards[i].owners| && 0 <= i' < |shards|
                               && 0 <= j' < |shards[i'].owners| && (i, j) != (i', j')
                               ==> shards[i].owners[j] != shards[i'].owners[j'])
  }

  ghost predicate RoundRobin(shards: seq<Shard>, nodes: seq<NodeId>, start: nat, r: nat, firstId: nat)
    requires nodes != []
  {
    forall i :: 0 <= i < |shards| ==> shards[i] == Shard(firstId + i, Round(nodes, start, r, i))
  }

  lemma {:induction false} RoundRobinPlaces(shards: seq<Shard>, nodes: seq<NodeId>, start: nat, r: nat, firstId: nat)
    requires nodes != [] && Distinct(nodes) && 0 < r <= |nodes| && |shards| == |nodes| / r
    requires RoundRobin(shards, nodes, start, r, firstId)
    ensures WellPlaced(shards, nodes, r, firstId)
  {
    forall i, j, i', j' | 0 <= i < |shards| && 0 <= j < |shards[i].owners| && 0 <= i' < |shards|
                          && 0 <= j' < |shards[i'].owners| && (i, j) != (i', j')
      ensures shards[i].owners[j] != shards[i'].owners[j'] {
      RoundDistinct(nodes, start, r, i, j, i', j');
    }
  }

  /** The status entries that belong to the shards: every owner may be read and written. */
  function Statuses(owners: seq<NodeId>): map<NodeId, ShardStatus> {
    map n | n in owners :: WriteRead
  }

  datatype CreateStatus = NoNodes | Exists | Created

  class Data {
    var dataNodes: seq<NodeId>
    var index: nat
    var maxShardGroupID: nat
    var maxShardID: nat
    var shardStatus: map<nat, map<NodeId, ShardStatus>>

    constructor (nodes: seq<NodeId>)
      ensures dataNodes == nodes && index == maxShardGroupID == maxShardID == 0 && shardStatus == map[]
    {
      dataNodes, index, maxShardGroupID, maxShardID, shardStatus := nodes, 0, 0, 0, map[];
    }

    /** New shards without owners, under fresh ids. */
    method NewShards(shardN: nat) returns (shards: seq<Shard>)
      modifies this`maxShardID, this`shardStatus
      ensures |shards| == shardN && maxShardID == old(maxShardID) + shardN
      ensures forall i :: 0 <= i < shardN ==> shards[i] == Shard(old(maxShardID) + 1 + i, [])
      ensures StatusesOf(shards, old(shardStatus), shardStatus)
    {
      shards := [];
      for i := 0 to shardN
        invariant |shards| == i && maxShardID == old(maxShardID) + i
        invariant forall k :: 0 <= k < i ==> shards[k] == Shard(old(maxShardID) + 1 + k, [])
        invariant StatusesOf(shards, old(shardStatus), shardStatus)
      {
        maxShardID := maxShardID + 1;
        AddStatus(shards, old(shardStatus), shardStatus, Shard(maxShardID, []));
        shards := shards + [Shard(maxShardID, [])];
        shardStatus := shardStatus[maxShardID := map[]];
      }
    }

    /** Gives one shard its owners, starting at node number `nodeIndex`. */
    method AssignOwners(s: Shard, r: nat, nodeIndex: nat) returns (t: Shard)
      requires dataNodes != [] && s.owners == [] && s.id in shardStatus && shardStatus[s.id] == map[]
      modifies this`shardStatus
      ensures t == Shard(s.id, Round(dataNodes, nodeIndex, r, 0))
      ensures shardStatus == old(shardStatus)[s.id := Statuses(t.owners)]
    {
      t := s;
      for j := 0 to r
        invariant t.id == s.id && t.owners == Round(dataNodes, nodeIndex, r, 0)[..j]
        invariant shardStatus == old(shardStatus)[s.id := Statuses(t.owners)]
      {
        var node := dataNodes[(nodeIndex + j) % |dataNodes|];
        assert Round(dataNodes, nodeIndex, r, 0)[j] == node;
        StatusesSnoc(t.owners, node);
        t := Shard(t.id, t.owners + [node]);
        shardStatus := shardStatus[t.id := shardStatus[t.id][node := WriteRead]];
      }
    }

    /** A new group for a time, placed on the nodes. */
    method NewGroup(replicaN: nat, duration: int, t: int) returns (g: ShardGroup)
      requires Distinct(dataNodes) && dataNodes != []
      modifies this`maxShardGroupID, this`maxShardID, this`shardStatus
      ensures g.id == maxShardGroupID == old(maxShardGroupID) + 1 && !g.deleted
      ensures (g.Contains(t) <==> duration > 0) && g.start == Truncate(t, duration) && g.end == g.start + duration
      ensures WellPlaced(g.shards, dataNodes, Replicas(replicaN, |dataNodes|), old(maxShardID) + 1)
      ensures Replicated(g.shards, dataNodes, replicaN) && InTurn(g.shards, dataNodes, index)
      ensures maxShardID == old(maxShardID) + |g.shards| && StatusesOf(g.shards, old(shardStatus), shardStatus)
    {
      hide WellPlaced, StatusesOf, Distinct, Truncate, Replicas, Replicated, InTurn, RoundRobin;
      var r := Replicas(replicaN, |dataNodes|);
      var shardN := |dataNodes| / r;
      maxShardGroupID := maxShardGroupID + 1;
      if duration > 0 {
        GroupTimes(t, t, duration);
      }
      var shards := NewShards(shardN);
      shards := PlaceShards(shards, r, old(maxShardID) + 1, old(shardStatus));
      PlacedReplicated(shards, dataNodes, replicaN, old(maxShardID) + 1, index % |dataNodes|);
      PlacedInTurn(shards, dataNodes, r, old(maxShardID) + 1, index);
      var start := Truncate(t, duration);
      g := ShardGroup(maxShardGroupID, start, start + duration, shards, false);
    }

    /** Creates the group that covers a time, unless there is one. */
    method CreateShardGroup(policy: RetentionPolicy, t: int) returns (st: CreateStatus, ghost g: ShardGroup)
      requires Distinct(dataNodes)
      modifies this`maxShardGroupID, this`maxShardID, this`shardStatus, policy`groups
      ensures st == NoNodes <==> dataNodes == []
      ensures st == Exists <==> dataNodes != [] && old(Served(policy.groups, t))
      ensures st != Created ==> policy.groups == old(policy.groups) && shardStatus == old(shardStatus)
      ensures st == Created ==>
                && SortedBy(policy.groups, GroupLess)
                && multiset(policy.groups) == multiset(old(policy.groups)) + multiset{g}
                && g.id == maxShardGroupID == old(maxShardGroupID) + 1 && !g.deleted
                && (g.Contains(t) <==> policy.duration > 0)
                && g.start == Truncate(t, policy.duration) && g.end == g.start + policy.duration
                && WellPlaced(g.shards, dataNodes, Replicas(policy.replicaN, |dataNodes|), old(maxShardID) + 1)
                && Replicated(g.shards, dataNodes, policy.replicaN) && InTurn(g.shards, dataNodes, index)
                && maxShardID == old(maxShardID) + |g.shards|
                && StatusesOf(g.shards, old(shardStatus), shardStatus)
      ensures old(Aligned(policy.groups, policy.duration)) ==> Aligned(policy.groups, policy.duration)
    {
      hide Aligned, WellPlaced, StatusesOf, Distinct, Truncate, SortedBy, Replicas, Order, Replicated, InTurn,
           RoundRobin;
      g := ShardGroup(0, 0, 0, [], false);
      if |dataNodes| == 0 {
        return NoNodes, g;
      }
      var k := policy.ShardGroupByTimestamp(t);
      if k >= 0 {
        return Exists, g;
      }
      var sgi := NewGroup(policy.replicaN, policy.duration, t);
      g := sgi;
      GroupOrder();
      var sorted := Sort(policy.groups + [sgi], GroupLess);
      if Aligned(policy.groups, policy.duration) {
        AlignedMore(policy.groups, sorted, sgi, policy.duration, t);
      }
      policy.groups := sorted;
      return Created, g;
    }

    /**
     * The group that serves a time, created if there is none: the first one in the order of the policy. There is
     * none only without nodes or without a duration.
     */
    method GroupAt(policy: RetentionPolicy, t: int) returns (k: int)
      requires Distinct(dataNodes)
      modifies this`maxShardGroupID, this`maxShardID, this`shardStatus, policy`groups
      ensures -1 <= k < |policy.groups| && (k >= 0 ==> policy.groups[k].Serves(t))
      ensures forall i :: 0 <= i < (if k < 0 then |policy.groups| else k) ==> !policy.groups[i].Serves(t)
      ensures k >= 0 <==> old(Served(policy.groups, t)) || (dataNodes != [] && policy.duration > 0)
      ensures forall g :: g in old(policy.groups) ==> g in policy.groups
      ensures old(SortedBy(policy.groups, GroupLess)) ==> SortedBy(policy.groups, GroupLess)
      ensures old(Aligned(policy.groups, policy.duration)) ==> Aligned(policy.groups, policy.duration)
      ensures forall g :: g in policy.groups && g !in old(policy.groups) ==>
                g.shards != [] && g.start == Truncate(t, policy.duration) && g.end == g.start + policy.duration
    {
      hide Aligned, WellPlaced, StatusesOf, Distinct, Truncate;
      k := policy.ShardGroupByTimestamp(t);
      if k >= 0 {
        assert policy.groups[k] in old(policy.groups);
        return;
      }
      assert forall g :: g in old(policy.groups) ==> !g.Serves(t);
      var st, g := CreateShardGroup(policy, t);
      if st == Created {
        MoreGroups(old(policy.groups), policy.groups, g);
        PlacedSome(g.shards, dataNodes, policy.replicaN, old(maxShardID) + 1);
      }
      k := policy.ShardGroupByTimestamp(t);
      assert k >= 0 ==> policy.groups[k] in policy.groups;
      assert k < 0 ==> forall h :: h in policy.groups ==> !h.Serves(t);
      assert st == Created ==> g in policy.groups && (k >= 0 <==> policy.duration > 0);
    }

    /** Assigns the nodes to the shards round robin, from a place given by the log index. */
    method PlaceShards(bare: seq<Shard>, r: nat, ghost firstId: nat, ghost before: map<nat, map<NodeId, ShardStatus>>)
      returns (shards: seq<Shard>)
      requires dataNodes != [] && Distinct(dataNodes) && 0 < r <= |dataNodes| && |bare| == |dataNodes| / r
      requires forall i :: 0 <= i < |bare| ==> bare[i] == Shard(firstId + i, [])
      requires StatusesOf(bare, before, shardStatus)
      modifies this`shardStatus
      ensures |shards| == |bare| && WellPlaced(shards, dataNodes, r, firstId) && StatusesOf(shards, before, shardStatus)
      ensures RoundRobin(shards, dataNodes, index % |dataNodes|, r, firstId)
    {
      hide WellPlaced, Round, Statuses, Distinct, StatusesOf;
      var start := index % |dataNodes|;
      var nodeIndex := start;
      shards := bare;
      for i := 0 to |shards|
        invariant |shards| == |bare| && nodeIndex == start + i * r
        invariant forall k :: 0 <= k < i ==> shards[k] == Shard(firstId + k, Round(dataNodes, start, r, k))
        invariant forall k :: i <= k < |bare| ==> shards[k] == bare[k]
        invariant StatusesOf(shards, before, shardStatus)
      {
        RoundShift(dataNodes, start, r, i);
        SetStatus(shards, before, shardStatus, i, Round(dataNodes, start, r, i), firstId);
        var s := AssignOwners(shards[i], r, nodeIndex);
        shards := shards[i := s];
        nodeIndex := nodeIndex + r;
        assert (i + 1) * r == i * r + r;
      }
      RoundRobinPlaces(shards, dataNodes, start, r, firstId);
    }
  }

  lemma {:induction false} MoreGroups(groups: seq<ShardGroup>, next: seq<ShardGroup>, g: ShardGroup)
    requires multiset(next) == multiset(groups) + multiset{g}
    ensures forall h :: h in next <==> h in groups || h == g
  {
    forall h ensures h in next <==> h in groups || h == g {
      assert h in next <==> h in multiset(next);
    }
  }

  lemma {:induction false} PlacedSome(shards: seq<Shard>, nodes: seq<NodeId>, replicaN: nat, firstId: nat)
    requires nodes != [] && WellPlaced(shards, nodes, Replicas(replicaN, |nodes|), firstId)
    ensures shards != []
  {
    Quotient(|nodes|, Replicas(replicaN, |nodes|));
  }

  lemma {:induction false} Quotient(n: nat, r: nat)
    requires 0 < r <= n
    ensures n / r > 0
  {
  }

  lemma {:induction false} NoStatuses()
    ensures Statuses([]) == map[]
  {
  }

  lemma {:induction false} StatusesSnoc(owners: seq<NodeId>, n: NodeId)
    ensures Statuses(owners + [n]) == Statuses(owners)[n := WriteRead]
  {
  }

  lemma {:induction false} RoundShift(nodes: seq<NodeId>, start: nat, r: nat, i: nat)
    requires nodes != []
    ensures Round(nodes, start + i * r, r, 0) == Round(nodes, start, r, i)
  {
  }

  /** The new shards' statuses are exactly their owners, and no other status changed. */
  ghost predicate StatusesOf(shards: seq<Shard>, before: map<nat, map<NodeId, ShardStatus>>,
                             after: map<nat, map<NodeId, ShardStatus>>)
  {
    && (forall i :: 0 <= i < |shards| ==> shards[i].id in after && after[shards[i].id] == Statuses(shards[i].owners))
    && forall id :: (forall i :: 0 <= i < |shards| ==> shards[i].id != id) ==>
         (id in after <==> id in before) && (id in after ==> after[id] == before[id])
  }

  lemma {:induction false} AddStatus(shards: seq<Shard>, before: map<nat, map<NodeId, ShardStatus>>,
                                     after: map<nat, map<NodeId, ShardStatus>>, s: Shard)
    requires StatusesOf(shards, before, after) && s.owners == []
    requires forall i :: 0 <= i < |shards| ==> shards[i].id != s.id
    ensures StatusesOf(shards + [s], before, after[s.id := map[]])
  {
    var more := shards + [s];
    assert more[|shards|] == s && Statuses([]) == map[];
    forall id | forall i :: 0 <= i < |more| ==> more[i].id != id
      ensures (id in after[s.id := map[]] <==> id in before)
              && (id in after[s.id := map[]] ==> after[s.id := map[]][id] == before[id]) {
      assert forall i :: 0 <= i < |shards| ==> more[i] == shards[i];
    }
  }

  lemma {:induction false} SetStatus(shards: seq<Shard>, before: map<nat, map<NodeId, ShardStatus>>,
                                     after: map<nat, map<NodeId, ShardStatus>>, k: nat, owners: seq<NodeId>,
                                     firstId: nat)
    requires StatusesOf(shards, before, after) && k < |shards|
    requires forall i :: 0 <= i < |shards| ==> shards[i].id == firstId + i
    ensures shards[k].id in after && after[shards[k].id] == Statuses(shards[k].owners)
    ensures shards[k].owners == [] ==> after[shards[k].id] == map[]
    ensures StatusesOf(shards[k := Shard(shards[k].id, owners)], before, after[shards[k].id := Statuses(owners)])
  {
    hide Statuses;
    NoStatuses();
    var id, more := shards[k].id, shards[k := Shard(shards[k].id, owners)];
    forall x | forall i :: 0 <= i < |more| ==> more[i].id != x
      ensures (x in after[id := Statuses(owners)] <==> x in before)
              && (x in after ==> after[id := Statuses(owners)][x] == before[x]) {
      assert more[k].id != x;
      assert forall i :: 0 <= i < |shards| ==> more[i].id == shards[i].id;
    }
  }
}
