/** When a replicated write counts as done: the consistency levels. */
module Acknowledgement {
  import opened Sequences
  import opened Cluster

  datatype Level = Any | One | Quorum | All

  /** How many owners must succeed. */
  function Required(level: Level, owners: nat): nat {
    match level
    case Any => 1
    case One => 1
    case Quorum => owners / 2 + 1
    case All => owners
  }

  /** What the levels ask for: one answer, more than half of them, or all. */
  ghost predicate Suffices(level: Level, owners: nat, won: nat) {
    match level
    case Any => won >= 1
    case One => won >= 1
    case Quorum => 2 * won > owners
    case All => won >= owners
  }

  lemma {:induction false} RequiredExactly(level: Level, owners: nat, won: nat)
    ensures won >= Required(level, owners) <==> Suffices(level, owners, won)
  {
  }

  // ---------------------------------------------------------------- one owner

  datatype Local = Stored | ShardMissing | LocalError

  datatype Handoff = NoHandoff | Queued | QueueError

  /** How the world answers the write to one owner. */
  datatype Attempt =
    | Here(first: Local, created: bool, second: Local)
    | There(stored: bool, handoff: Handoff)

  /** Whether the points have reached the owner. */
  predicate Reached(a: Attempt) {
    match a
    case Here(first, created, second) => first == Stored || (first == ShardMissing && created && second == Stored)
    case There(stored, _) => stored
  }

  /** Whether the write to the owner counts: at level Any, points that are queued for it count too. */
  predicate Won(a: Attempt, level: Level) {
    Reached(a) || (level == Any && a.There? && a.handoff == Queued)
  }

  /** The result that the write to one owner reports. */
  method WriteOwner(a: Attempt, level: Level) returns (ok: bool)
    ensures ok <==> Won(a, level)
  {
    if a.Here? {
      if a.first == ShardMissing {
        if !a.created {
          return false;
        }
        return a.second == Stored;
      }
      return a.first == Stored;
    }
    if !a.stored {
      if a.handoff != NoHandoff {
        if a.handoff == QueueError {
          return false;
        }
        if level == Any {
          return true;
        }
      }
    }
    return a.stored;
  }

  // ---------------------------------------------------------------- collecting the results

  /** What arrives: the result of the owner with some number in the list, or the end of the wait. */
  datatype Event = Answer(slot: nat) | Timeout | Closing

  datatype Ack = Success | Partial | Failed | TimedOut | Closed

  /** Every owner in the list answers at most once. A node can be in the list twice. */
  ghost predicate OneEach(events: seq<Event>, n: nat) {
    && (forall i :: 0 <= i < |events| && events[i].Answer? ==> events[i].slot < n)
    && forall i, j :: 0 <= i < j < |events| && events[i].Answer? && events[j].Answer? ==>
         events[i].slot != events[j].slot
  }

  ghost predicate Undisturbed(events: seq<Event>) {
    forall i :: 0 <= i < |events| ==> events[i].Answer?
  }

  /** The answers that count. */
  ghost function Winners(attempts: seq<Attempt>, level: Level, events: seq<Event>): set<nat> {
    set k | 0 <= k < |attempts| && Won(attempts[k], level) && Answer(k) in events
  }

  lemma {:induction false} WinnersSnoc(attempts: seq<Attempt>, level: Level, events: seq<Event>, slot: nat)
    requires slot < |attempts|
    ensures Winners(attempts, level, events + [Answer(slot)]) ==
            Winners(attempts, level, events) + if Won(attempts[slot], level) then {slot} else {}
  {
    hide Won;
    var more := events + [Answer(slot)];
    assert forall k :: Answer(k) in more <==> Answer(k) in events || k == slot;
  }

  lemma {:induction false} WinnersNext(attempts: seq<Attempt>, level: Level, events: seq<Event>, k: nat)
    requires OneEach(events, |attempts|) && k < |events| && events[k].Answer?
    ensures events[k].slot < |attempts|
    ensures |Winners(attempts, level, events[..k + 1])| ==
            |Winners(attempts, level, events[..k])| + if Won(attempts[events[k].slot], level) then 1 else 0
  {
    var slot := events[k].slot;
    assert slot !in Winners(attempts, level, events[..k]) by { NotYet(attempts, level, events, k); }
    assert events[..k + 1] == events[..k] + [Answer(slot)];
    hide Winners, Won;
    WinnersSnoc(attempts, level, events[..k], slot);
  }

  lemma {:induction false} NotYet(attempts: seq<Attempt>, level: Level, events: seq<Event>, k: nat)
    requires OneEach(events, |attempts|) && k < |events| && events[k].Answer?
    ensures events[k].slot !in Winners(attempts, level, events[..k])
  {
    hide Won;
    assert Answer(events[k].slot) !in events[..k];
  }

  lemma {:induction false} WinnersGrow(attempts: seq<Attempt>, level: Level, events: seq<Event>, k: nat, n: nat)
    requires k <= n <= |events|
    ensures Winners(attempts, level, events[..k]) <= Winners(attempts, level, events[..n])
    ensures |Winners(attempts, level, events[..k])| <= |Winners(attempts, level, events[..n])|
  {
    hide Won;
    assert forall e :: e in events[..k] ==> e in events[..n];
    CardinalityLess(Winners(attempts, level, events[..k]), Winners(attempts, level, events[..n]));
  }

  lemma {:induction false} CardinalityLess<T>(a: set<T>, b: set<T>)
    requires a <= b
    ensures |a| <= |b|
  {
    assert b == a + (b - a);
  }

  /** The first `k` arrivals are answers. */
  ghost predicate Answering(events: seq<Event>, k: nat)
    requires k <= |events|
  {
    Undisturbed(events[..k])
  }

  /** As many of the first `k` answers count as are needed. */
  ghost predicate Enough(attempts: seq<Attempt>, level: Level, events: seq<Event>, k: nat)
    requires k <= |events|
  {
    Suffices(level, |attempts|, |Winners(attempts, level, events[..k])|)
  }

  /** The wait was ended by `e` before enough answers counted. */
  ghost predicate EndedBy(attempts: seq<Attempt>, level: Level, events: seq<Event>, e: Event) {
    exists k :: 0 <= k < |events| && events[k] == e && Answering(events, k) && !Enough(attempts, level, events, k)
  }

  /** At some time enough answers counted and the wait was not ended yet. */
  ghost predicate Satisfied(attempts: seq<Attempt>, level: Level, events: seq<Event>) {
    exists k :: 0 < k <= |events| && Answering(events, k) && Enough(attempts, level, events, k)
  }

  /** Waits for the owners' results. Each outcome has its exact condition. */
  method WriteToShard(attempts: seq<Attempt>, level: Level, events: seq<Event>) returns (ack: Ack)
    requires |events| == |attempts| && OneEach(events, |attempts|)
    ensures ack == Success <==> Satisfied(attempts, level, events)
    ensures ack == TimedOut <==> EndedBy(attempts, level, events, Timeout)
    ensures ack == Closed <==> EndedBy(attempts, level, events, Closing)
    ensures ack == Failed <==> Undisturbed(events) && Winners(attempts, level, events) == {}
    ensures ack == Partial <==>
            && Undisturbed(events) && Winners(attempts, level, events) != {}
            && !Suffices(level, |attempts|, |Winners(attempts, level, events)|)
  {
    hide Winners, OneEach, Won, Satisfied, EndedBy, Undisturbed, Required, Suffices;
    var required := Required(level, |attempts|);
    var wrote := 0;
    WaitStart(attempts, level, events);
    for i := 0 to |attempts|
      invariant wrote == |Winners(attempts, level, events[..i])| && Answering(events, i)
      invariant wrote < required || attempts == []
    {
      RequiredExactly(level, |attempts|, wrote);
      match events[i] {
        case Closing =>
          Ended(attempts, level, events, i);
          return Closed;
        case Timeout =>
          Ended(attempts, level, events, i);
          return TimedOut;
        case Answer(slot) =>
          WinnersNext(attempts, level, events, i);
          AnsweringNext(events, i);
          var ok := WriteOwner(attempts[slot], level);
          if ok {
            wrote := wrote + 1;
            RequiredExactly(level, |attempts|, wrote);
            if wrote >= required {
              Done(attempts, level, events, i + 1);
              return Success;
            }
          }
      }
    }
    assert events[..|attempts|] == events;
    RequiredExactly(level, |attempts|, wrote);
    Exhausted(attempts, level, events);
    if wrote > 0 {
      return Partial;
    }
    return Failed;
  }

  lemma {:induction false} WaitStart(attempts: seq<Attempt>, level: Level, events: seq<Event>)
    ensures |Winners(attempts, level, events[..0])| == 0 && Answering(events, 0)
    ensures attempts != [] ==> Required(level, |attempts|) > 0
  {
    hide Won;
    assert Winners(attempts, level, events[..0]) == {};
  }

  lemma {:induction false} AnsweringNext(events: seq<Event>, k: nat)
    requires k < |events| && Answering(events, k) && events[k].Answer?
    ensures Answering(events, k + 1)
  {
    assert forall i :: 0 <= i < k ==> events[..k + 1][i] == events[..k][i];
  }

  /** The first arrival that is no answer ends the wait. */
  lemma {:induction false} FirstEnd(events: seq<Event>, n: nat, k: nat)
    requires n < |events| && Answering(events, n) && !events[n].Answer? && k <= |events|
    ensures Answering(events, k) <==> k <= n
  {
    if k <= n {
      assert forall i :: 0 <= i < k ==> events[..k][i] == events[..n][i];
    } else {
      assert events[..k][n] == events[n];
    }
  }

  lemma {:induction false} Ended(attempts: seq<Attempt>, level: Level, events: seq<Event>, n: nat)
    requires n < |events| && Answering(events, n) && !events[n].Answer? && !Enough(attempts, level, events, n)
    ensures !Satisfied(attempts, level, events) && !Undisturbed(events)
    ensures forall e :: EndedBy(attempts, level, events, e) && !e.Answer? ==> e == events[n]
    ensures EndedBy(attempts, level, events, events[n])
  {
    hide Winners, Answering;
    forall k | 0 <= k <= |events| && Answering(events, k) ensures !Enough(attempts, level, events, k) {
      FirstEnd(events, n, k);
      WinnersGrow(attempts, level, events, k, n);
    }
    forall k | 0 <= k < |events| && Answering(events, k) && !events[k].Answer? ensures k == n {
      FirstEnd(events, n, k);
      FirstEnd(events, k, n);
    }
  }

  lemma {:induction false} Done(attempts: seq<Attempt>, level: Level, events: seq<Event>, n: nat)
    requires 0 < n <= |events| && Answering(events, n) && Enough(attempts, level, events, n)
    requires !Enough(attempts, level, events, n - 1)
    ensures Satisfied(attempts, level, events)
    ensures forall e: Event :: !e.Answer? ==> !EndedBy(attempts, level, events, e)
    ensures Suffices(level, |attempts|, |Winners(attempts, level, events)|)
    ensures Winners(attempts, level, events) != {}
  {
    hide Winners, Answering;
    forall k | 0 <= k < |events| && Answering(events, k) && !events[k].Answer?
        ensures Enough(attempts, level, events, k) {
      FirstEnd(events, k, n);
      WinnersGrow(attempts, level, events, n, k);
    }
    assert events[..|events|] == events;
    WinnersGrow(attempts, level, events, n, |events|);
  }

  lemma {:induction false} Exhausted(attempts: seq<Attempt>, level: Level, events: seq<Event>)
    requires |events| == |attempts| && Answering(events, |events|)
    requires !Suffices(level, |attempts|, |Winners(attempts, level, events)|) || attempts == []
    ensures Undisturbed(events) && !Satisfied(attempts, level, events)
    ensures forall e: Event :: !e.Answer? ==> !EndedBy(attempts, level, events, e)
    ensures attempts == [] ==> Winners(attempts, level, events) == {}
  {
    hide Won;
    assert events[..|events|] == events;
    forall k | 0 <= k <= |events| && events != [] ensures !Enough(attempts, level, events, k) {
      WinnersGrow(attempts, level, events, k, |events|);
    }
  }

  // ---------------------------------------------------------------- what the levels buy

  ghost function Slots(n: nat): (s: set<nat>)
    ensures |s| == n && forall k: nat :: k in s <==> k < n
  {
    if n == 0 then {} else Slots(n - 1) + {n - 1}
  }

  /** What a counted answer stands for: at every level but Any the points have reached that owner. */
  lemma {:induction false} WinnersReached(attempts: seq<Attempt>, level: Level, events: seq<Event>, k: nat)
    requires k in Winners(attempts, level, events)
    ensures Winners(attempts, level, events) <= Slots(|attempts|) && k < |attempts|
    ensures level != Any ==> Reached(attempts[k])
    ensures level == Any ==> Reached(attempts[k]) || attempts[k].handoff == Queued
  {
    hide Reached;
  }

  /** The nodes behind some numbers of the list. */
  ghost function NodesAt(owners: seq<NodeId>, won: set<nat>): set<NodeId> {
    set k | k in won && k < |owners| :: owners[k]
  }

  /** There are as many of them exactly if no node is counted twice. */
  lemma {:induction false} NodesExactly(owners: seq<NodeId>, won: set<nat>)
    requires won <= Slots(|owners|)
    ensures |NodesAt(owners, won)| <= |won|
    ensures |NodesAt(owners, won)| == |won| <==>
            forall k, m :: k in won && m in won && k != m ==> owners[k] != owners[m]
    decreases |won|
  {
    hide Slots;
    if k :| k in won {
      var rest := won - {k};
      assert k < |owners| && rest <= Slots(|owners|) by { SlotBound(owners, won); }
      NodesExactly(owners, rest);
      assert NodesAt(owners, won) == NodesAt(owners, rest) + {owners[k]};
      if owners[k] in NodesAt(owners, rest) {
        var m :| m in rest && m < |owners| && owners[m] == owners[k];
        assert m in won && m != k;
        assert |NodesAt(owners, won)| <= |rest| < |won|;
      } else {
        assert |NodesAt(owners, won)| == |NodesAt(owners, rest)| + 1;
        NoDouble(owners, won, k);
      }
    } else {
      assert won == {} && NodesAt(owners, won) == {};
    }
  }

  lemma {:induction false} SlotBound(owners: seq<NodeId>, won: set<nat>)
    requires won <= Slots(|owners|)
    ensures forall k :: k in won ==> k < |owners|
  {
  }

  lemma {:induction false} NoDouble(owners: seq<NodeId>, won: set<nat>, k: nat)
    requires won <= Slots(|owners|) && k in won && owners[k] !in NodesAt(owners, won - {k})
    ensures (forall i, m :: i in won && m in won && i != m ==> owners[i] != owners[m]) <==>
            forall i, m :: i in won - {k} && m in won - {k} && i != m ==> owners[i] != owners[m]
  {
    forall m | m in won && m != k ensures owners[m] != owners[k] {
      assert m in won - {k} && m < |owners|;
    }
  }

  /** So it is if every node is in the list once. */
  lemma {:induction false} DistinctNodes(owners: seq<NodeId>, won: set<nat>)
    requires Distinct(owners) && won <= Slots(|owners|)
    ensures |NodesAt(owners, won)| == |won|
  {
    NodesExactly(owners, won);
    forall k, m | k in won && m in won && k != m ensures owners[k] != owners[m] {
      assert k < m ==> owners[k] != owners[m];
    }
  }

  /** With a node in the list twice, a quorum can be that node alone. */
  method QuorumOfOne() returns (ack: Ack, attempts: seq<Attempt>, events: seq<Event>)
    ensures |attempts| == 3 && ack == Success
    ensures NodesAt([1, 1, 2], Winners(attempts, Quorum, events)) == {1}
  {
    hide Satisfied, EndedBy, Winners, OneEach, NodesAt;
    attempts := [There(true, NoHandoff), There(true, NoHandoff), There(false, NoHandoff)];
    events := [Answer(0), Answer(1), Answer(2)];
    assert OneEach(events, 3) by { Three(); }
    ack := WriteToShard(attempts, Quorum, events);
    assert Winners(attempts, Quorum, events) == {0, 1} by { FirstTwo(attempts, Quorum, events); }
    AllAnswered(attempts, Quorum, events);
    assert NodesAt([1, 1, 2], {0, 1}) == {1} by { OneNode(1, 2); }
  }

  lemma {:induction false} AllAnswered(attempts: seq<Attempt>, level: Level, events: seq<Event>)
    requires events != [] && Undisturbed(events)
    requires Suffices(level, |attempts|, |Winners(attempts, level, events)|)
    ensures Satisfied(attempts, level, events)
  {
    hide Winners;
    assert events[..|events|] == events;
    assert Answering(events, |events|) && Enough(attempts, level, events, |events|);
  }

  lemma {:induction false} Three()
    ensures OneEach([Answer(0), Answer(1), Answer(2)], 3)
  {
  }

  lemma {:induction false} FirstTwo(attempts: seq<Attempt>, level: Level, events: seq<Event>)
    requires |attempts| == 3 && events == [Answer(0), Answer(1), Answer(2)]
    requires Won(attempts[0], level) && Won(attempts[1], level) && !Won(attempts[2], level)
    ensures Winners(attempts, level, events) == {0, 1}
  {
    assert events[0] == Answer(0) && events[1] == Answer(1);
  }

  lemma {:induction false} OneNode(a: NodeId, b: NodeId)
    ensures NodesAt([a, a, b], {0, 1}) == {a}
  {
    assert [a, a, b][0] == a && [a, a, b][1] == a;
  }

  /** Any two quorums of one owner list share an owner, so a later quorum sees an earlier one. */
  lemma {:induction false} QuorumsMeet(owners: seq<NodeId>, a: set<nat>, b: set<nat>)
    requires a <= Slots(|owners|) && b <= Slots(|owners|)
    requires Suffices(Quorum, |owners|, |a|) && Suffices(Quorum, |owners|, |b|)
    ensures exists o :: o in NodesAt(owners, a) && o in NodesAt(owners, b)
  {
    hide Slots;
    SlotBound(owners, a);
    CardinalityLess(a + b, Slots(|owners|));
    assert |a + b| == |a| + |b| - |a * b|;
    assert a * b != {};
    var k :| k in a * b;
    assert owners[k] in NodesAt(owners, a) && owners[k] in NodesAt(owners, b);
  }

  /** A write at level All has reached every owner. */
  lemma {:induction false} AllReachesAll(owners: seq<NodeId>, a: set<nat>)
    requires a <= Slots(|owners|) && Suffices(All, |owners|, |a|)
    ensures a == Slots(|owners|) && forall i :: 0 <= i < |owners| ==> owners[i] in NodesAt(owners, a)
  {
    var all := Slots(|owners|);
    assert all == a + (all - a);
    assert |all - a| == 0;
    forall i | 0 <= i < |owners| ensures owners[i] in NodesAt(owners, a) {
      assert i in all;
    }
  }

  /** Whether a write succeeds does not depend on the order in which the owners answer. */
  lemma {:induction false} OrderIrrelevant(attempts: seq<Attempt>, level: Level, events: seq<Event>,
                                           events': seq<Event>)
    requires multiset(events) == multiset(events')
    ensures Winners(attempts, level, events) == Winners(attempts, level, events')
    ensures Undisturbed(events) <==> Undisturbed(events')
  {
    hide Won;
    assert forall e :: e in events <==> e in multiset(events);
    assert forall e :: e in events' <==> e in multiset(events');
    assert forall i :: 0 <= i < |events| ==> events[i] in events';
    assert forall i :: 0 <= i < |events'| ==> events'[i] in events;
  }
}
