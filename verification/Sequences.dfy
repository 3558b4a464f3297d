/** Sequences in general. */
module Sequences {

  ghost predicate Distinct<T>(s: seq<T>) {
    forall i, j :: 0 <= i < j < |s| ==> s[i] != s[j]
  }

  lemma {:induction false} Regrouped<T>(a: seq<T>, b: seq<T>, c: seq<T>)
    ensures (a + b) + c == a + (b + c)
  {
  }

  /** The parts one after the other. */
  ghost function Concat<T>(parts: seq<seq<T>>): seq<T> {
    if parts == [] then [] else parts[0] + Concat(parts[1..])
  }

  lemma {:induction false} ConcatNone<T>()
    ensures Concat<T>([]) == []
  {
  }

  lemma {:induction false} ConcatCons<T>(p: seq<T>, parts: seq<seq<T>>)
    ensures Concat([p] + parts) == p + Concat(parts)
  {
    assert ([p] + parts)[1..] == parts;
  }

  lemma {:induction false} ConcatSnoc<T>(parts: seq<seq<T>>, p: seq<T>)
    ensures Concat(parts + [p]) == Concat(parts) + p
  {
    if parts == [] {
      assert parts + [p] == [p];
      assert Concat([p]) == p + Concat([]) == p;
    } else {
      assert (parts + [p])[1..] == parts[1..] + [p];
      ConcatSnoc(parts[1..], p);
      Regrouped(parts[0], Concat(parts[1..]), p);
    }
  }

  /** Two ways to cut one sequence that cut off the same lengths cut off the same pieces. */
  lemma {:induction false} SamePieces<T>(a: seq<seq<T>>, b: seq<seq<T>>, n: nat)
    requires Concat(a) == Concat(b) && n <= |a| && n <= |b| && forall i :: 0 <= i < n ==> |a[i]| == |b[i]|
    ensures forall i :: 0 <= i < n ==> a[i] == b[i]
    ensures n == |a| == |b| ==> a == b
  {
    if n > 0 {
      var x, y := Concat(a), Concat(b);
      assert x[..|a[0]|] == a[0] && y[..|b[0]|] == b[0];
      assert x[|a[0]|..] == Concat(a[1..]) && y[|b[0]|..] == Concat(b[1..]);
      SamePieces(a[1..], b[1..], n - 1);
      assert forall i :: 0 < i < n ==> a[i] == a[1..][i - 1] && b[i] == b[1..][i - 1];
    }
  }
}
