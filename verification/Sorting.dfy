/** The library's sort, for any order. */
module Sorting {

  /** Of any two values at most one comes first, and "not after" is transitive. */
  ghost predicate Order<T(!new)>(less: (T, T) -> bool) {
    && (forall a, b :: less(a, b) ==> !less(b, a))
    && (forall a, b, c :: !less(b, a) && !less(c, b) ==> !less(c, a))
  }

  ghost predicate SortedBy<T>(s: seq<T>, less: (T, T) -> bool) {
    forall i, j :: 0 <= i < j < |s| ==> !less(s[j], s[i])
  }

  /** Nothing in front of `k` comes after `x`, nothing from `k` on comes before it. */
  ghost predicate Fits<T>(s: seq<T>, k: nat, x: T, less: (T, T) -> bool)
    requires k <= |s|
  {
    (forall i :: 0 <= i < k ==> !less(x, s[i])) && forall i :: k <= i < |s| ==> !less(s[i], x)
  }

  lemma {:induction false} FitsAt<T(!new)>(s: seq<T>, k: nat, x: T, less: (T, T) -> bool)
    requires Order(less) && SortedBy(s, less) && k <= |s| && (k > 0 ==> !less(x, s[k - 1]))
    requires forall i :: k <= i < |s| ==> less(x, s[i])
    ensures Fits(s, k, x, less)
  {
    forall i | 0 <= i < k ensures !less(x, s[i]) {
      assert i < k - 1 ==> !less(s[k - 1], s[i]);
    }
  }

  function Inserted<T>(s: seq<T>, k: nat, x: T): (r: seq<T>)
    requires k <= |s|
    ensures |r| == |s| + 1
  {
    s[..k] + [x] + s[k..]
  }

  lemma {:induction false} InsertedAt<T>(s: seq<T>, k: nat, x: T, i: nat)
    requires k <= |s| && i <= |s|
    ensures Inserted(s, k, x)[i] == if i < k then s[i] else if i == k then x else s[i - 1]
  {
    if i < k {
      assert Inserted(s, k, x)[i] == s[..k][i];
    } else if i > k {
      assert Inserted(s, k, x)[i] == s[k..][i - k - 1];
    }
  }

  lemma {:induction false} InsertedSorted<T>(s: seq<T>, k: nat, x: T, less: (T, T) -> bool)
    requires k <= |s| && SortedBy(s, less) && Fits(s, k, x, less)
    ensures SortedBy(Inserted(s, k, x), less)
  {
    hide Inserted;
    var r := Inserted(s, k, x);
    forall i, j | 0 <= i < j < |r| ensures !less(r[j], r[i]) {
      InsertedAt(s, k, x, i);
      InsertedAt(s, k, x, j);
      if j < k {
        assert !less(s[j], s[i]);
      } else if j == k {
        assert !less(x, s[i]);
      } else if i < k {
        assert !less(s[j - 1], s[i]);
      } else if i == k {
        assert !less(s[j - 1], x);
      } else {
        assert !less(s[j - 1], s[i - 1]);
      }
    }
  }

  lemma {:induction false} InsertedBag<T>(s: seq<T>, k: nat, x: T)
    requires k <= |s|
    ensures multiset(Inserted(s, k, x)) == multiset(s) + multiset{x}
  {
    assert s == s[..k] + s[k..];
  }

  method Sort<T(!new)>(s: seq<T>, less: (T, T) -> bool) returns (out: seq<T>)
    requires Order(less)
    ensures SortedBy(out, less) && multiset(out) == multiset(s)
  {
    hide Order, Fits, Inserted;
    out := [];
    for i := 0 to |s|
      invariant SortedBy(out, less) && multiset(out) == multiset(s[..i])
    {
      assert s[..i + 1] == s[..i] + [s[i]];
      var k := |out|;
      while k > 0 && less(s[i], out[k - 1])
        invariant 0 <= k <= |out| && forall j :: k <= j < |out| ==> less(s[i], out[j])
      {
        k := k - 1;
      }
      FitsAt(out, k, s[i], less);
      InsertedSorted(out, k, s[i], less);
      InsertedBag(out, k, s[i]);
      out := Inserted(out, k, s[i]);
    }
    assert s[..|s|] == s;
  }
}
