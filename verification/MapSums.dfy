/** Sums over the entries of a map. */
module MapSums {

  ghost function Pick<K(!new), V>(m: map<K, V>): (k: K)
    requires m != map[]
    ensures k in m
  {
    assert m.Keys != {};
    var k :| k in m;
    k
  }

  ghost function Sum<K(!new), V>(m: map<K, V>, w: (K, V) -> nat): nat
    decreases |m|
  {
    if m == map[] then 0 else Less(m, Pick(m)); w(Pick(m), m[Pick(m)]) + Sum(m - {Pick(m)}, w)
  }

  lemma {:induction false} Less<K, V>(m: map<K, V>, k: K)
    requires k in m
    ensures |m - {k}| < |m|
  {
    var n := m - {k};
    assert n.Keys == m.Keys - {k};
    assert |n.Keys| == |n| && |m.Keys| == |m|;
  }

  /** One entry can be taken out of a sum, whichever it is. */
  lemma {:induction false} SumRemove<K(!new), V>(m: map<K, V>, k: K, w: (K, V) -> nat)
    requires k in m
    ensures Sum(m, w) == w(k, m[k]) + Sum(m - {k}, w)
    decreases |m|
  {
    var x := Pick(m);
    if x != k {
      Less(m, x);
      Less(m, k);
      SumRemove(m - {x}, k, w);
      SumRemove(m - {k}, x, w);
      assert (m - {x}) - {k} == (m - {k}) - {x};
    }
  }

  lemma {:induction false} SumPut<K(!new), V>(m: map<K, V>, k: K, v: V, w: (K, V) -> nat)
    ensures Sum(m[k := v], w) == w(k, v) + Sum(m - {k}, w)
    ensures Sum(m, w) == Sum(m - {k}, w) + if k in m then w(k, m[k]) else 0
  {
    SumRemove(m[k := v], k, w);
    assert m[k := v] - {k} == m - {k};
    if k in m {
      SumRemove(m, k, w);
    } else {
      assert m - {k} == m;
    }
  }

  lemma {:induction false} SumNone<K(!new), V>(w: (K, V) -> nat)
    ensures Sum(map[], w) == 0
  {
  }

  /** An entry weighs no more than the whole. */
  lemma {:induction false} SumPart<K(!new), V>(m: map<K, V>, k: K, w: (K, V) -> nat)
    requires k in m
    ensures w(k, m[k]) <= Sum(m, w)
  {
    SumRemove(m, k, w);
  }
}
