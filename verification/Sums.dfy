/** Totals over finite maps, used wherever a counter must equal a sum over live users. */
module Sums {

  ghost function Pick<K, V>(m: map<K, V>): (k: K)
    requires |m| != 0
    ensures k in m
  {
    var k :| k in m; k
  }

  /** The sum of f over all entries of m. */
  ghost function Total<K(!new), V(!new)>(m: map<K, V>, f: (K, V) -> int): int
    decreases |m|
  {
    if |m| == 0 then 0
    else
      var k := Pick(m);
      assert (m - {k}).Keys == m.Keys - {k};
      f(k, m[k]) + Total(m - {k}, f)
  }

  lemma {:induction false} TotalWithout<K(!new), V(!new)>(m: map<K, V>, f: (K, V) -> int, k: K)
    requires k in m
    ensures Total(m, f) == f(k, m[k]) + Total(m - {k}, f)
    decreases |m|
  {
    var c := Pick(m);
    if c != k {
      assert (m - {c}).Keys == m.Keys - {c};
      assert (m - {k}).Keys == m.Keys - {k};
      TotalWithout(m - {c}, f, k);
      TotalWithout(m - {k}, f, c);
      assert m - {c} - {k} == m - {k} - {c};
    }
  }

  lemma TotalPut<K(!new), V(!new)>(m: map<K, V>, f: (K, V) -> int, k: K, v: V)
    ensures Total(m[k := v], f) == Total(m, f) - (if k in m then f(k, m[k]) else 0) + f(k, v)
  {
    TotalWithout(m[k := v], f, k);
    if k in m {
      TotalWithout(m, f, k);
      assert m[k := v] - {k} == m - {k};
    } else {
      assert m[k := v] - {k} == m;
    }
  }

  lemma {:induction false} TotalNonNegative<K(!new), V(!new)>(m: map<K, V>, f: (K, V) -> int)
    requires forall k :: k in m ==> f(k, m[k]) >= 0
    ensures Total(m, f) >= 0
    decreases |m|
  {
    if |m| != 0 {
      var c := Pick(m);
      assert (m - {c}).Keys == m.Keys - {c};
      TotalNonNegative(m - {c}, f);
    }
  }

  lemma {:induction false} TotalZero<K(!new), V(!new)>(m: map<K, V>, f: (K, V) -> int)
    requires forall k :: k in m ==> f(k, m[k]) == 0
    ensures Total(m, f) == 0
    decreases |m|
  {
    if |m| != 0 {
      var c := Pick(m);
      assert (m - {c}).Keys == m.Keys - {c};
      TotalZero(m - {c}, f);
    }
  }

  lemma {:induction false} TotalAtMostSize<K(!new), V(!new)>(m: map<K, V>, f: (K, V) -> int)
    requires forall k :: k in m ==> f(k, m[k]) <= 1
    ensures Total(m, f) <= |m|
    decreases |m|
  {
    if |m| != 0 {
      var c := Pick(m);
      assert (m - {c}).Keys == m.Keys - {c};
      TotalAtMostSize(m - {c}, f);
    }
  }

  /** With no negative summand, any one summand is bounded by the total. */
  lemma TotalAtLeast<K(!new), V(!new)>(m: map<K, V>, f: (K, V) -> int, k: K)
    requires forall k :: k in m ==> f(k, m[k]) >= 0
    requires k in m
    ensures f(k, m[k]) <= Total(m, f)
  {
    TotalWithout(m, f, k);
    TotalNonNegative(m - {k}, f);
  }

  /** With no negative summand, any two summands together are bounded by the total. */
  lemma TotalAtLeastTwo<K(!new), V(!new)>(m: map<K, V>, f: (K, V) -> int, j: K, k: K)
    requires forall k :: k in m ==> f(k, m[k]) >= 0
    requires j in m && k in m && j != k
    ensures f(j, m[j]) + f(k, m[k]) <= Total(m, f)
  {
    TotalWithout(m, f, j);
    TotalAtLeast(m - {j}, f, k);
  }
}
