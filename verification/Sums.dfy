/** Adding up the values of a map. */
module Sums {

  ghost function SumMap<K>(m: map<K, int>): int {
    if m == map[] then 0
    else
      var k :| k in m;
      m[k] + SumMap(m - {k})
  }

  /** It does not matter which key is taken first. */
  lemma {:induction false} SumMapAny<K>(m: map<K, int>, k: K)
    requires k in m
    ensures SumMap(m) == m[k] + SumMap(m - {k})
  {
    var j :| j in m && SumMap(m) == m[j] + SumMap(m - {j});
    if j != k {
      SumMapAny(m - {j}, k);
      SumMapAny(m - {k}, j);
      assert m - {j} - {k} == m - {k} - {j};
    }
  }

  lemma SumMapSet<K>(m: map<K, int>, k: K, v: int)
    ensures SumMap(m[k := v]) == SumMap(m) - (if k in m then m[k] else 0) + v
  {
    SumMapAny(m[k := v], k);
    assert m[k := v] - {k} == m - {k};
    if k in m {
      SumMapAny(m, k);
    } else {
      assert m - {k} == m;
    }
  }
}
