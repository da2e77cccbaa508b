/** Sums over maps. */
module Sums {

  /** The sum of the values of a map. */
  ghost function MapSum<K>(m: map<K, int>): int
    decreases |m|
  {
    if m == map[] then 0
    else
      var k :| k in m;
      m[k] + MapSum(m - {k})
  }

  /** Any key may be split off. */
  lemma {:induction false} MapSumSplit<K>(m: map<K, int>, k: K)
    requires k in m
    ensures MapSum(m) == m[k] + MapSum(m - {k})
    decreases |m|
  {
    var j :| j in m && MapSum(m) == m[j] + MapSum(m - {j});
    if j != k {
      MapSumSplit(m - {j}, k);
      MapSumSplit(m - {k}, j);
      assert m - {j} - {k} == m - {k} - {j};
    }
  }

  /** Setting the value of a key changes the sum by the difference. */
  lemma {:induction false} MapSumUpdate<K>(m: map<K, int>, k: K, v: int)
    ensures MapSum(m[k := v]) == MapSum(m) + v - if k in m then m[k] else 0
  {
    var n := m[k := v];
    MapSumSplit(n, k);
    assert n - {k} == m - {k};
    if k in m {
      MapSumSplit(m, k);
    } else {
      assert m - {k} == m;
    }
  }
}
