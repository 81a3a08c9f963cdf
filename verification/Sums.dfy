/** Sums of the values of finite maps. */
module Sums {

  function GetOr<K(==)>(m: map<K, nat>, k: K): (r: nat) {
    if k in m then m[k] else 0
  }

  ghost function SumMap<K>(m: map<K, nat>): (r: nat)
    decreases m.Keys
  {
    if m.Keys == {} then 0 else
      var k :| k in m;
      m[k] + SumMap(m - {k})
  }

  lemma {:induction false} SumMapRemove<K>(m: map<K, nat>, k: K)
    requires k in m
    ensures SumMap(m) == m[k] + SumMap(m - {k})
    decreases m.Keys
  {
    var j :| j in m && SumMap(m) == m[j] + SumMap(m - {j});
    if j != k {
      SumMapRemove(m - {j}, k);
      SumMapRemove(m - {k}, j);
      assert m - {j} - {k} == m - {k} - {j};
    }
  }

  lemma SumMapUpdate<K>(m: map<K, nat>, k: K, v: nat)
    ensures SumMap(m[k := v]) == SumMap(m) - GetOr(m, k) + v
  {
    SumMapRemove(m[k := v], k);
    assert m[k := v] - {k} == m - {k};
    if k in m {
      SumMapRemove(m, k);
    } else {
      assert m - {k} == m;
    }
  }

  lemma SumMapNothing<K>()
    ensures SumMap<K>(map[]) == 0
  {
  }
}
