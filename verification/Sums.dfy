/** Sums over the values of a map, and how one update of the map changes them. */
module Sums {

  ghost function SumOver<K(!new)>(m: map<K, int>, keys: set<K>): int
    requires keys <= m.Keys
  {
    if keys == {} then 0 else
    var k :| k in keys;
    m[k] + SumOver(m, keys - {k})
  }

  ghost function MapSum<K(!new)>(m: map<K, int>): int {
    SumOver(m, m.Keys)
  }

  lemma {:induction false} SumOverSplit<K(!new)>(m: map<K, int>, keys: set<K>, k: K)
    requires keys <= m.Keys && k in keys
    ensures SumOver(m, keys) == m[k] + SumOver(m, keys - {k})
    decreases |keys|
  {
    var c :| c in keys && SumOver(m, keys) == m[c] + SumOver(m, keys - {c});
    if c != k {
      SumOverSplit(m, keys - {c}, k);
      SumOverSplit(m, keys - {k}, c);
      assert keys - {c} - {k} == keys - {k} - {c};
    }
  }

  lemma {:induction false} SumOverFrame<K(!new)>(m: map<K, int>, m': map<K, int>, keys: set<K>)
    requires keys <= m.Keys && keys <= m'.Keys
    requires forall k :: k in keys ==> m[k] == m'[k]
    ensures SumOver(m, keys) == SumOver(m', keys)
    decreases |keys|
  {
    if keys != {} {
      var c :| c in keys && SumOver(m, keys) == m[c] + SumOver(m, keys - {c});
      SumOverSplit(m', keys, c);
      SumOverFrame(m, m', keys - {c});
    }
  }

  function Get<K>(m: map<K, int>, k: K): int {
    if k in m then m[k] else 0
  }

  /** Writing v at k moves the sum by v minus what k counted before. */
  lemma MapSumUpdate<K(!new)>(m: map<K, int>, k: K, v: int)
    ensures MapSum(m[k := v]) == MapSum(m) - Get(m, k) + v
  {
    var m' := m[k := v];
    SumOverSplit(m', m'.Keys, k);
    assert m'.Keys - {k} == m.Keys - {k};
    SumOverFrame(m, m', m.Keys - {k});
    if k in m {
      SumOverSplit(m, m.Keys, k);
    } else {
      assert m.Keys - {k} == m.Keys;
    }
  }

  /** Dropping k lowers the sum by what k counted. */
  lemma MapSumRemove<K(!new)>(m: map<K, int>, k: K)
    ensures MapSum(m - {k}) == MapSum(m) - Get(m, k)
  {
    var m' := m - {k};
    SumOverFrame(m, m', m'.Keys);
    assert m'.Keys == m.Keys - {k};
    if k in m {
      SumOverSplit(m, m.Keys, k);
    } else {
      assert m'.Keys == m.Keys;
    }
  }
}
