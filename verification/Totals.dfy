/** The sum of the values of a finite map, in whatever order they are visited. */
module Totals {

  ghost function Pick<K>(m: map<K, nat>): (k: K)
    requires m.Keys != {}
    ensures k in m
  {
    var k :| k in m.Keys;
    k
  }

  ghost function Total<K>(m: map<K, nat>): nat
    decreases m.Keys
  {
    if m.Keys == {} then 0
    else
      var k := Pick(m);
      m[k] + Total(m - {k})
  }

  lemma {:induction false} TotalWithout<K>(m: map<K, nat>, k: K)
    requires k in m
    ensures Total(m) == m[k] + Total(m - {k})
    decreases m.Keys
  {
    var p := Pick(m);
    if p != k {
      TotalWithout(m - {p}, k);
      TotalWithout(m - {k}, p);
      assert m - {p} - {k} == m - {k} - {p};
    }
  }

  lemma TotalWith<K>(m: map<K, nat>, k: K, v: nat)
    requires k !in m
    ensures Total(m[k := v]) == Total(m) + v
  {
    TotalWithout(m[k := v], k);
    assert m[k := v] - {k} == m;
  }

  lemma {:induction false} TotalShrinks<K>(m: map<K, nat>, removed: set<K>)
    ensures Total(m - removed) <= Total(m)
    decreases removed
  {
    if k :| k in removed {
      if k in m { TotalWithout(m, k); }
      assert k !in m ==> m - {k} == m;
      TotalShrinks(m - {k}, removed - {k});
      assert m - {k} - (removed - {k}) == m - removed;
    } else {
      assert m - removed == m;
    }
  }

  lemma {:induction false} SubsetCardinality<K>(small: set<K>, large: set<K>)
    requires small <= large
    ensures |small| <= |large|
    decreases small
  {
    if k :| k in small {
      SubsetCardinality(small - {k}, large - {k});
    }
  }
}
