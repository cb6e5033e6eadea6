/** Sums over the values of a finite map, in no particular order. */
module MapSums {

  ghost function Sum<K, V>(m: map<K, V>, weight: V -> nat): nat
    decreases |m|
  {
    if m == map[] then 0
    else
      var k :| k in m;
      assert |m - {k}| < |m| by { RemovalShrinks(m, k); }
      weight(m[k]) + Sum(m - {k}, weight)
  }

  lemma RemovalShrinks<K, V>(m: map<K, V>, k: K)
    requires k in m
    ensures |m - {k}| == |m| - 1
  {
    assert (m - {k}).Keys == m.Keys - {k};
  }

  /** Any entry may be taken out first. */
  lemma {:induction false} SumRemove<K, V>(m: map<K, V>, k: K, weight: V -> nat)
    requires k in m
    ensures Sum(m, weight) == weight(m[k]) + Sum(m - {k}, weight)
    decreases |m|
  {
    var c :| c in m && Sum(m, weight) == weight(m[c]) + Sum(m - {c}, weight);
    if c != k {
      RemovalShrinks(m, c);
      RemovalShrinks(m, k);
      SumRemove(m - {c}, k, weight);
      SumRemove(m - {k}, c, weight);
      assert m - {c} - {k} == m - {k} - {c};
    }
  }

  lemma SumInsert<K, V>(m: map<K, V>, k: K, v: V, weight: V -> nat)
    requires k !in m
    ensures Sum(m[k := v], weight) == weight(v) + Sum(m, weight)
    ensures |m[k := v]| == |m| + 1
  {
    SumRemove(m[k := v], k, weight);
    assert m[k := v] - {k} == m;
  }

  lemma SumEmpty<K, V>(weight: V -> nat)
    ensures Sum<K, V>(map[], weight) == 0
  {
  }

  /** Dropping entries never raises a sum. */
  lemma {:induction false} SumMonotone<K, V>(m: map<K, V>, keys: set<K>, weight: V -> nat)
    ensures Sum(m - keys, weight) <= Sum(m, weight)
    ensures |m - keys| <= |m|
    decreases |m|
  {
    if keys * m.Keys == {} {
      assert m - keys == m;
    } else {
      var k :| k in keys && k in m;
      RemovalShrinks(m, k);
      SumRemove(m, k, weight);
      SumMonotone(m - {k}, keys, weight);
      assert (m - {k}) - keys == m - keys;
    }
  }

  /** An entry is never more than the sum. */
  lemma SumCovers<K, V>(m: map<K, V>, k: K, weight: V -> nat)
    requires k in m
    ensures weight(m[k]) <= Sum(m, weight)
  {
    SumRemove(m, k, weight);
  }
}
