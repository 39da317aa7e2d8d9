/** Sums over the values of a finite map. */
module MapSum {

  ghost function Sum<K(!new), V>(m: map<K, V>, w: V -> nat): nat
    decreases |m|
  {
    if m == map[] then 0
    else
      var k :| k in m;
      w(m[k]) + Sum(m - {k}, w)
  }

  /** The sum does not depend on the order in which the keys are taken. */
  lemma {:induction false} SumSplit<K(!new), V>(m: map<K, V>, w: V -> nat, k: K)
    requires k in m
    ensures Sum(m, w) == w(m[k]) + Sum(m - {k}, w)
    decreases |m|
  {
    var c :| c in m && Sum(m, w) == w(m[c]) + Sum(m - {c}, w);
    if c != k {
      SumSplit(m - {c}, w, k);
      assert (m - {c}) - {k} == (m - {k}) - {c};
      SumSplit(m - {k}, w, c);
    }
  }

  lemma SumUpdate<K(!new), V>(m: map<K, V>, w: V -> nat, k: K, v: V)
    ensures Sum(m[k := v], w) == Sum(m, w) + w(v) - if k in m then w(m[k]) else 0
  {
    SumSplit(m[k := v], w, k);
    assert m[k := v] - {k} == m - {k};
    if k in m {
      SumSplit(m, w, k);
    } else {
      assert m - {k} == m;
    }
  }
}
