/** Sums over the entries of a map. */
module MapSum {

  ghost function Sum<K>(m: map<K, int>): int {
    if m == map[] then 0
    else
      var k :| k in m;
      m[k] + Sum(m - {k})
  }

  /** Any entry can be taken out first. */
  lemma {:induction false} SumTakeOut<K>(m: map<K, int>, k: K)
    requires k in m
    ensures Sum(m) == m[k] + Sum(m - {k})
    decreases |m|
  {
    var j :| j in m && Sum(m) == m[j] + Sum(m - {j});
    if j != k {
      var a, b := m - {j}, m - {k};
      assert a.Keys == m.Keys - {j} && b.Keys == m.Keys - {k};
      SumTakeOut(a, k);
      SumTakeOut(b, j);
      assert a - {k} == b - {j};
    }
  }

  /** Changing or adding one entry changes the sum by that much. */
  lemma SumUpdate<K>(m: map<K, int>, k: K, v: int)
    ensures Sum(m[k := v]) == Sum(m) - (if k in m then m[k] else 0) + v
  {
    SumTakeOut(m[k := v], k);
    assert m[k := v] - {k} == m - {k};
    if k in m {
      SumTakeOut(m, k);
    } else {
      assert m - {k} == m;
    }
  }

  /** Taking out an entry, which may be missing. */
  lemma SumDrop<K>(m: map<K, int>, k: K)
    ensures Sum(m - {k}) == Sum(m) - (if k in m then m[k] else 0)
  {
    if k in m {
      SumTakeOut(m, k);
    } else {
      assert m - {k} == m;
    }
  }

  lemma {:induction false} SumBound<K>(m: map<K, int>, k: K)
    requires forall j :: j in m ==> m[j] >= 0
    ensures Sum(m) >= 0
    ensures k in m ==> m[k] <= Sum(m)
    decreases |m|
  {
    if m != map[] {
      var j :| j in m && Sum(m) == m[j] + Sum(m - {j});
      var rest := m - {j};
      assert rest.Keys == m.Keys - {j};
      SumBound(rest, k);
    }
  }
}
