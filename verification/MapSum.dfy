/** Sums over the values of a map. */
module MapSum {
  ghost function Sum<K>(m: map<K, int>): int {
    if m == map[] then 0 else var k :| k in m; m[k] + Sum(m - {k})
  }

  lemma {:induction false} SumTakesOut<K>(m: map<K, int>, k: K)
    requires k in m
    ensures Sum(m) == m[k] + Sum(m - {k})
    decreases |m|
  {
    var j :| j in m && Sum(m) == m[j] + Sum(m - {j});
    if j != k {
      SumTakesOut(m - {j}, k);
      SumTakesOut(m - {k}, j);
      assert m - {j} - {k} == m - {k} - {j};
    }
  }

  lemma SumUpdates<K>(m: map<K, int>, k: K, v: int)
    ensures Sum(m[k := v]) == Sum(m) - (if k in m then m[k] else 0) + v
  {
    SumTakesOut(m[k := v], k);
    assert m[k := v] - {k} == m - {k};
    if k in m {
      SumTakesOut(m, k);
    } else {
      assert m - {k} == m;
    }
  }

  /** Without negative values a sum is zero exactly when every value is. */
  lemma {:induction false} SumIsZeroIff<K>(m: map<K, int>)
    requires forall k :: k in m ==> m[k] >= 0
    ensures Sum(m) >= 0
    ensures Sum(m) == 0 <==> forall k :: k in m ==> m[k] == 0
    decreases |m|
  {
    if m != map[] {
      var k :| k in m && Sum(m) == m[k] + Sum(m - {k});
      SumIsZeroIff(m - {k});
      assert forall j :: j in m ==> j == k || j in m - {k};
    }
  }

  /** A sum of zeros is zero. */
  lemma SumOfZeros<K>(m: map<K, int>)
    requires forall k :: k in m ==> m[k] == 0
    ensures Sum(m) == 0
  {
    SumIsZeroIff(m);
  }

  lemma UnionWithout<K>(a: map<K, int>, b: map<K, int>, k: K)
    requires k in b && k !in a
    ensures (a + b) - {k} == a + (b - {k})
  {
  }

  lemma {:induction false} SumOfDisjointUnion<K>(a: map<K, int>, b: map<K, int>)
    requires a.Keys !! b.Keys
    ensures Sum(a + b) == Sum(a) + Sum(b)
    decreases |b|
  {
    if b == map[] {
      assert a + b == a;
    } else {
      var k :| k in b;
      var fewer := b - {k};
      SumOfDisjointUnion(a, fewer);
      SumTakesOut(b, k);
      SumTakesOut(a + b, k);
      UnionWithout(a, b, k);
    }
  }
}
