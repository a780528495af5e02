// Sums over the values of a finite map.
module MapSums {

  ghost function Sum<K(!new)>(m: map<K, nat>): nat {
    if m == map[] then 0
    else
      var k :| k in m;
      m[k] + Sum(m - {k})
  }

  lemma {:induction false} SumWithout<K(!new)>(m: map<K, nat>, k: K)
    requires k in m
    ensures Sum(m) == m[k] + Sum(m - {k})
    decreases |m|
  {
    var j :| j in m && Sum(m) == m[j] + Sum(m - {j});
    if j != k {
      assert |m - {j}| < |m| by { assert (m - {j}).Keys == m.Keys - {j}; }
      assert |m - {k}| < |m| by { assert (m - {k}).Keys == m.Keys - {k}; }
      SumWithout(m - {j}, k);
      SumWithout(m - {k}, j);
      assert m - {j} - {k} == m - {k} - {j};
    }
  }

  /** Setting one value changes the sum by as much. */
  lemma SumAfterSet<K(!new)>(m: map<K, nat>, k: K, n: nat)
    ensures Sum(m[k := n]) + (if k in m then m[k] else 0) == Sum(m) + n
  {
    SumWithout(m[k := n], k);
    if k in m {
      SumWithout(m, k);
      assert m[k := n] - {k} == m - {k};
    } else {
      assert m[k := n] - {k} == m;
    }
  }

  lemma OneTimeMore(d: nat, n: nat)
    ensures d * (n + 1) == d * n + d && (n + 1) * d == n * d + d
  {
  }

  /** If no value grows by more than `d`, the sum grows by at most `d` for each key. */
  lemma {:induction false} SumGrowsAtMost<K(!new)>(m: map<K, nat>, m': map<K, nat>, d: nat)
    requires m'.Keys == m.Keys && forall k :: k in m ==> m'[k] <= m[k] + d
    ensures Sum(m') <= Sum(m) + d * |m|
    decreases |m|
  {
    if m == map[] {
      assert m' == map[];
    } else {
      var k :| k in m;
      SumGrowsAtMost(m - {k}, m' - {k}, d);
      SumWithout(m, k);
      SumWithout(m', k);
      OneTimeMore(d, |m| - 1);
    }
  }
}
