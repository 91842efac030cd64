/** Sums of natural numbers over the keys of a finite map. */
module MapSum {

  ghost function Sum<K(!new)>(m: map<K, nat>): nat
    decreases |m|
  {
    if m == map[] then 0
    else
      var k :| k in m;
      m[k] + Sum(m - {k})
  }

  lemma {:induction false} SumRemove<K(!new)>(m: map<K, nat>, k: K)
    requires k in m
    ensures Sum(m) == m[k] + Sum(m - {k})
    decreases |m|
  {
    var p :| p in m && Sum(m) == m[p] + Sum(m - {p});
    if p != k {
      SumRemove(m - {p}, k);
      SumRemove(m - {k}, p);
      assert m - {p} - {k} == m - {k} - {p};
    }
  }

  lemma SumUpdate<K(!new)>(m: map<K, nat>, k: K, v: nat)
    ensures Sum(m[k := v]) == v + Sum(m - {k})
  {
    SumRemove(m[k := v], k);
    assert m[k := v] - {k} == m - {k};
  }

  lemma {:induction false} SumSplit<K(!new)>(m: map<K, nat>, part: set<K>)
    ensures Sum(m) == Sum(map k | k in m && k in part :: m[k]) + Sum(m - part)
    decreases |part|
  {
    var inside := map k | k in m && k in part :: m[k];
    if part == {} {
      assert inside.Keys == {};
      assert m - part == m;
    } else {
      var p :| p in part;
      var rest := part - {p};
      SumSplit(m, rest);
      if p in m {
        SumRemove(inside, p);
        SumRemove(m - rest, p);
        assert inside - {p} == map k | k in m && k in rest :: m[k];
        assert m - rest - {p} == m - part;
      } else {
        assert inside == map k | k in m && k in rest :: m[k];
        assert m - rest == m - part;
      }
    }
  }
}
