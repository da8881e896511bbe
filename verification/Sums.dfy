/** Sums over the records of a store bucket. */
module Sums {
  import opened Machine

  ghost function Total<V>(m: map<u64, V>, f: V -> nat): nat
    decreases m.Keys
  {
    if m.Keys == {} then 0
    else
      var k :| k in m.Keys;
      f(m[k]) + Total(m - {k}, f)
  }

  /** The sum does not depend on the order in which records are visited. */
  lemma {:induction false} TotalRemove<V>(m: map<u64, V>, f: V -> nat, k: u64)
    requires k in m
    ensures Total(m, f) == f(m[k]) + Total(m - {k}, f)
    decreases m.Keys
  {
    var j :| j in m.Keys && Total(m, f) == f(m[j]) + Total(m - {j}, f);
    if j != k {
      TotalRemove(m - {j}, f, k);
      TotalRemove(m - {k}, f, j);
      assert m - {j} - {k} == m - {k} - {j};
    }
  }

  lemma TotalInsert<V>(m: map<u64, V>, f: V -> nat, k: u64, v: V)
    requires k !in m
    ensures Total(m[k := v], f) == Total(m, f) + f(v)
  {
    TotalRemove(m[k := v], f, k);
    assert m[k := v] - {k} == m;
  }

  lemma TotalUpdate<V>(m: map<u64, V>, f: V -> nat, k: u64, v: V)
    requires k in m
    ensures Total(m[k := v], f) + f(m[k]) == Total(m, f) + f(v)
  {
    TotalRemove(m, f, k);
    TotalRemove(m[k := v], f, k);
    assert m[k := v] - {k} == m - {k};
  }

  /** Two stores that agree on the records `f` counts have the same sum. */
  lemma {:induction false} TotalAgrees<V>(m: map<u64, V>, n: map<u64, V>, f: V -> nat)
    requires forall k :: k in m && f(m[k]) > 0 ==> k in n && f(n[k]) == f(m[k])
    requires forall k :: k in n && f(n[k]) > 0 ==> k in m && f(n[k]) == f(m[k])
    ensures Total(m, f) == Total(n, f)
    decreases m.Keys + n.Keys
  {
    if k :| k in m {
      TotalRemove(m, f, k);
      if k in n {
        TotalRemove(n, f, k);
        TotalAgrees(m - {k}, n - {k}, f);
      } else {
        TotalAgrees(m - {k}, n, f);
      }
    } else if k :| k in n {
      TotalRemove(n, f, k);
      TotalAgrees(m, n - {k}, f);
    }
  }

  lemma {:induction false} TotalSplit<V>(m: map<u64, V>, f: V -> nat, g: V -> nat, h: V -> nat)
    requires forall v :: f(v) == g(v) + h(v)
    ensures Total(m, f) == Total(m, g) + Total(m, h)
    decreases m.Keys
  {
    if k :| k in m {
      TotalRemove(m, f, k);
      TotalRemove(m, g, k);
      TotalRemove(m, h, k);
      TotalSplit(m - {k}, f, g, h);
    }
  }

  lemma {:induction false} TotalContains<V>(m: map<u64, V>, f: V -> nat, k: u64)
    requires k in m
    ensures f(m[k]) <= Total(m, f)
  {
    TotalRemove(m, f, k);
  }
}
