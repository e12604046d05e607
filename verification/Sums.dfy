/** Sums over the rows of a table, a table being a map from its key to a number. */
module Sums {

  function Get<K>(m: map<K, int>, k: K): int { if k in m then m[k] else 0 }

  ghost function Pick<K>(m: map<K, int>): (k: K)
    requires m != map[]
    ensures k in m
  {
    var k :| k in m; k
  }

  /** The sum of the rows whose key is selected. */
  ghost function Sum<K>(m: map<K, int>, sel: K -> bool): int {
    if m == map[] then 0 else
      var k := Pick(m);
      (if sel(k) then m[k] else 0) + Sum(m - {k}, sel)
  }

  lemma {:induction false} SumSplit<K>(m: map<K, int>, sel: K -> bool, k: K)
    requires k in m
    ensures Sum(m, sel) == (if sel(k) then m[k] else 0) + Sum(m - {k}, sel)
  {
    var p := Pick(m);
    if p != k {
      SumSplit(m - {p}, sel, k);
      SumSplit(m - {k}, sel, p);
      assert m - {p} - {k} == m - {k} - {p};
    }
  }

  /** Writing one row changes the sum by what the row changes. */
  lemma SumWrite<K>(m: map<K, int>, sel: K -> bool, k: K, v: int)
    ensures Sum(m[k := v], sel) == Sum(m, sel) + if sel(k) then v - Get(m, k) else 0
  {
    SumSplit(m[k := v], sel, k);
    assert m[k := v] - {k} == m - {k};
    if k in m {
      SumSplit(m, sel, k);
    } else {
      assert m - {k} == m;
    }
  }

  /** Only the selected rows matter. */
  lemma {:induction false} SumAgree<K>(m: map<K, int>, m': map<K, int>, sel: K -> bool)
    requires forall k | sel(k) && k in m :: k in m' && m'[k] == m[k]
    requires forall k | sel(k) && k in m' :: k in m
    ensures Sum(m, sel) == Sum(m', sel)
    decreases |m| + |m'|
  {
    if m != map[] {
      var k := Pick(m);
      SumSplit(m, sel, k);
      if sel(k) {
        SumSplit(m', sel, k);
        SumAgree(m - {k}, m' - {k}, sel);
      } else {
        SumAgree(m - {k}, m', sel);
      }
    } else if m' != map[] {
      var k := Pick(m');
      SumSplit(m', sel, k);
      SumAgree(m, m' - {k}, sel);
    }
  }

  /** Adds up the selected rows, in whatever order they come. */
  method AddUp<K(==)>(m: map<K, int>, sel: K -> bool) returns (total: int)
    ensures total == Sum(m, sel)
  {
    total := 0;
    var rest := m;
    while rest != map[]
      invariant total + Sum(rest, sel) == Sum(m, sel)
      decreases |rest|
    {
      var k :| k in rest;
      SumSplit(rest, sel, k);
      if sel(k) {
        total := total + rest[k];
      }
      rest := rest - {k};
    }
  }
}
