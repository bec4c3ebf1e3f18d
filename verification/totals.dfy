/** Sums over the values of a finite map, independent of any enumeration order. */
module Totals {

  /** One if the condition holds. */
  ghost function OneIf(b: bool): nat {
    if b then 1 else 0
  }

  ghost function Total<K(!new)>(m: map<K, nat>): nat
    decreases |m|
  {
    if m == map[] then 0 else
      var k :| k in m;
      m[k] + Total(m - {k})
  }

  lemma {:induction false} TotalSplit<K(!new)>(m: map<K, nat>, k: K)
    requires k in m
    ensures Total(m) == m[k] + Total(m - {k})
    decreases |m|
  {
    var p :| p in m && Total(m) == m[p] + Total(m - {p});
    if p != k {
      TotalSplit(m - {p}, k);
      TotalSplit(m - {k}, p);
      assert m - {p} - {k} == m - {k} - {p};
    }
  }

  /** `rename` and `back` are inverse bijections. */
  ghost predicate Inverse<K(!new)>(rename: map<K, K>, back: map<K, K>) {
    && (forall k :: k in rename ==> rename[k] in back && back[rename[k]] == k)
    && (forall k :: k in back ==> back[k] in rename && rename[back[k]] == k)
  }

  /** `before` is `after` re-keyed by `rename`, plus what was `taken` from each key. */
  ghost predicate Balanced<K(!new)>(before: map<K, nat>, rename: map<K, K>, after: map<K, nat>, taken: map<K, nat>) {
    && before.Keys == rename.Keys == taken.Keys
    && forall k :: k in before ==> rename[k] in after && before[k] == after[rename[k]] + taken[k]
  }

  lemma {:induction false} TotalRekey<K(!new)>(before: map<K, nat>, rename: map<K, K>, back: map<K, K>,
                                               after: map<K, nat>, taken: map<K, nat>)
    requires Inverse(rename, back) && after.Keys == back.Keys
    requires Balanced(before, rename, after, taken)
    ensures Total(before) == Total(after) + Total(taken)
    decreases |before|
  {
    if before == map[] {
      assert taken == map[];
      assert after == map[];
    } else {
      var k :| k in before;
      var k' := rename[k];
      TotalSplit(before, k);
      TotalSplit(taken, k);
      TotalSplit(after, k');
      TotalRekey(before - {k}, rename - {k}, back - {k'}, after - {k'}, taken - {k});
    }
  }

  lemma {:induction false} TotalIsZero<K(!new)>(m: map<K, nat>)
    ensures Total(m) == 0 <==> forall k :: k in m ==> m[k] == 0
    decreases |m|
  {
    if m != map[] {
      var k :| k in m;
      TotalSplit(m, k);
      TotalIsZero(m - {k});
      assert forall j :: j in m ==> j == k || (j in m - {k} && (m - {k})[j] == m[j]);
    }
  }

  lemma {:induction false} TotalFewer<K(!new)>(after: map<K, nat>, before: map<K, nat>)
    requires after.Keys <= before.Keys
    requires forall k :: k in after ==> after[k] <= before[k]
    ensures Total(after) <= Total(before)
    decreases |before|
  {
    if before != map[] {
      var k :| k in before;
      TotalSplit(before, k);
      if k in after {
        TotalSplit(after, k);
        TotalFewer(after - {k}, before - {k});
      } else {
        TotalFewer(after, before - {k});
      }
    }
  }

  /** Where every key counts for something, an equal total means nothing was lost. */
  lemma {:induction false} TotalSame<K(!new)>(after: map<K, nat>, before: map<K, nat>, k: K)
    requires after.Keys <= before.Keys
    requires forall j :: j in after ==> after[j] <= before[j]
    requires Total(after) == Total(before)
    requires k in before && before[k] > 0
    ensures k in after && after[k] == before[k]
  {
    TotalSplit(before, k);
    if k in after {
      TotalSplit(after, k);
      TotalFewer(after - {k}, before - {k});
    } else {
      TotalFewer(after, before - {k});
    }
  }
}
