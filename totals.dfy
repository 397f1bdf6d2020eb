/**
 * Sums of the values a finite map holds over a set of its keys. The handlers are
 * specified by what they do to such totals: the accounted balance of all escrow
 * records, the tokens held in all pooled accounts, the tokens held anywhere.
 */
module Totals {

  /** The sum of `m[k]` over every `k` in `keys`. */
  ghost function Sum<K>(m: map<K, int>, keys: set<K>): int
    requires keys <= m.Keys
    decreases keys
  {
    if keys == {} then 0
    else
      var k :| k in keys;
      m[k] + Sum(m, keys - {k})
  }

  /** Any key may be taken out of the sum first, not only the one the definition picks. */
  lemma {:induction false} SumPick<K>(m: map<K, int>, keys: set<K>, k: K)
    requires keys <= m.Keys && k in keys
    ensures Sum(m, keys) == m[k] + Sum(m, keys - {k})
    decreases keys
  {
    var j :| j in keys && Sum(m, keys) == m[j] + Sum(m, keys - {j});
    if j != k {
      SumPick(m, keys - {j}, k);
      SumPick(m, keys - {k}, j);
      assert keys - {j} - {k} == keys - {k} - {j};
    }
  }

  /** The sum over `keys` depends only on the values at those keys. */
  lemma {:induction false} SumFrame<K>(m1: map<K, int>, m2: map<K, int>, keys: set<K>)
    requires keys <= m1.Keys && keys <= m2.Keys
    requires forall k | k in keys :: m1[k] == m2[k]
    ensures Sum(m1, keys) == Sum(m2, keys)
    decreases keys
  {
    if keys != {} {
      var k :| k in keys;
      SumPick(m1, keys, k);
      SumPick(m2, keys, k);
      SumFrame(m1, m2, keys - {k});
    }
  }

  /** Overwriting one counted key changes the sum by the difference of the values. */
  lemma SumUpdate<K>(m: map<K, int>, keys: set<K>, k: K, v: int)
    requires keys <= m.Keys && k in keys
    ensures Sum(m[k := v], keys) == Sum(m, keys) - m[k] + v
  {
    SumPick(m, keys, k);
    SumPick(m[k := v], keys, k);
    SumFrame(m, m[k := v], keys - {k});
  }

  /** Moving `amount` from one counted key to another leaves the sum as it was. */
  lemma SumMove<K>(m: map<K, int>, keys: set<K>, from: K, to: K, amount: int)
    requires keys <= m.Keys && from in keys && to in keys && from != to
    ensures Sum(m[from := m[from] - amount][to := m[to] + amount], keys) == Sum(m, keys)
  {
    SumUpdate(m, keys, from, m[from] - amount);
    SumUpdate(m[from := m[from] - amount], keys, to, m[to] + amount);
  }

  /** Moving `amount` from an uncounted key into a counted one raises the sum by `amount`. */
  lemma SumMoveIn<K>(m: map<K, int>, keys: set<K>, from: K, to: K, amount: int)
    requires keys <= m.Keys && from in m && from !in keys && to in keys
    ensures Sum(m[from := m[from] - amount][to := m[to] + amount], keys) == Sum(m, keys) + amount
  {
    SumFrame(m, m[from := m[from] - amount], keys);
    SumUpdate(m[from := m[from] - amount], keys, to, m[to] + amount);
  }
}
