/**
 * Counting passes that stand for pandas' `value_counts` and for the
 * per-month sums of a reindexed series.
 */
module Counting {

  /**
   * `value_counts().to_dict()`: each key that occurs, mapped to how many
   * times it occurs. Keys that do not occur are not listed.
   */
  function CountBy<K>(keys: seq<K>): (m: map<K, nat>)
    ensures m.Keys == set k | k in keys
    ensures forall k :: k in m ==> m[k] == multiset(keys)[k] && m[k] > 0
  {
    if keys == [] then map[]
    else
      var init, x := keys[..|keys| - 1], keys[|keys| - 1];
      assert keys == init + [x];
      var m := CountBy(init);
      m[x := if x in m then m[x] + 1 else 1]
  }

  /** The sum of the values of a map. */
  ghost function SumValues<K>(m: map<K, nat>): nat
    decreases |m|
  {
    if m == map[] then 0
    else
      var k :| k in m;
      m[k] + SumValues(m - {k})
  }

  /** The sum can be split at any key, not only the one SumValues picks. */
  lemma {:induction false} SumValuesRemove<K>(m: map<K, nat>, k: K)
    requires k in m
    ensures SumValues(m) == m[k] + SumValues(m - {k})
    decreases |m|
  {
    var j :| j in m && SumValues(m) == m[j] + SumValues(m - {j});
    if j != k {
      assert m - {j} - {k} == m - {k} - {j};
      SumValuesRemove(m - {j}, k);
      SumValuesRemove(m - {k}, j);
    }
  }

  lemma SumValuesUpdate<K>(m: map<K, nat>, x: K, v: nat)
    ensures SumValues(m[x := v]) == SumValues(m) - (if x in m then m[x] else 0) + v
  {
    var m' := m[x := v];
    SumValuesRemove(m', x);
    assert m' - {x} == m - {x};
    if x in m {
      SumValuesRemove(m, x);
    } else {
      assert m - {x} == m;
    }
  }

  /** The counts of `value_counts` add up to the number of keys counted. */
  lemma {:induction false} CountByTotal<K>(keys: seq<K>)
    ensures SumValues(CountBy(keys)) == |keys|
  {
    if keys != [] {
      var init, x := keys[..|keys| - 1], keys[|keys| - 1];
      CountByTotal(init);
      var m := CountBy(init);
      SumValuesUpdate(m, x, if x in m then m[x] + 1 else 1);
    }
  }

  /** The occurrences in `xs` of the keys `lo`, `lo + 1`, ..., `lo + n - 1`, added up. */
  function RangeCount(xs: seq<int>, lo: int, n: nat): nat {
    if n == 0 then 0 else RangeCount(xs, lo, n - 1) + multiset(xs)[lo + n - 1]
  }

  lemma {:induction false} RangeCountSnoc(xs: seq<int>, x: int, lo: int, n: nat)
    ensures RangeCount(xs + [x], lo, n) == RangeCount(xs, lo, n) + (if lo <= x < lo + n then 1 else 0)
  {
    if n > 0 {
      RangeCountSnoc(xs, x, lo, n - 1);
    }
  }

  /** When every key lies in the range, the counts over the range add up to all keys. */
  lemma {:induction false} RangeCountAll(xs: seq<int>, lo: int, n: nat)
    requires forall i :: 0 <= i < |xs| ==> lo <= xs[i] < lo + n
    ensures RangeCount(xs, lo, n) == |xs|
  {
    if xs == [] {
      RangeCountEmpty(lo, n);
    } else {
      var init, x := xs[..|xs| - 1], xs[|xs| - 1];
      assert xs == init + [x];
      RangeCountAll(init, lo, n);
      RangeCountSnoc(init, x, lo, n);
    }
  }

  lemma {:induction false} RangeCountEmpty(lo: int, n: nat)
    ensures RangeCount([], lo, n) == 0
  {
    if n > 0 {
      RangeCountEmpty(lo, n - 1);
    }
  }
}
