/** Sums of finite maps, one entry at a time. */
module Sums {

  ghost function Sum<K>(m: map<K, nat>): (total: nat)
    decreases |m|
  {
    if m == map[] then 0
    else
      var k :| k in m;
      m[k] + Sum(m - {k})
  }

  /** Any entry may be split off first. */
  lemma {:induction false} SumSplit<K>(m: map<K, nat>, k: K)
    requires k in m
    ensures Sum(m) == m[k] + Sum(m - {k})
    decreases |m|
  {
    var j :| j in m && Sum(m) == m[j] + Sum(m - {j});
    if j != k {
      SumSplit(m - {j}, k);
      SumSplit(m - {k}, j);
      assert m - {j} - {k} == m - {k} - {j};
    }
  }

  function At<K>(m: map<K, nat>, k: K): (v: nat) {
    if k in m then m[k] else 0
  }

  lemma SumPut<K>(m: map<K, nat>, k: K, v: nat)
    ensures Sum(m[k := v]) == Sum(m) - At(m, k) + v
    ensures Sum(m - {k}) == Sum(m) - At(m, k)
  {
    SumSplit(m[k := v], k);
    assert m[k := v] - {k} == m - {k};
    if k in m {
      SumSplit(m, k);
    } else {
      assert m - {k} == m;
    }
  }

  /** Entry by entry smaller or equal, and so in total. */
  lemma {:induction false} SumMonotone<K>(a: map<K, nat>, b: map<K, nat>)
    requires forall k :: k in a ==> a[k] <= At(b, k)
    ensures Sum(a) <= Sum(b)
    decreases |a|
  {
    if a != map[] {
      var k :| k in a && Sum(a) == a[k] + Sum(a - {k});
      SumPut(b, k, 0);
      assert forall j :: j in a - {k} ==> At(b - {k}, j) == At(b, j);
      SumMonotone(a - {k}, b - {k});
    }
  }

  lemma {:induction false} SumAdds<K>(a: map<K, nat>, b: map<K, nat>, c: map<K, nat>)
    requires a.Keys == b.Keys == c.Keys
    requires forall k :: k in a ==> c[k] == a[k] + b[k]
    ensures Sum(c) == Sum(a) + Sum(b)
    decreases |a|
  {
    if a == map[] {
      assert b == map[] && c == map[];
    } else {
      var k :| k in a;
      SumSplit(a, k);
      SumSplit(b, k);
      SumSplit(c, k);
      SumAdds(a - {k}, b - {k}, c - {k});
    }
  }

  /** The weight of each value, by key. */
  function Weigh<K, V>(m: map<K, V>, weight: V -> nat): map<K, nat> {
    map k | k in m :: weight(m[k])
  }

  function WeightAt<K, V>(m: map<K, V>, weight: V -> nat, k: K): nat {
    if k in m then weight(m[k]) else 0
  }

  lemma WeighPut<K, V>(m: map<K, V>, weight: V -> nat, k: K, v: V)
    ensures Sum(Weigh(m[k := v], weight)) == Sum(Weigh(m, weight)) - WeightAt(m, weight, k) + weight(v)
    ensures Sum(Weigh(m - {k}, weight)) == Sum(Weigh(m, weight)) - WeightAt(m, weight, k)
    ensures WeightAt(m, weight, k) <= Sum(Weigh(m, weight))
  {
    assert Weigh(m[k := v], weight) == Weigh(m, weight)[k := weight(v)];
    assert Weigh(m - {k}, weight) == Weigh(m, weight) - {k};
    SumPut(Weigh(m, weight), k, weight(v));
  }
}
