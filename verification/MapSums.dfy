/** Summing a weight over the values of a map, independently of the order of its keys. */
module MapSums {

  ghost function Pick<K, V>(m: map<K, V>): K
    requires m != map[]
    ensures Pick(m) in m
  {
    var k :| k in m;
    k
  }

  ghost function Sum<K, V>(m: map<K, V>, weight: V -> nat): nat
    decreases |m|
  {
    if m == map[] then 0 else
      var k := Pick(m);
      weight(m[k]) + Sum(m - {k}, weight)
  }

  lemma {:induction false} SumRemove<K, V>(m: map<K, V>, k: K, weight: V -> nat)
    requires k in m
    ensures Sum(m, weight) == weight(m[k]) + Sum(m - {k}, weight)
    decreases |m|
  {
    var j := Pick(m);
    if j != k {
      SumRemove(m - {j}, k, weight);
      SumRemove(m - {k}, j, weight);
      assert m - {j} - {k} == m - {k} - {j};
    }
  }

  lemma SumInsert<K, V>(m: map<K, V>, k: K, v: V, weight: V -> nat)
    requires k !in m
    ensures Sum(m[k := v], weight) == Sum(m, weight) + weight(v)
  {
    SumRemove(m[k := v], k, weight);
    assert m[k := v] - {k} == m;
  }

  lemma UnionMinus<K, V>(m: map<K, V>, n: map<K, V>, k: K)
    requires k !in m && k in n
    ensures m + n - {k} == m + (n - {k}) && (m + n)[k] == n[k]
  {
    var left, right := m + n - {k}, m + (n - {k});
    assert left.Keys == right.Keys;
  }

  lemma {:induction false} SumUnion<K, V>(m: map<K, V>, n: map<K, V>, weight: V -> nat)
    requires m.Keys !! n.Keys
    ensures Sum(m + n, weight) == Sum(m, weight) + Sum(n, weight)
    decreases |n|
  {
    if n == map[] {
      assert m + n == m;
    } else {
      hide Sum;
      var k := Pick(n);
      SumUnion(m, n - {k}, weight);
      SumRemove(n, k, weight);
      SumRemove(m + n, k, weight);
      UnionMinus(m, n, k);
    }
  }

  /** A part is no bigger and weighs no more than the whole. */
  lemma SumPart<K, V>(part: map<K, V>, m: map<K, V>, weight: V -> nat)
    requires part.Keys <= m.Keys && forall k :: k in part ==> part[k] == m[k]
    ensures |part| <= |m| && Sum(part, weight) <= Sum(m, weight)
  {
    hide Sum;
    Complement(part, m);
    SumUnion(part, m - part.Keys, weight);
    ComplementSize(part, m);
  }

  lemma Complement<K, V>(part: map<K, V>, m: map<K, V>)
    requires part.Keys <= m.Keys && forall k :: k in part ==> part[k] == m[k]
    ensures part + (m - part.Keys) == m
  {
    assert (part + (m - part.Keys)).Keys == m.Keys;
  }

  lemma ComplementSize<K, V>(part: map<K, V>, m: map<K, V>)
    requires part.Keys <= m.Keys
    ensures |part| <= |m|
  {
    assert m.Keys == part.Keys + (m.Keys - part.Keys);
  }

  /** A part that lacks a key has room for it within the whole. */
  lemma SumPartPlus<K, V>(part: map<K, V>, m: map<K, V>, k: K, weight: V -> nat)
    requires part.Keys <= m.Keys && forall j :: j in part ==> part[j] == m[j]
    requires k in m && k !in part
    ensures |part| + 1 <= |m| && Sum(part, weight) + weight(m[k]) <= Sum(m, weight)
  {
    hide Sum;
    var more := part[k := m[k]];
    SumInsert(part, k, m[k], weight);
    SumPart(more, m, weight);
    assert more.Keys == part.Keys + {k};
  }
}
