/** Dictionaries that remember insertion order, as Python's do: overwriting the value of a key
    keeps the key where it was first inserted. */
module PyDict {
  /** The position of the first occurrence of `k`. */
  function IndexOf<K(==)>(order: seq<K>, k: K): (i: nat)
    requires k in order
    ensures i < |order| && order[i] == k
  {
    if order[0] == k then 0 else 1 + IndexOf(order[1..], k)
  }

  ghost predicate Distinct<K>(order: seq<K>) {
    forall i {:trigger IndexOf(order, order[i])} :: 0 <= i < |order| ==> IndexOf(order, order[i]) == i
  }

  lemma {:induction false} IndexInPrefix<K>(order: seq<K>, more: seq<K>, k: K)
    requires k in order
    ensures IndexOf(order + more, k) == IndexOf(order, k)
  {
    if order[0] != k {
      assert (order + more)[1..] == order[1..] + more;
      IndexInPrefix(order[1..], more, k);
    }
  }

  lemma {:induction false} IndexOfNewKey<K>(order: seq<K>, k: K)
    requires k !in order
    ensures IndexOf(order + [k], k) == |order|
  {
    if |order| > 0 {
      assert (order + [k])[1..] == order[1..] + [k];
      IndexOfNewKey(order[1..], k);
    }
  }

  lemma DistinctAppend<K>(order: seq<K>, k: K)
    requires Distinct(order) && k !in order
    ensures Distinct(order + [k])
  {
    var out := order + [k];
    forall i | 0 <= i < |out| ensures IndexOf(out, out[i]) == i {
      if i < |order| { IndexInPrefix(order, [k], order[i]); } else { IndexOfNewKey(order, k); }
    }
  }

  datatype Dict<K(==, !new), V> = Dict(order: seq<K>, at: map<K, V>) {
    ghost predicate Valid() {
      && Distinct(order)
      && (forall k :: k in order <==> k in at)
    }

    function Put(k: K, v: V): (d: Dict<K, V>)
      requires Valid()
      ensures d.Valid() && d.at == at[k := v]
      ensures d.order == if k in at then order else order + [k]
    {
      DistinctPut(k);
      Dict(if k in at then order else order + [k], at[k := v])
    }

    lemma DistinctPut(k: K)
      requires Valid()
      ensures k !in at ==> Distinct(order + [k])
    {
      if k !in at { DistinctAppend(order, k); }
    }

    function Values(): (vs: seq<V>)
      requires Valid()
      ensures |vs| == |order|
      ensures forall i :: 0 <= i < |vs| ==> vs[i] == at[order[i]]
    {
      seq(|order|, i requires 0 <= i < |order| => at[order[i]])
    }
  }

  function Empty<K(==, !new), V>(): (d: Dict<K, V>)
    ensures d.Valid()
  {
    Dict([], map[])
  }
}
