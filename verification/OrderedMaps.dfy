/**
 * JavaScript's insertion-ordered tables: an object with non-integer string keys
 * and a Map both list their keys in the order in which they were first set.
 */
module OrderedMaps {
  import opened Common

  datatype OrderedMap<K(==, !new), V> = OrderedMap(order: seq<K>, entries: map<K, V>) {

    /** `order` lists every key of `entries` once. */
    ghost predicate Valid() {
      && NoRepeats(order)
      && (forall k :: k in order ==> k in entries)
      && (forall k :: k in entries ==> k in order)
    }

    /** Setting a present key keeps its place; a new key goes to the end. */
    function Set(k: K, v: V): (r: OrderedMap<K, V>)
      ensures r.entries == entries[k := v]
    {
      OrderedMap(if k in entries then order else order + [k], entries[k := v])
    }

    function Delete(k: K): (r: OrderedMap<K, V>)
      ensures r.entries == entries - {k}
    {
      OrderedMap(Without(order, k), entries - {k})
    }
  }

  function Empty<K(==, !new), V>(): OrderedMap<K, V> {
    OrderedMap([], map[])
  }

  lemma SetValid<K(!new), V>(m: OrderedMap<K, V>, k: K, v: V)
    requires m.Valid()
    ensures m.Set(k, v).Valid()
  {
    assert k !in m.entries ==> k !in m.order;
  }

  lemma DeleteValid<K(!new), V>(m: OrderedMap<K, V>, k: K)
    requires m.Valid()
    ensures m.Delete(k).Valid()
  {
    WithoutNoRepeats(m.order, k);
  }

  /** The number of keys is the length of the order. */
  lemma SizeIsOrderLength<K(!new), V>(m: OrderedMap<K, V>)
    requires m.Valid()
    ensures |m.entries| == |m.order|
  {
    NoRepeatsCardinality(m.order, m.entries.Keys);
    assert |m.entries.Keys| == |m.entries|;
  }
}
