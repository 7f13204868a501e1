/**
 * A JavaScript `Map` with string keys, as a value: `set` on a new key appends
 * the key, `set` on a present key replaces the value and leaves the key where
 * it first went, and `values()` lists the values in key-insertion order.
 */
module OrderedMaps {
  import opened Wrappers
  import Seqs

  datatype OrderedMap<V> = OrderedMap(keys: seq<string>, entries: map<string, V>) {

    ghost predicate Valid() {
      Seqs.Distinct(keys) && (forall k :: k in entries <==> k in keys)
    }

    function Get(k: string): (r: Option<V>)
      ensures r.Some? <==> k in entries
      ensures r.Some? ==> r.value == entries[k]
    {
      if k in entries then Some(entries[k]) else None
    }

    /** `map.set(k, v)`. */
    function Set(k: string, v: V): (m: OrderedMap<V>)
      requires Valid()
      ensures m.Valid()
      ensures m.keys == if k in entries then keys else keys + [k]
      ensures m.entries == entries[k := v]
    {
      OrderedMap(if k in entries then keys else keys + [k], entries[k := v])
    }

    /** `[...map.values()]`. */
    function Values(): (vs: seq<V>)
      requires Valid()
      ensures |vs| == |keys|
      ensures forall i :: 0 <= i < |keys| ==> vs[i] == entries[keys[i]]
    {
      seq(|keys|, i requires 0 <= i < |keys| => entries[keys[i]])
    }
  }

  /**
   * A map whose keys are the first-seen distinct values of `us` keeps that
   * property when `u` is set next.
   */
  lemma KeysSnoc<V>(m: OrderedMap<V>, us: seq<string>, u: string, m': OrderedMap<V>)
    requires m.Valid() && m.keys == Seqs.Dedup(us)
    requires m'.keys == if u in m.entries then m.keys else m.keys + [u]
    ensures m'.keys == Seqs.Dedup(us + [u])
  {
    Seqs.DedupSnoc(us, u);
    Seqs.DedupMember(us, u);
  }

  /** `new Map()`. */
  function Empty<V>(): (m: OrderedMap<V>)
    ensures m.Valid() && m.keys == []
  {
    OrderedMap([], map[])
  }
}
