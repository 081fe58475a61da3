/**
 * Python's `dict`, which remembers the order in which its keys were first
 * inserted; assigning to a key that is already present keeps its place.
 */
module Dicts {

  /** `keys` lists the keys in insertion order; `entries` maps each to its value. */
  datatype Dict<K(!new), V> = Dict(keys: seq<K>, entries: map<K, V>) {

    /** Every key is listed once, and the listed keys are the keys of `entries`. */
    ghost predicate Valid() {
      && (forall i, j :: 0 <= i < j < |keys| ==> keys[i] != keys[j])
      && (forall k :: k in entries <==> k in keys)
    }

    /** `d[k] = v`: a new key goes to the end of the order, an existing key
        keeps its place; every other key keeps its value. */
    function Put(k: K, v: V): (d: Dict<K, V>)
      ensures Valid() ==> d.Valid()
      ensures k in d.entries && d.entries[k] == v
      ensures d.entries.Keys == entries.Keys + {k}
      ensures forall k' :: k' in entries && k' != k ==> d.entries[k'] == entries[k']
      ensures k in entries ==> d.keys == keys
      ensures k !in entries ==> d.keys == keys + [k]
    {
      Dict(if k in entries then keys else keys + [k], entries[k := v])
    }
  }

  /** `{}` */
  function Empty<K(!new), V>(): (d: Dict<K, V>)
    ensures d.Valid() && d.keys == [] && d.entries == map[]
  {
    Dict([], map[])
  }
}
