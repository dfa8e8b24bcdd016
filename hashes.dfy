/**
 * The metric stores are Ruby Hashes keyed by method name. A Ruby Hash
 * remembers insertion order, and the reports walk it in that order, so the
 * model keeps the keys in a sequence beside the map of values.
 */
module Hashes {
  import opened Core

  datatype Hash<V> = Hash(keys: seq<string>, values: map<string, V>) {

    ghost predicate Valid() {
      Distinct(keys) && forall k :: k in values <==> k in keys
    }

    /** `hash[k] = v`: a key already present keeps its place, a new key goes last. */
    function Put(k: string, v: V): (h: Hash<V>)
      requires Valid()
      ensures h.Valid()
      ensures h.values == values[k := v]
      ensures k in values ==> h.keys == keys
      ensures k !in values ==> h.keys == keys + [k]
    {
      if k in values then Hash(keys, values[k := v]) else Hash(keys + [k], values[k := v])
    }

    /** `hash.each` / `hash.map`: the pairs in insertion order. */
    function Entries(): (r: seq<(string, V)>)
      requires Valid()
      ensures |r| == |keys|
      ensures forall i :: 0 <= i < |r| ==> r[i] == (keys[i], values[keys[i]])
    {
      seq(|keys|, i requires 0 <= i < |keys| => (keys[i], values[keys[i]]))
    }
  }

  /** `@store ||= {}`: a store starts empty. */
  function EmptyHash<V>(): (h: Hash<V>)
    ensures h.Valid() && h.keys == [] && h.values == map[]
  {
    Hash([], map[])
  }
}
