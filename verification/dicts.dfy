/**
 * A Python dict as a value: its keys in insertion order and the mapping itself.
 * Assigning to a key that is already present overwrites the value in place;
 * a new key goes to the end of the order.
 */
module Dicts {
  import Seqs

  datatype Dict<K(==, !new), V> = Dict(keys: seq<K>, entries: map<K, V>)
  {
    /** Each key is listed once, and exactly the mapped keys are listed. */
    ghost predicate Valid() {
      && Seqs.AllDistinct(keys)
      && (forall k :: k in keys <==> k in entries)
    }

    /** `d[k] = v`. */
    function Put(k: K, v: V): (d: Dict<K, V>)
      ensures Valid() ==> d.Valid()
      ensures Valid() ==> d.keys == if k in keys then keys else keys + [k]
      ensures k in d.entries && d.entries[k] == v
      ensures forall j :: j != k ==> (j in d.entries <==> j in entries)
      ensures forall j :: j != k && j in entries ==> d.entries[j] == entries[j]
    {
      if k in entries then Dict(keys, entries[k := v]) else Dict(keys + [k], entries[k := v])
    }
  }

  /** Storing under a new key appends it to the order and keeps every other entry. */
  lemma PutNewKey<K(!new), V>(d: Dict<K, V>, k: K, v: V)
    requires d.Valid() && k !in d.keys
    ensures d.Put(k, v).Valid()
    ensures d.Put(k, v).keys == d.keys + [k]
    ensures d.Put(k, v).entries == d.entries[k := v]
  {
  }

  /** `{}`. */
  function Empty<K(==, !new), V>(): (d: Dict<K, V>)
    ensures d.Valid() && d.keys == [] && d.entries == map[]
  {
    Dict([], map[])
  }
}
