/** A JavaScript `Map` with string keys: a finite map together with the order in which its
    keys were first inserted (the order `keys()` and `for ... of` iterate in). */
module OrderedMaps {
  import opened Seqs

  datatype OMap<V> = OMap(keys: seq<string>, entries: map<string, V>) {
    ghost predicate Valid() {
      && AllDistinct(keys)
      && forall k :: k in entries <==> k in keys
    }
  }

  function Empty<V>(): (m: OMap<V>)
    ensures m.Valid() && m.entries == map[]
  {
    OMap([], map[])
  }

  /** `m.set(k, v)`: a new key goes to the end of the order, an existing key keeps its place. */
  function Put<V>(m: OMap<V>, k: string, v: V): (r: OMap<V>)
    ensures r.entries == m.entries[k := v]
    ensures k in m.entries ==> r.keys == m.keys
    ensures k !in m.entries ==> r.keys == m.keys + [k]
    ensures m.Valid() ==> r.Valid()
  {
    if k in m.entries then OMap(m.keys, m.entries[k := v])
    else OMap(m.keys + [k], m.entries[k := v])
  }

  /** Setting a key twice is setting it once to the second value (in the first one's place). */
  lemma PutTwice<V>(m: OMap<V>, k: string, a: V, b: V)
    ensures Put(Put(m, k, a), k, b) == Put(m, k, b)
  {
  }

  /** `m.get(k) || default` (for values that are never falsy). */
  function Get<V>(m: OMap<V>, k: string, default: V): V {
    if k in m.entries then m.entries[k] else default
  }
}
