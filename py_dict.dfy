/** Python's built-in `dict` as the extractor uses it: keys kept in
    insertion order, assignment to a present key replacing its value in
    place, `len` counting the keys and `.values()` following key order. */
module PyDict {

  datatype Dict<K(==), V> = Dict(keys: seq<K>, vals: map<K, V>) {

    /** Each key is listed once and exactly the mapped keys are listed. */
    ghost predicate Valid() {
      && (forall i, j :: 0 <= i < j < |keys| ==> keys[i] != keys[j])
      && vals.Keys == set k | k in keys
    }

    /** `len(d)`. */
    function Len(): nat {
      |keys|
    }

    /** The values in iteration order, as `d.values()` yields them. */
    function Values(): (r: seq<V>)
      requires Valid()
      ensures |r| == |keys|
      ensures forall i :: 0 <= i < |keys| ==> r[i] == vals[keys[i]]
    {
      seq(|keys|, i requires 0 <= i < |keys| && Valid() => vals[keys[i]])
    }
  }

  function Empty<K(==), V>(): (d: Dict<K, V>)
    ensures d.Valid() && d.Len() == 0
  {
    Dict([], map[])
  }

  /** `d[k] = v`: a new key goes to the end of the order, a key already
      present keeps its place and takes the new value. */
  function Put<K(==), V>(d: Dict<K, V>, k: K, v: V): (r: Dict<K, V>)
    ensures r.vals == d.vals[k := v]
    ensures k in d.vals ==> r.keys == d.keys
    ensures k !in d.vals ==> r.keys == d.keys + [k]
  {
    if k in d.vals then Dict(d.keys, d.vals[k := v]) else Dict(d.keys + [k], d.vals[k := v])
  }

  /** Assignment keeps every key listed once and the listed keys exactly the mapped ones. */
  lemma PutKeepsValid<K, V>(d: Dict<K, V>, k: K, v: V)
    requires d.Valid()
    ensures Put(d, k, v).Valid()
  {
  }
}
