/** A Python `dict` with string keys: a finite map that also remembers the
    order in which its keys were first inserted. */
module PyDict {

  datatype Dict<V> = Dict(keys: seq<string>, entries: map<string, V>) {
    /** Every key is listed once, and the listed keys are exactly the mapped ones. */
    ghost predicate Valid()
    {
      && (forall i, j :: 0 <= i < j < |keys| ==> keys[i] != keys[j])
      && (forall k :: k in entries <==> k in keys)
    }
  }

  function Empty<V>(): (d: Dict<V>)
    ensures d.Valid() && d.entries == map[]
  {
    Dict([], map[])
  }

  /** `d[k] = v`: a new key goes to the end, an existing key keeps its place. */
  function Set<V>(d: Dict<V>, k: string, v: V): (r: Dict<V>)
    requires d.Valid()
    ensures r.Valid()
    ensures r.entries == d.entries[k := v]
  {
    if k in d.entries then Dict(d.keys, d.entries[k := v])
    else
      assert (d.keys + [k])[..|d.keys|] == d.keys;
      Dict(d.keys + [k], d.entries[k := v])
  }

  /** `d.get(k, default)`. */
  function GetOr<V>(d: map<string, V>, k: string, default: V): V
  {
    if k in d then d[k] else default
  }
}
