/** Optional values, used for the scanner's pending key, `dict.get` and the swap result. */
module Wrappers {

  datatype Option<+T> = None | Some(value: T)

  /** `m.get(k)` of a Python dictionary. */
  function Get<K, V>(m: map<K, V>, k: K): (r: Option<V>)
    ensures r.Some? <==> k in m
    ensures r.Some? ==> r.value == m[k]
  {
    if k in m then Some(m[k]) else None
  }
}
