/** The std::unordered_map operation the handles and the particle share. */
module Maps {

  /** std::unordered_map::emplace: inserts only when the key is absent, and
      otherwise leaves the map as it is. */
  function Emplace<K, V>(m: map<K, V>, k: K, v: V): (r: map<K, V>)
    ensures r.Keys == m.Keys + {k}
    ensures r[k] == (if k in m then m[k] else v)
    ensures forall j :: j in m && j != k ==> r[j] == m[j]
  {
    if k in m then m else m[k := v]
  }
}
