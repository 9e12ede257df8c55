/** Optional values and results with an error, for the places where the
    source returns a null pointer, an empty `std::optional` or throws. */
module Wrappers {

  datatype Option<+T> = None | Some(value: T)

  datatype Result<+T, +E> = Success(value: T) | Failure(error: E)
}

/** `std::unordered_map::insert`: adds a key only when it is absent, never overwrites. */
module Maps {

  function Insert<K, V>(m: map<K, V>, k: K, v: V): (r: map<K, V>)
    ensures r.Keys == m.Keys + {k}
    ensures k in m ==> r[k] == m[k]
    ensures k !in m ==> r[k] == v
    ensures forall j :: j in m ==> r[j] == m[j]
  {
    if k in m then m else m[k := v]
  }

  /** Inserting every entry of `incoming` into `m`, in any order: keys of `m` keep their
      value, the other keys of `incoming` are added with theirs. */
  function InsertAll<K, V>(m: map<K, V>, incoming: map<K, V>): (r: map<K, V>)
    ensures r.Keys == m.Keys + incoming.Keys
    ensures forall j :: j in m ==> r[j] == m[j]
    ensures forall j :: j in incoming && j !in m ==> r[j] == incoming[j]
  {
    incoming + m
  }
}
