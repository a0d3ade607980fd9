/** Small definitions shared by the models. */
module Common {

  datatype Option<+T> = None | Some(value: T)

  /** dict.get(k, default) */
  function Get<K(==), V>(m: map<K, V>, k: K, default: V): V {
    if k in m then m[k] else default
  }
}
