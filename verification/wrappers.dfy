/** The one shared result type: an answer that may be missing. */
module Wrappers {
  datatype Option<+T> = None | Some(value: T)

  /** The value a finite map holds under a key, if it holds one. */
  function Get<K, V>(m: map<K, V>, k: K): Option<V> {
    if k in m then Some(m[k]) else None
  }
}
