/** Failure-compatible results shared by every component. */
module Options {

  datatype Option<+T> = None | Some(value: T) {
    function UnwrapOr(fallback: T): T {
      if Some? then value else fallback
    }
  }

  datatype Result<+T, +E> = Ok(value: T) | Err(error: E)

  function Lookup<K, V>(m: map<K, V>, key: K): Option<V> {
    if key in m then Some(m[key]) else None
  }
}
