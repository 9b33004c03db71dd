/** Shared wrappers for nullable columns and lookups. */
module Prelude {

  datatype Option<+T> = None | Some(value: T)

  function Lookup<K, V>(m: map<K, V>, k: K): Option<V> {
    if k in m then Some(m[k]) else None
  }

  /** The value of a nullable column, or what `??` falls back to. */
  function OrElse<T>(o: Option<T>, default: T): T {
    if o.Some? then o.value else default
  }
}
