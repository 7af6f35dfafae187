/** The optional value used where the bot's Python code tests for a missing key or a missing element. */
module Wrappers {

  datatype Option<+T> = None | Some(value: T)

  /** The entry of `m` at `k`, or None when `k` is not a key (Python's `dict.get`). */
  function Lookup<K, V>(m: map<K, V>, k: K): Option<V>
  {
    if k in m then Some(m[k]) else None
  }
}
