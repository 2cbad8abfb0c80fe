/** What may be missing: a value (Python's `None`), and the set under a key of a dictionary of sets. */
module Options {

  datatype Option<+T> = None | Some(value: T) {

    function GetOr(default: T): T {
      if Some? then value else default
    }
  }

  /** `dict.get(key, set())` */
  function ItemsAt<K, V>(m: map<K, set<V>>, k: K): set<V> {
    if k in m then m[k] else {}
  }
}
