/** The meaning of the database interface: a map from keys to values. */
module KeyValue {
  import opened Options
  import opened Keys

  type Contents = map<Key, string>

  /** What `set` means: no value removes the key. */
  function Updated(m: Contents, key: Key, value: Option<string>): Contents {
    if value.Some? then m[key := value.value] else m - {key}
  }

  /** What `get` means. */
  function Lookup(m: Contents, key: Key): Option<string> {
    if key in m then Some(m[key]) else None
  }

  /** After a set its key has the value, or none, and every other key what it had. */
  lemma {:induction false} UpdatedAt(m: Contents, key: Key, value: Option<string>, k: Key)
    ensures Lookup(Updated(m, key, value), k) == if k == key then value else Lookup(m, k)
  {
  }
}
