/** The usual optional value, and small helpers for maps and sets. */
module Wrappers {
  datatype Option<+T> = None | Some(value: T)

  /** dict.get(key, default). */
  function GetOr<K, V>(m: map<K, V>, k: K, default: V): V {
    if k in m then m[k] else default
  }

  lemma CardinalityMonotone<T>(a: set<T>, b: set<T>)
    requires a <= b
    ensures |a| <= |b|
  {
    assert b == a + (b - a);
  }
}
