/** The bounded maps of the two rate limiters (app/ratelimit.py). */
module BoundedMaps {
  import opened Wrappers

  /** The cap on distinct tracked keys. */
  const MAX_ENTRIES: int := 10_000

  function Get<V>(m: map<string, V>, key: string): Option<V> {
    if key in m then Some(m[key]) else None
  }

  method PickOne<T>(s: set<T>) returns (x: T)
    requires s != {}
    ensures x in s
  {
    x :| x in s;
  }

  lemma NonEmptyKeys<K, V>(m: map<K, V>)
    requires m != map[]
    ensures m.Keys != {}
  {
    assert |m| == |m.Keys|;
  }

  lemma DropOne<K, V>(m: map<K, V>, k: K)
    requires k in m
    ensures |m - {k}| == |m| - 1
  {
    assert (m - {k}).Keys == m.Keys - {k};
    assert |m.Keys| == |m| && |(m - {k}).Keys| == |m - {k}|;
  }
}
