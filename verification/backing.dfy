/**
 * The backing cache: any object with `set(key, val, expire?)`, `get(key)`,
 * `has(key)` and `del(key)` (the `Cache<string, V>` interface of
 * src/index.ts). Its contents are a map from keys to values. Whether a write
 * is kept is the cache's own policy (`admits`): a size-limited LRU cache, for
 * one, silently drops a value it finds too large, so `set` may decline.
 */
module Backing {
  import opened Wrappers

  /** The optional `expire` argument, passed through untouched. */
  datatype Expire = Unspecified | After(ms: int)

  datatype Store<!V> = Store(entries: map<string, V>, admits: (string, V, Expire) -> bool)

  /** `cache.has(key)` */
  predicate Has<V>(s: Store<V>, key: string) {
    key in s.entries
  }

  /** `cache.get(key)`: the stored value, or `undefined` (None). */
  function Get<V>(s: Store<V>, key: string): (r: Option<V>)
    ensures r.Some? <==> Has(s, key)
    ensures r.Some? ==> r.value == s.entries[key]
  {
    if key in s.entries then Some(s.entries[key]) else None
  }

  /** `cache.set(key, val, expire)`: an admitted write stores `val` under `key`;
      a declined one changes nothing. No other key is touched either way. */
  function Set<V>(s: Store<V>, key: string, val: V, expire: Expire): (r: Store<V>)
    ensures r.admits == s.admits
    ensures Has(r, key) <==> s.admits(key, val, expire) || Has(s, key)
    ensures s.admits(key, val, expire) ==> Get(r, key) == Some(val)
    ensures forall k | k != key :: Get(r, k) == Get(s, k)
  {
    if s.admits(key, val, expire) then s.(entries := s.entries[key := val]) else s
  }

  /** `cache.del(key)`: `key` is gone, every other entry stays. */
  function Del<V>(s: Store<V>, key: string): (r: Store<V>)
    ensures r.admits == s.admits
    ensures !Has(r, key)
    ensures forall k | k != key :: Get(r, k) == Get(s, k)
  {
    s.(entries := s.entries - {key})
  }
}
