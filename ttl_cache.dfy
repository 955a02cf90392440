/**
  An in-memory cache with absolute expiration, as `IMemoryCache` behaves here:
  a map from key to value and expiry instant, read with an explicit `now`.
  An entry is live while `now` is before its expiry; expiry is checked at read.
 */
module TtlCache {
  import opened Wrappers

  datatype Entry<V> = Entry(value: V, expiresAt: int)

  type Cache<K, V> = map<K, Entry<V>>

  /** `TryGetValue`: the value under `key`, if the entry exists and has not expired. */
  function Lookup<K, V>(c: Cache<K, V>, key: K, now: int): (r: Option<V>)
    ensures r.Some? <==> key in c && now < c[key].expiresAt
    ensures r.Some? ==> r.value == c[key].value
  {
    if key in c && now < c[key].expiresAt then Some(c[key].value) else None
  }

  /** `Set(key, value, ttl)` at instant `now`. */
  function Store<K, V>(c: Cache<K, V>, key: K, value: V, now: int, ttl: int): Cache<K, V>
  {
    c[key := Entry(value, now + ttl)]
  }

  /**
    After `Store`, the key reads as the stored value until `now + ttl` and as
    absent from then on; every other key reads as before.
   */
  lemma LookupAfterStore<K(!new), V>(c: Cache<K, V>, key: K, value: V, now: int, ttl: int)
    ensures forall t :: t < now + ttl ==> Lookup(Store(c, key, value, now, ttl), key, t) == Some(value)
    ensures forall t :: t >= now + ttl ==> Lookup(Store(c, key, value, now, ttl), key, t) == None
    ensures forall k, t :: k != key ==> Lookup(Store(c, key, value, now, ttl), k, t) == Lookup(c, k, t)
  {
  }

  /** An expired entry stays expired until it is written again. */
  lemma ExpiryIsFinal<K, V>(c: Cache<K, V>, key: K, t: int, u: int)
    requires t <= u && Lookup(c, key, t).None?
    ensures Lookup(c, key, u).None?
  {
  }
}
