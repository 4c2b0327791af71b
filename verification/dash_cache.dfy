/** The cache of DRM segment routes (`drm_cache_get`, `drm_cache_put`): each entry
    remembers when it was last used, and every insertion first evicts the entries idle
    for more than 60 seconds. The clock reading `int(monotonic())` is a parameter. */
module DashCache {
  import opened Wrappers

  const MaxIdle := 60

  datatype Entry<D> = Entry(lastUsed: int, data: D)

  type Cache<D> = map<string, Entry<D>>

  /** Looking up a key that is not cached raises (`None['data']`). */
  datatype CacheError = Missing

  /** An entry idle for more than `MaxIdle` seconds at time `now`. */
  predicate Expired<D>(e: Entry<D>, now: int) {
    now - e.lastUsed > MaxIdle
  }

  /** `drm_cache_get`: the data under `key`, whose entry is marked as used at `now`. */
  function Get<D>(cache: Cache<D>, key: string, now: int): (r: Result<(Cache<D>, D), CacheError>)
    ensures r.Err? <==> key !in cache
    ensures r.Ok? ==> r.value.1 == cache[key].data
    ensures r.Ok? ==> var c := r.value.0;
      && c.Keys == cache.Keys
      && c[key] == Entry(now, cache[key].data)
      && forall k :: k in cache && k != key ==> c[k] == cache[k]
  {
    if key !in cache then Err(Missing)
    else Ok((cache[key := Entry(now, cache[key].data)], cache[key].data))
  }

  /** `drm_cache_put`: evict what has expired at `now`, then store `data` under `key`. */
  function Put<D>(cache: Cache<D>, key: string, data: D, now: int): (r: Cache<D>)
    ensures key in r && r[key] == Entry(now, data)
    ensures forall k :: k != key ==> (k in r <==> k in cache && !Expired(cache[k], now))
    ensures forall k :: k != key && k in r ==> r[k] == cache[k]
  {
    var kept := map k | k in cache && !Expired(cache[k], now) :: cache[k];
    kept[key := Entry(now, data)]
  }

  /** Every entry of `before` still live at `now` is in `after` and live there too. */
  predicate KeepsLive<D>(before: Cache<D>, after: Cache<D>, now: int) {
    forall k :: k in before && !Expired(before[k], now) ==> k in after && !Expired(after[k], now)
  }

  /** An insertion drops only entries that have expired. */
  lemma PutKeepsLive<D>(cache: Cache<D>, key: string, data: D, now: int)
    ensures KeepsLive(cache, Put(cache, key, data, now), now)
  {
  }

  /** No entry has been used later than `now`: the clock never runs backwards. */
  predicate UsedBy<D>(cache: Cache<D>, now: int) {
    forall k :: k in cache ==> cache[k].lastUsed <= now
  }

  /** Right after an insertion no entry is expired. */
  lemma PutLeavesNoExpired<D>(cache: Cache<D>, key: string, data: D, now: int)
    ensures forall k :: k in Put(cache, key, data, now) ==> !Expired(Put(cache, key, data, now)[k], now)
  {
  }

  /** Reading back a key right after storing it gives the stored data. */
  lemma GetAfterPut<D>(cache: Cache<D>, key: string, data: D, now: int, later: int)
    ensures Get(Put(cache, key, data, now), key, later).Ok?
    ensures Get(Put(cache, key, data, now), key, later).value.1 == data
  {
  }

  /** An entry used within the last `MaxIdle` seconds survives an insertion of another
      key, data and all. */
  lemma PutKeepsRecent<D>(cache: Cache<D>, key: string, data: D, now: int, other: string)
    requires other != key && other in cache && now - cache[other].lastUsed <= MaxIdle
    ensures Get(Put(cache, key, data, now), other, now).Ok?
    ensures Get(Put(cache, key, data, now), other, now).value.1 == cache[other].data
  {
  }

  /** Lookups and insertions with a clock that does not run backwards keep every entry's
      time at or before the clock. */
  lemma ClockStaysAhead<D>(cache: Cache<D>, key: string, data: D, now: int, later: int)
    requires UsedBy(cache, now) && now <= later
    ensures UsedBy(Put(cache, key, data, later), later)
    ensures Get(cache, key, later).Ok? ==> UsedBy(Get(cache, key, later).value.0, later)
  {
  }

  /** Two insertions under one key: the second one wins. */
  lemma PutTwice<D>(cache: Cache<D>, key: string, d1: D, d2: D, now: int)
    ensures Put(Put(cache, key, d1, now), key, d2, now)[key] == Entry(now, d2)
    ensures Put(Put(cache, key, d1, now), key, d2, now).Keys == Put(cache, key, d2, now).Keys
  {
  }
}
