/** Properties of the cache operations that relate several calls. */
module CacheProperties {
  import opened CacheModel

  /** Put then Get on the same name and key: the entry is a hit exactly up to
      and including its expiry second, and expired after it. */
  lemma PutThenGet<V>(reg: Registry<V>, name: string, key: string, obj: V, ttl: Int64, now: Int64, later: Int64)
    requires MinInt64 <= now + ttl <= MaxInt64
    ensures later <= now + ttl ==> Get(Put(reg, name, key, obj, ttl, now), name, key, later).outcome == Hit(obj)
    ensures later > now + ttl ==> Get(Put(reg, name, key, obj, ttl, now), name, key, later).outcome == Expired(obj)
  {
  }

  /** The expiry boundary for a TTL of zero: a Get in the same second hits;
      a Get in any later second reports Expired and evicts, so the next Get
      finds no entry. */
  lemma ZeroTtlBoundary<V>(reg: Registry<V>, name: string, key: string, obj: V, now: Int64, later: Int64)
    requires now < later
    ensures Get(Put(reg, name, key, obj, 0, now), name, key, now) == Step(Hit(obj), Put(reg, name, key, obj, 0, now))
    ensures var first := Get(Put(reg, name, key, obj, 0, now), name, key, later);
            first.outcome == Expired(obj) && Get(first.after, name, key, later).outcome == NoSuchEntry
  {
  }

  /** Go's int64 addition wraps: a TTL so large that `now + ttl` overflows
      yields an expiry time before `now`, so the entry is already expired. */
  lemma OverflowingTtlExpiresAtOnce<V>(reg: Registry<V>, name: string, key: string, obj: V, ttl: Int64, now: Int64)
    requires now + ttl > MaxInt64
    ensures Get(Put(reg, name, key, obj, ttl, now), name, key, now).outcome == Expired(obj)
  {
  }

  /** A second Put to the same key replaces the first wholesale. */
  lemma PutOverwrites<V>(reg: Registry<V>, name: string, key: string, obj1: V, obj2: V, ttl1: Int64, ttl2: Int64, now1: Int64, now2: Int64)
    ensures Put(Put(reg, name, key, obj1, ttl1, now1), name, key, obj2, ttl2, now2) == Put(reg, name, key, obj2, ttl2, now2)
  {
    var once := Put(reg, name, key, obj2, ttl2, now2);
    var twice := Put(Put(reg, name, key, obj1, ttl1, now1), name, key, obj2, ttl2, now2);
    assert twice[name] == once[name];
  }

  /** Get never creates a cache: looking in an unknown cache leaves it
      unknown. */
  lemma GetDoesNotCreate<V>(reg: Registry<V>, name: string, key: string, now: Int64)
    requires name !in reg
    ensures name !in Get(reg, name, key, now).after
  {
  }

  /** A hit leaves everything as it was, so it can be repeated. */
  lemma HitIsRepeatable<V>(reg: Registry<V>, name: string, key: string, now: Int64)
    requires Get(reg, name, key, now).outcome.Hit?
    ensures Get(Get(reg, name, key, now).after, name, key, now) == Get(reg, name, key, now)
  {
  }

  /** An expired entry is gone after the Get that reported it: the next Get,
      at any time, finds no entry and changes nothing. */
  lemma ExpiredIsEvicted<V>(reg: Registry<V>, name: string, key: string, now: Int64, later: Int64)
    requires Get(reg, name, key, now).outcome.Expired?
    ensures var after := Get(reg, name, key, now).after;
            Get(after, name, key, later) == Step(NoSuchEntry, after)
  {
  }

  /** A successful InvalidateItem makes the next Get miss on that key. */
  lemma InvalidateThenGet<V>(reg: Registry<V>, name: string, key: string, now: Int64)
    requires Invalidate(reg, name, key).outcome == Invalidated
    ensures Get(Invalidate(reg, name, key).after, name, key, now).outcome == NoSuchEntry
  {
  }

  /** InvalidateItem undoes a Put of a new key into an existing cache. */
  lemma InvalidateUndoesPut<V>(reg: Registry<V>, name: string, key: string, obj: V, ttl: Int64, now: Int64)
    requires name in reg && key !in reg[name]
    ensures Invalidate(Put(reg, name, key, obj, ttl, now), name, key) == Step(Invalidated, reg)
  {
    var after := Invalidate(Put(reg, name, key, obj, ttl, now), name, key).after;
    assert after[name] == reg[name];
  }

  /** InvalidateItem never removes a cache: after a Put that created the
      cache, invalidating its only key leaves the name bound to an empty
      cache rather than unbound. */
  lemma InvalidateKeepsCreatedCache<V>(reg: Registry<V>, name: string, key: string, obj: V, ttl: Int64, now: Int64)
    requires name !in reg
    ensures var r := Invalidate(Put(reg, name, key, obj, ttl, now), name, key);
            r.outcome == Invalidated && name in r.after && r.after[name] == map[]
  {
  }

  /** After Purge, a Put on the same name starts from an empty cache: no
      entry of the purged cache survives. */
  lemma PurgeThenPut<V>(reg: Registry<V>, name: string, key: string, obj: V, ttl: Int64, now: Int64)
    ensures Put(Purge(reg, name), name, key, obj, ttl, now)[name] == map[key := Entry(obj, AddInt64(now, ttl))]
  {
  }

  /** Purge erases every trace of Puts to the purged name. */
  lemma PurgeErasesPut<V>(reg: Registry<V>, name: string, key: string, obj: V, ttl: Int64, now: Int64)
    ensures Purge(Put(reg, name, key, obj, ttl, now), name) == Purge(reg, name)
  {
  }

  /** Purging a name twice is the same as purging it once. */
  lemma PurgeIdempotent<V>(reg: Registry<V>, name: string)
    ensures Purge(Purge(reg, name), name) == Purge(reg, name)
  {
  }
}
