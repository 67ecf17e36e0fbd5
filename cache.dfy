/** The cache package as Go runs it: one registry object whose map of named
    caches is updated in place by assignment and deletion. Each operation is
    atomic here; the locks that make it so in Go are not modelled. */
module Cache {
  import opened CacheModel

  class CacheRegistry<V> {
    /** The package-level `caches` variable: name -> the cache's Data map. */
    var caches: Registry<V>

    /** The registry at process start: no caches. */
    constructor ()
      ensures caches == map[]
    {
      caches := map[];
    }

    /** initCache: bind `name` to a new cache with no entries. */
    method InitCache(name: string)
      modifies this
      ensures caches == old(caches)[name := map[]]
    {
      caches := caches[name := map[]];
    }

    /** Put: never fails. Creates the cache on first use of its name, then
        overwrites the entry for `key` unconditionally. */
    method Put(name: string, key: string, obj: V, ttlSeconds: Int64, now: Int64)
      modifies this
      ensures caches == CacheModel.Put(old(caches), name, key, obj, ttlSeconds, now)
    {
      if name !in caches {
        InitCache(name);
      }
      var data := caches[name];
      data := data[key := Entry(obj, AddInt64(now, ttlSeconds))];
      caches := caches[name := data];
    }

    /** Get: the four outcomes of a lookup; an expired entry is deleted and its
        item still returned. */
    method Get(name: string, key: string, now: Int64) returns (outcome: GetOutcome<V>)
      modifies this
      ensures Step(outcome, caches) == CacheModel.Get(old(caches), name, key, now)
    {
      if name !in caches {
        return NoSuchCache;
      }
      var data := caches[name];
      if key !in data {
        return NoSuchEntry;
      }
      if data[key].expires < now {
        var expiredData := data[key].item;
        caches := caches[name := data - {key}];
        return Expired(expiredData);
      }
      outcome := Hit(data[key].item);
    }

    /** Purge: drop the cache `name` if there is one. */
    method Purge(name: string)
      modifies this
      ensures caches == CacheModel.Purge(old(caches), name)
    {
      if name in caches {
        caches := caches - {name};
      }
    }

    /** PurgeAll: delete every name from the registry, one at a time. */
    method PurgeAll()
      modifies this
      ensures caches == map[]
    {
      while caches != map[]
        decreases |caches.Keys|
      {
        var c :| c in caches;
        caches := caches - {c};
      }
    }

    /** InvalidateItem: delete an existing entry, or report which of the cache
        and the key is missing. */
    method InvalidateItem(name: string, key: string) returns (outcome: InvalidateOutcome)
      modifies this
      ensures Step(outcome, caches) == CacheModel.Invalidate(old(caches), name, key)
    {
      if name !in caches {
        return CacheNotFound;
      }
      var data := caches[name];
      if key !in data {
        return KeyNotFound;
      }
      caches := caches[name := data - {key}];
      outcome := Invalidated;
    }
  }
}
