# go-cache: a verified model of the named-cache registry

The Go package `cache` keeps a process-wide registry of named caches. Each cache maps
string keys to an entry `(item, expires)`, where `expires` is a Unix time in whole
seconds. `Put` creates a cache the first time its name is used and overwrites the entry
unconditionally, with `expires = now + ttlSeconds`. `Get` expires entries lazily: an
entry whose `expires` is strictly before `now` is deleted by the `Get` that finds it,
and that `Get` still hands back the removed item together with an "expired" error.
`InvalidateItem` deletes an entry that exists. `Purge` forgets one cache and
`PurgeAll` forgets every cache.

The model has four modules:

- `CacheModel` (`cache_model.dfy`) holds the state as a value,
  `Registry<V> = map<string, map<string, Entry<V>>>`. Each operation is a function from
  the registry before the call to its outcome and the registry after it. Each function's
  contract states which outcome is reported in which case and exactly which part of the
  state changes. Go's `int64` addition in `now + ttlSeconds` is modelled with its
  wrap-around (`AddInt64`).
- `Cache` (`cache.dfy`) is the package as the Go code runs it: a class
  `CacheRegistry<V>` whose field `caches` is updated in place. `Put`, `Get`, `Purge` and
  `InvalidateItem` each have a postcondition equating the new state and the result with
  the `CacheModel` function applied to the old state. `InitCache`, `PurgeAll` and the
  constructor state the new registry directly. `PurgeAll` deletes names one at a time
  in a loop, as the Go `for … range` does.
- `CacheProperties` (`cache_properties.dfy`) holds lemmas that relate several calls.
  They cover the round trip, the strict `<` expiry boundary, overwrite, eviction on
  expiry, invalidate, and purge followed by put.
- `CacheSequences` (`cache_sequences.dfy`) covers runs of many calls in a row. Take any
  number of Puts of distinct keys into one cache, with a non-negative TTL such that
  `now + ttl` fits in int64 (no wrap-around). Then any
  sequence of Gets of those keys in the same second, in any order and with repeats
  allowed, all hit with the right items.

Time is a parameter: `now` stands for `time.Now().Unix()` in `Put` and `Get`. Go's
result error strings become datatypes:

| Go error | `Get` outcome | `InvalidateItem` outcome |
|---|---|---|
| "No cache by that name" | `NoSuchCache` | `CacheNotFound` |
| "No cache entry by that key" | `NoSuchEntry` | `KeyNotFound` |
| "cache entry has expired" | `Expired(item)` | — |
| `nil` | `Hit(item)` | `Invalidated` |

`Put` always returns `nil` in Go, so the `Put` method returns nothing.

The Go integer type matters in one place. `ttlSeconds` is an `int64`, and
`now + ttlSeconds` wraps around on overflow. A TTL near the `int64` maximum therefore
gives an entry whose expiry is already in the past, and the next `Get` reports it
expired (`OverflowingTtlExpiresAtOnce`).

## Model

| member | source | states |
|---|---|---|
| CacheModel.AddInt64 | cache.go:61 | Go's int64 `+`: the exact sum when it fits in 64 bits; otherwise a value congruent to it modulo 2^64 that is smaller than both operands (overflow) or larger than both (underflow) |
| CacheModel.Put | cache.go:48-62 | the name is bound afterwards, and no other name is added; the key maps to `(obj, now + ttl)`, replacing any previous entry; the other keys of that cache and the other caches are unchanged; a new name gets a cache holding only this entry |
| CacheModel.Get | cache.go:66-121 | unknown name → `NoSuchCache`, state unchanged; unknown key → `NoSuchEntry`, state unchanged; Hit exactly when the entry exists and `expires >= now`; Expired exactly when `expires < now`; both hand back the stored item; only the Expired path changes the state, and it removes exactly that key from that cache; no cache is created or dropped |
| CacheModel.Invalidate | cache.go:156-181 | unknown name → `CacheNotFound`, unknown key → `KeyNotFound`, both leaving the state unchanged; `Invalidated` exactly when cache and key exist, removing only that key |
| CacheModel.Purge | cache.go:130-140 | removes exactly that name and leaves every other cache as it was; a no-op when the name is absent |
| Cache.CacheRegistry.constructor | cache.go:21-22 | the registry starts with no caches |
| Cache.CacheRegistry.InitCache | cache.go:34-45 | binds the name to a fresh, empty cache and changes nothing else |
| Cache.CacheRegistry.Put | cache.go:47-62 | the registry after the in-place update equals the function `CacheModel.Put` applied to the old registry, creating the cache via `InitCache` when the name is new |
| Cache.CacheRegistry.Get | cache.go:65-121 | the returned outcome and the registry after the in-place delete on the expired path equal `CacheModel.Get` of the old registry |
| Cache.CacheRegistry.Purge | cache.go:129-140 | the new registry is `CacheModel.Purge` of the old one |
| Cache.CacheRegistry.PurgeAll | cache.go:142-153 | after the delete loop the registry is empty |
| Cache.CacheRegistry.InvalidateItem | cache.go:155-181 | the returned outcome and the new registry equal `CacheModel.Invalidate` of the old registry |
| CacheProperties.PutThenGet | cache.go:61 | without overflow, a Get after a Put hits with the item put there exactly when `later <= now + ttl`, and reports it expired otherwise |
| CacheProperties.ZeroTtlBoundary | cache.go:96 | with TTL 0, a Get in the same second hits and changes nothing; a Get in a later second reports Expired, and the Get after that finds no entry |
| CacheProperties.OverflowingTtlExpiresAtOnce | cache.go:61 | when `now + ttl` overflows int64, the stored entry counts as expired already at `now` |
| CacheProperties.PutOverwrites | cache.go:59-61 | a second Put to the same key gives the same registry as if the first Put had never happened |
| CacheProperties.GetDoesNotCreate | cache.go:69-79 | a Get on an unknown name leaves the name unknown |
| CacheProperties.HitIsRepeatable | cache.go:113-120 | a hit changes nothing, so repeating the Get gives the same hit |
| CacheProperties.ExpiredIsEvicted | cache.go:96-111 | after a Get reports Expired, every later Get of that key finds no entry and changes nothing |
| CacheProperties.InvalidateThenGet | cache.go:170-180 | after a successful InvalidateItem, a Get of that key finds no entry |
| CacheProperties.InvalidateUndoesPut | cache.go:172-177 | InvalidateItem of a key newly put into an existing cache restores the registry from before that Put |
| CacheProperties.InvalidateKeepsCreatedCache | cache.go:177 | InvalidateItem never removes a cache: invalidating the only key of a cache that Put created leaves the name bound to an empty cache |
| CacheProperties.PurgeThenPut | cache.go:35-40 | a Put after Purge starts from an empty cache that holds only the new entry |
| CacheProperties.PurgeErasesPut | cache.go:136-138 | Purge removes every trace of a Put to the purged name |
| CacheProperties.PurgeIdempotent | cache.go:136-138 | purging a name twice has the same effect as purging it once |
| CacheSequences.PutEachKeepsOthers | cache.go:61 | a run of Puts of other keys leaves an existing entry exactly as it was |
| CacheSequences.PutEachStores | cache.go:61 | after Puts of distinct keys, each key holds its own item with expiry `now + ttl` |
| CacheSequences.GetEachHits | cache.go:113-120 | a run of Gets of live keys hits every time, each with the stored item |
| CacheSequences.PutsThenGetsAllHit | cache.go:48-121 | Puts of distinct keys with a non-negative TTL and `now + ttl` within int64, then any sequence of Gets (any order, repeats allowed) of those keys in the same second: every Get hits with the item put under its key |

## Left out

- Locking (`cacheListMtx`, each cache's `Lock`, and the read-lock-then-write-lock handoff on the expired path of `Get`): each operation is modelled as atomic. For concurrent calls, the model proves a result about sequential orders (`CacheSequences`): Puts of distinct keys in a given order, then Gets of those keys in any order. It does not model Puts and Gets interleaved with each other.
- The check-then-create race in `Put` under concurrency, where `initCache` could replace a cache that another caller had just created: sequentially, `InitCache` runs only when the name is absent.
- Cache handles, that is the `*cache` pointer that `initCache` returns and `Get`/`InvalidateItem` hold: caches are values inside the registry map. A handle that outlives a `Purge` exists only under concurrency, so it is not modelled.
- Logging (`SetLogLevel`, `logg`, the logrus calls): a side channel that does not affect any result. The read of the deleted entry at cache.go:109 only formats a log message.
- The clock: `time.Now().Unix()` is the parameter `now`.
- The dynamic type `interface{}`: items have the generic type `V`. The `nil` item that Go returns next to the two miss errors has no counterpart, because those outcomes carry no item.
