/** The meaning of each operation of the cache package, stated on values.

    The package keeps one process-wide map from a cache name to a cache, and
    every cache maps a string key to an entry (item, expires). Here that whole
    state is a `Registry<V>`, and each operation is a function from the state
    before the call to its outcome and the state after it. The class in module
    Cache performs the same operations in place and proves that it agrees with
    these functions.
 */
module CacheModel {

  /** Go's int64: expiry times and TTLs are 64-bit signed seconds. */
  const MinInt64: int := -0x8000_0000_0000_0000
  const MaxInt64: int := 0x7fff_ffff_ffff_ffff
  const Modulus64: int := 0x1_0000_0000_0000_0000

  type Int64 = x: int | MinInt64 <= x <= MaxInt64

  /** Go's `+` on int64: the exact sum when it fits, otherwise the sum wrapped
      around modulo 2^64 into the signed range. */
  function AddInt64(a: Int64, b: Int64): (r: Int64)
    ensures MinInt64 <= a + b <= MaxInt64 ==> r == a + b
    ensures (a + b - r) % Modulus64 == 0
    ensures a + b > MaxInt64 ==> r < a && r < b
    ensures a + b < MinInt64 ==> r > a && r > b
  {
    var s := a + b;
    if s > MaxInt64 then s - Modulus64
    else if s < MinInt64 then s + Modulus64
    else s
  }

  /** A stored item and the second (Unix time) after which it is stale. */
  datatype Entry<V> = Entry(item: V, expires: Int64)

  /** The entries of one named cache. */
  type Data<V> = map<string, Entry<V>>

  /** Every named cache of the process. */
  type Registry<V> = map<string, Data<V>>

  /** What Get reports: a hit, one of the two misses, or an expired entry
      (which still hands back the item it removed). */
  datatype GetOutcome<V> = Hit(item: V) | NoSuchCache | NoSuchEntry | Expired(item: V)

  /** What InvalidateItem reports. */
  datatype InvalidateOutcome = Invalidated | CacheNotFound | KeyNotFound

  /** The outcome of an operation together with the registry it leaves. */
  datatype Step<O, V> = Step(outcome: O, after: Registry<V>)

  /** An entry is stale only once its expiry second is strictly in the past. */
  predicate IsExpired<V>(e: Entry<V>, now: Int64)
  {
    e.expires < now
  }

  /** The entries Put writes into: those of the named cache, or none when the
      name has no cache yet (it is then bound to a fresh, empty one). */
  function DataOf<V>(reg: Registry<V>, name: string): (d: Data<V>)
  {
    if name in reg then reg[name] else map[]
  }

  /** Put: store `obj` under `key` in the cache `name`, creating the cache
      when the name is new; the entry expires at `now + ttl`. */
  function Put<V>(reg: Registry<V>, name: string, key: string, obj: V, ttl: Int64, now: Int64): (r: Registry<V>)
    ensures r.Keys == reg.Keys + {name}
    ensures r[name].Keys == DataOf(reg, name).Keys + {key}
    ensures r[name][key] == Entry(obj, AddInt64(now, ttl))
    ensures forall k :: k in DataOf(reg, name) && k != key ==> r[name][k] == DataOf(reg, name)[k]
    ensures forall n :: n in reg && n != name ==> r[n] == reg[n]
    ensures name !in reg ==> r[name] == map[key := Entry(obj, AddInt64(now, ttl))]
  {
    reg[name := DataOf(reg, name)[key := Entry(obj, AddInt64(now, ttl))]]
  }

  /** Get: look `key` up in the cache `name` at time `now`. An expired entry
      is removed from its cache as a side effect of being looked up. */
  function Get<V>(reg: Registry<V>, name: string, key: string, now: Int64): (r: Step<GetOutcome<V>, V>)
    ensures name !in reg ==> r == Step(NoSuchCache, reg)
    ensures name in reg && key !in reg[name] ==> r == Step(NoSuchEntry, reg)
    ensures r.outcome.Hit? <==> name in reg && key in reg[name] && !IsExpired(reg[name][key], now)
    ensures r.outcome.Expired? <==> name in reg && key in reg[name] && IsExpired(reg[name][key], now)
    ensures r.outcome.Hit? || r.outcome.Expired? ==> r.outcome.item == reg[name][key].item
    ensures r.after.Keys == reg.Keys
    ensures r.outcome.Expired? ==> r.after[name] == reg[name] - {key}
    ensures forall n :: n in reg && n != name ==> r.after[n] == reg[n]
    ensures r.after != reg <==> r.outcome.Expired?
  {
    if name !in reg then Step(NoSuchCache, reg)
    else if key !in reg[name] then Step(NoSuchEntry, reg)
    else if IsExpired(reg[name][key], now) then
      Step(Expired(reg[name][key].item), reg[name := reg[name] - {key}])
    else Step(Hit(reg[name][key].item), reg)
  }

  /** InvalidateItem: delete `key` from the cache `name`; both the cache and
      the key must exist. */
  function Invalidate<V>(reg: Registry<V>, name: string, key: string): (r: Step<InvalidateOutcome, V>)
    ensures name !in reg ==> r == Step(CacheNotFound, reg)
    ensures name in reg && key !in reg[name] ==> r == Step(KeyNotFound, reg)
    ensures r.outcome == Invalidated <==> name in reg && key in reg[name]
    ensures r.after.Keys == reg.Keys
    ensures r.outcome == Invalidated ==> r.after[name] == reg[name] - {key}
    ensures forall n :: n in reg && n != name ==> r.after[n] == reg[n]
  {
    if name !in reg then Step(CacheNotFound, reg)
    else if key !in reg[name] then Step(KeyNotFound, reg)
    else Step(Invalidated, reg[name := reg[name] - {key}])
  }

  /** Purge: forget the cache `name` and all its entries; nothing happens when
      the name has no cache. */
  function Purge<V>(reg: Registry<V>, name: string): (r: Registry<V>)
    ensures r.Keys == reg.Keys - {name}
    ensures forall n :: n in r ==> r[n] == reg[n]
    ensures name !in reg ==> r == reg
  {
    reg - {name}
  }
}
