/** Runs of several operations in a row, each call finishing before the
    next begins. When calls run one after another in this way, any number of
    Puts of distinct keys into one cache, followed by Gets of those keys in
    any order before the entries expire, all hit with the right items.
    Interleaved calls are outside these lemmas: Go's Get releases its read
    lock before taking the write lock on the expired path, so a concurrent
    Put in that gap can be deleted, which no sequential order produces. */
module CacheSequences {
  import opened CacheModel

  /** The keys of a list of (key, item) pairs, in order. */
  function KeysOf<V>(entries: seq<(string, V)>): (keys: seq<string>)
    ensures |keys| == |entries|
    ensures forall i :: 0 <= i < |entries| ==> keys[i] == entries[i].0
  {
    if entries == [] then [] else [entries[0].0] + KeysOf(entries[1..])
  }

  predicate DistinctKeys<V>(entries: seq<(string, V)>)
  {
    forall i, j :: 0 <= i < j < |entries| ==> entries[i].0 != entries[j].0
  }

  /** Put every pair into the cache `name`, first to last. */
  function PutEach<V>(reg: Registry<V>, name: string, entries: seq<(string, V)>, ttl: Int64, now: Int64): (r: Registry<V>)
    decreases |entries|
  {
    if entries == [] then reg
    else PutEach(Put(reg, name, entries[0].0, entries[0].1, ttl, now), name, entries[1..], ttl, now)
  }

  /** Get every key from the cache `name`, first to last, each Get seeing the
      registry left by the one before; the outcomes in order. */
  function GetEach<V>(reg: Registry<V>, name: string, keys: seq<string>, now: Int64): (outcomes: seq<GetOutcome<V>>)
    decreases |keys|
  {
    if keys == [] then []
    else
      var step := Get(reg, name, keys[0], now);
      [step.outcome] + GetEach(step.after, name, keys[1..], now)
  }

  /** Puts of other keys leave an entry as it was. */
  lemma {:induction false} PutEachKeepsOthers<V>(reg: Registry<V>, name: string, entries: seq<(string, V)>, ttl: Int64, now: Int64, key: string)
    requires name in reg && key in reg[name]
    requires forall i :: 0 <= i < |entries| ==> entries[i].0 != key
    ensures var r := PutEach(reg, name, entries, ttl, now);
            name in r && key in r[name] && r[name][key] == reg[name][key]
    decreases |entries|
  {
    if entries != [] {
      var next := Put(reg, name, entries[0].0, entries[0].1, ttl, now);
      assert next[name][key] == reg[name][key];
      forall i | 0 <= i < |entries[1..]|
        ensures entries[1..][i].0 != key
      {
        assert entries[1..][i] == entries[i + 1];
      }
      PutEachKeepsOthers(next, name, entries[1..], ttl, now, key);
    }
  }

  /** After the Puts, each key holds its own item, with expiry `now + ttl`. */
  lemma {:induction false} PutEachStores<V>(reg: Registry<V>, name: string, entries: seq<(string, V)>, ttl: Int64, now: Int64, i: nat)
    requires DistinctKeys(entries)
    requires i < |entries|
    ensures var r := PutEach(reg, name, entries, ttl, now);
            name in r && entries[i].0 in r[name] && r[name][entries[i].0] == Entry(entries[i].1, AddInt64(now, ttl))
    decreases |entries|
  {
    var next := Put(reg, name, entries[0].0, entries[0].1, ttl, now);
    var rest := entries[1..];
    if i == 0 {
      forall j | 0 <= j < |rest|
        ensures rest[j].0 != entries[0].0
      {
        assert rest[j] == entries[j + 1];
      }
      PutEachKeepsOthers(next, name, rest, ttl, now, entries[0].0);
    } else {
      forall j, k | 0 <= j < k < |rest|
        ensures rest[j].0 != rest[k].0
      {
        assert rest[j] == entries[j + 1] && rest[k] == entries[k + 1];
      }
      assert rest[i - 1] == entries[i];
      PutEachStores(next, name, rest, ttl, now, i - 1);
    }
  }

  /** Gets of keys that are all live hit one after another; no Get changes
      the registry, so each sees what the first saw. */
  lemma {:induction false} GetEachHits<V>(reg: Registry<V>, name: string, keys: seq<string>, now: Int64)
    requires name in reg
    requires forall i :: 0 <= i < |keys| ==> keys[i] in reg[name] && !IsExpired(reg[name][keys[i]], now)
    ensures |GetEach(reg, name, keys, now)| == |keys|
    ensures forall i :: 0 <= i < |keys| ==> GetEach(reg, name, keys, now)[i] == Hit(reg[name][keys[i]].item)
    decreases |keys|
  {
    if keys != [] {
      var step := Get(reg, name, keys[0], now);
      assert step.after == reg;
      forall i | 0 <= i < |keys[1..]|
        ensures keys[1..][i] in reg[name] && !IsExpired(reg[name][keys[1..][i]], now)
      {
        assert keys[1..][i] == keys[i + 1];
      }
      GetEachHits(reg, name, keys[1..], now);
      forall i | 0 <= i < |keys|
        ensures GetEach(reg, name, keys, now)[i] == Hit(reg[name][keys[i]].item)
      {
        if i > 0 {
          assert keys[1..][i - 1] == keys[i];
        }
      }
    }
  }

  /** One outcome per key looked up, each a hit carrying the item paired with
      that key in `entries`. */
  ghost predicate AllHit<V>(outcomes: seq<GetOutcome<V>>, keys: seq<string>, entries: seq<(string, V)>)
  {
    && |outcomes| == |keys|
    && forall i, j :: 0 <= i < |keys| && 0 <= j < |entries| && keys[i] == entries[j].0 ==> outcomes[i] == Hit(entries[j].1)
  }

  /** Puts of distinct keys with a non-negative TTL such that `now + ttl`
      fits in int64, then Gets in the same second of any of those keys, in
      any order and any number of times: every Get is a hit with the item
      put under its key. */
  lemma PutsThenGetsAllHit<V>(reg: Registry<V>, name: string, entries: seq<(string, V)>, ttl: Int64, now: Int64, keys: seq<string>)
    requires DistinctKeys(entries)
    requires 0 <= ttl && now + ttl <= MaxInt64
    requires forall i :: 0 <= i < |keys| ==> keys[i] in KeysOf(entries)
    ensures AllHit(GetEach(PutEach(reg, name, entries, ttl, now), name, keys, now), keys, entries)
  {
    var r := PutEach(reg, name, entries, ttl, now);
    if keys != [] {
      assert keys[0] in KeysOf(entries);
      PutEachStores(reg, name, entries, ttl, now, 0);
      forall i | 0 <= i < |keys|
        ensures keys[i] in r[name] && !IsExpired(r[name][keys[i]], now)
      {
        var j :| 0 <= j < |entries| && KeysOf(entries)[j] == keys[i];
        PutEachStores(reg, name, entries, ttl, now, j);
      }
      GetEachHits(r, name, keys, now);
      forall i, j | 0 <= i < |keys| && 0 <= j < |entries| && keys[i] == entries[j].0
        ensures GetEach(r, name, keys, now)[i] == Hit(entries[j].1)
      {
        PutEachStores(reg, name, entries, ttl, now, j);
      }
    }
  }
}
