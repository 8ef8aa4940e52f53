/** The in-memory result cache of src/estate.js:12-16: entries live for sixty seconds and an
    expired entry is deleted when it is read. The clock (`Date.now()`) is a parameter. */
module TtlCache {
  import opened Basics

  /** `CACHE_TTL_MS` */
  const TTL_MS: int := 60000

  /** `{ at, data }` */
  datatype Entry<V> = Entry(at: int, data: V)

  /** What `getCache(key)` returns at time `now` for the entries `m`. */
  function Fresh<K, V>(m: map<K, Entry<V>>, key: K, now: int): (r: Option<V>)
    ensures r.Some? <==> key in m && now - m[key].at <= TTL_MS
    ensures r.Some? ==> r.value == m[key].data
  {
    if key !in m then None
    else if now - m[key].at > TTL_MS then None
    else Some(m[key].data)
  }

  /** The entries after `getCache(key)` at time `now`: an expired entry for `key` is gone. */
  function AfterGet<K(!new), V>(m: map<K, Entry<V>>, key: K, now: int): (r: map<K, Entry<V>>)
    ensures key in r <==> key in m && now - m[key].at <= TTL_MS
    ensures forall k :: k != key ==> (k in r <==> k in m)
    ensures forall k :: k in r ==> r[k] == m[k]
  {
    if key in m && now - m[key].at > TTL_MS then m - {key} else m
  }

  /** The module-level `cache` map. */
  class Cache<K(==,!new), V> {
    var entries: map<K, Entry<V>>

    /** `new Map()` */
    constructor()
      ensures entries == map[]
    {
      entries := map[];
    }

    /** `getCache(key)` at time `now`. */
    method Get(key: K, now: int) returns (r: Option<V>)
      modifies this
      ensures r == Fresh(old(entries), key, now)
      ensures entries == AfterGet(old(entries), key, now)
    {
      if key !in entries {
        return None;
      }
      var v := entries[key];
      if now - v.at > TTL_MS {
        entries := entries - {key};
        return None;
      }
      return Some(v.data);
    }

    /** `setCache(key, data)` at time `now`. */
    method Set(key: K, data: V, now: int)
      modifies this
      ensures entries == old(entries)[key := Entry(now, data)]
    {
      entries := entries[key := Entry(now, data)];
    }
  }

  /** A value stored at `at` is read back until sixty seconds have passed, and not after. */
  lemma SetThenGet<K, V>(m: map<K, Entry<V>>, key: K, data: V, at: int, now: int)
    ensures Fresh(m[key := Entry(at, data)], key, now) == if now - at <= TTL_MS then Some(data) else None
  {
  }

  /** Storing under one key leaves what every other key reads unchanged. */
  lemma SetKeepsOthers<K, V>(m: map<K, Entry<V>>, key: K, data: V, at: int, other: K, now: int)
    requires other != key
    ensures Fresh(m[key := Entry(at, data)], other, now) == Fresh(m, other, now)
  {
  }

  /** Deleting an expired entry on read changes no later read, as long as the clock does not go
      back. */
  lemma GetInvisibleLater<K(!new), V>(m: map<K, Entry<V>>, key: K, now: int, other: K, later: int)
    requires now <= later
    ensures Fresh(AfterGet(m, key, now), other, later) == Fresh(m, other, later)
  {
  }
}
