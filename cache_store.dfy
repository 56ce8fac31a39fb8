/** The read-through cache protocol shared by the ticket-link cache and the
    game-preview cache: a JSON object on disk mapping a string key to an
    entry stamped with the time it was written. A missing or unreadable
    file reads as an empty cache; an entry is served only while it is
    younger than the cache's time-to-live; writes occasionally purge
    expired entries. */
module CacheStore {
  import opened Options

  /** An entry as stored: its value and `cachedAt`, the time it was written;
      `None` when the stored text does not parse as a date (`NaN`). */
  datatype Entry<V> = Entry(value: V, cachedAt: Option<int>)

  /** Served at `now`: the stamp parses and `now - cachedAt <= ttl`. */
  predicate IsFresh<V>(e: Entry<V>, now: int, ttl: int) {
    e.cachedAt.Some? && now - e.cachedAt.value <= ttl
  }

  /** The entries of `cache` that survive a purge at `now`. */
  function FreshEntries<V>(cache: map<string, Entry<V>>, now: int, ttl: int): map<string, Entry<V>> {
    map k | k in cache && IsFresh(cache[k], now, ttl) :: cache[k]
  }

  /** Drops every entry whose stamp does not parse or is older than `ttl`;
      a purge keeps exactly the fresh entries, unchanged. */
  method PurgeExpiredEntries<V>(cache: map<string, Entry<V>>, now: int, ttl: int)
    returns (pruned: map<string, Entry<V>>)
    ensures forall k :: k in pruned <==> k in cache && IsFresh(cache[k], now, ttl)
    ensures forall k :: k in pruned ==> pruned[k] == cache[k]
    ensures pruned == FreshEntries(cache, now, ttl)
  {
    pruned := map[];
    var todo := cache.Keys;
    while todo != {}
      invariant todo <= cache.Keys
      invariant forall k :: k in pruned <==> k in cache && k !in todo && IsFresh(cache[k], now, ttl)
      invariant forall k :: k in pruned ==> pruned[k] == cache[k]
      decreases todo
    {
      var k :| k in todo;
      if IsFresh(cache[k], now, ttl) {
        pruned := pruned[k := cache[k]];
      }
      todo := todo - {k};
    }
  }

  /** A cache read: `None` on a miss (no entry, an unparsable stamp or an
      entry past its time-to-live), otherwise the stored value. */
  function Lookup<V>(cache: map<string, Entry<V>>, key: string, now: int, ttl: int): (r: Option<V>)
    ensures r.Some? <==> key in cache && IsFresh(cache[key], now, ttl)
    ensures r.Some? ==> r.value == cache[key].value
  {
    if key in cache && IsFresh(cache[key], now, ttl) then Some(cache[key].value) else None
  }

  /** The cache a write of `value` under `key` at `now` produces, with or
      without the purge that follows it. */
  function Written<V>(cache: map<string, Entry<V>>, key: string, value: V, now: int, purge: bool, ttl: int)
    : map<string, Entry<V>>
  {
    var stamped := cache[key := Entry(value, Some(now))];
    if purge then FreshEntries(stamped, now, ttl) else stamped
  }

  /** A value written at `now` is served back at `now`, purge or no purge;
      without a purge every other entry is untouched, and with one every
      other entry is kept exactly when it is fresh. */
  lemma WrittenThenRead<V>(cache: map<string, Entry<V>>, key: string, value: V, now: int, purge: bool, ttl: int)
    requires 0 <= ttl
    ensures Lookup(Written(cache, key, value, now, purge, ttl), key, now, ttl) == Some(value)
    ensures !purge ==> forall k :: k != key ==>
      (k in Written(cache, key, value, now, purge, ttl) <==> k in cache)
    ensures forall k :: k != key && k in Written(cache, key, value, now, purge, ttl) ==>
      k in cache && Written(cache, key, value, now, purge, ttl)[k] == cache[k]
    ensures purge ==> forall k :: k != key ==>
      (k in Written(cache, key, value, now, purge, ttl) <==> k in cache && IsFresh(cache[k], now, ttl))
  {
    var stamped := cache[key := Entry(value, Some(now))];
    assert IsFresh(stamped[key], now, ttl);
  }

  /** An entry written at `t` is served up to and including `t + ttl` and
      is a miss from `t + ttl + 1` on. */
  lemma TtlBoundary<V>(key: string, value: V, t: int, ttl: int)
    ensures Lookup(map[key := Entry(value, Some(t))], key, t + ttl, ttl) == Some(value)
    ensures Lookup(map[key := Entry(value, Some(t))], key, t + ttl + 1, ttl) == None
  {
  }

  /** The cache file. `file` is the object last written, `None` when the
      file is missing or does not parse. */
  class Store<V> {
    const ttl: int
    var file: Option<map<string, Entry<V>>>

    constructor (ttl: int, file: Option<map<string, Entry<V>>>)
      requires 0 <= ttl
      ensures this.ttl == ttl && this.file == file
    {
      this.ttl := ttl;
      this.file := file;
    }

    /** Reading the file: anything unreadable is an empty cache. */
    function Read(): (m: map<string, Entry<V>>)
      reads this
      ensures file.None? ==> m == map[]
      ensures file.Some? ==> m == file.value
    {
      if file.Some? then file.value else map[]
    }

    /** A cache read at `now`. */
    function Get(key: string, now: int): Option<V>
      reads this
    {
      Lookup(Read(), key, now, ttl)
    }

    /** Writes `value` under `key` stamped `now`. `purge` is the outcome of
        the 5% coin flip that triggers a purge; `writeOk` is false when the
        write fails, which leaves the file as it was. */
    method Set(key: string, value: V, now: int, purge: bool, writeOk: bool)
      modifies this
      ensures writeOk ==> file == Some(Written(old(Read()), key, value, now, purge, ttl))
      ensures !writeOk ==> file == old(file)
    {
      var cache := Read();
      cache := cache[key := Entry(value, Some(now))];
      if purge {
        cache := PurgeExpiredEntries(cache, now, ttl);
      }
      if writeOk {
        file := Some(cache);
      }
    }
  }
}
