/**
  The two caches of the item search: answers by query and page, and prefetched
  match lists by query. Each is an ordered map from key to entry, oldest first:
  a read of an expired entry removes it, a hit moves its key to the newest
  position, and a write puts its key at the newest position and then drops the
  oldest keys while the cache holds more than its bound. The clock is the `now`
  parameter of every operation.
 */
module ItemsCache {
  import opened Wrappers
  import Json
  import Dedup

  /** A stored value and the time it was stored. */
  datatype Entry<V> = Entry(value: V, storedAt: int)

  /** A cache as a value: its keys oldest first, and the entry of each key. */
  datatype CacheState<K, V> = CacheState(order: seq<K>, entries: map<K, Entry<V>>)

  /** Each key appears once in the order, and the order lists exactly the keys that have entries. */
  ghost predicate WellFormed<K(!new), V>(s: CacheState<K, V>) {
    Dedup.Distinct(s.order) && forall k :: k in s.order <==> k in s.entries
  }

  /** `_is_expired(entry)`: at least `ttl` has passed since the entry was stored. */
  predicate Expired<V>(e: Entry<V>, now: int, ttl: int) {
    now - e.storedAt >= ttl
  }

  /** The order with `k` taken out; the others keep their relative order. */
  function Without<K(==,!new)>(order: seq<K>, k: K): (r: seq<K>)
    ensures forall x :: x in r <==> x in order && x != k
    ensures |r| <= |order|
    ensures k !in order ==> r == order
    decreases |order|
  {
    if order == [] then []
    else if order[0] == k then Without(order[1..], k)
    else [order[0]] + Without(order[1..], k)
  }

  lemma {:induction false} WithoutDistinct<K(!new)>(order: seq<K>, k: K)
    requires Dedup.Distinct(order)
    ensures Dedup.Distinct(Without(order, k))
    ensures k in order ==> |Without(order, k)| == |order| - 1
    decreases |order|
  {
    if order != [] {
      WithoutDistinct(order[1..], k);
      var rest := Without(order[1..], k);
      if order[0] != k {
        assert order[0] !in order[1..];
        var r := [order[0]] + rest;
        forall i, j | 0 <= i < j < |r| ensures r[i] != r[j] {
          if i == 0 {
            assert r[j] in rest;
          } else {
            assert r[i] == rest[i - 1] && r[j] == rest[j - 1];
          }
        }
      } else {
        assert k !in order[1..];
      }
    }
  }

  /** The newest `max` keys of an order, oldest first. */
  function Newest<K(==,!new)>(order: seq<K>, max: nat): (r: seq<K>)
    ensures |r| <= max && |r| <= |order|
    ensures |r| == if |order| <= max then |order| else max
    ensures r == order[|order| - |r|..]
  {
    if |order| > max then order[|order| - max..] else order
  }

  /** Dropping the oldest key of a suffix of a distinct order leaves a shorter suffix and drops only that key's entry. */
  lemma EvictStep<K(!new), V>(o0: seq<K>, e0: map<K, Entry<V>>, dropped: nat)
    requires Dedup.Distinct(o0) && dropped < |o0|
    ensures o0[dropped..][1..] == o0[dropped + 1..]
    ensures Restrict(e0, o0[dropped..]) - {o0[dropped]} == Restrict(e0, o0[dropped + 1..])
  {
    DistinctSuffix(o0, dropped);
    RestrictTail(e0, o0[dropped..]);
  }

  /** Dropping the oldest keys until the rest is within the bound, and no further, leaves `Newest(order, max)`. */
  lemma NewestSuffix<K(!new)>(order: seq<K>, dropped: nat, max: nat)
    requires dropped <= |order| && |order| - dropped <= max && (|order| - dropped >= max || dropped == 0)
    ensures order[dropped..] == Newest(order, max)
  {
  }

  /** The entries of the keys in `order`. */
  function Restrict<K(==,!new), V>(entries: map<K, Entry<V>>, order: seq<K>): (r: map<K, Entry<V>>)
    ensures forall k :: k in r <==> k in entries && k in order
    ensures forall k :: k in r ==> r[k] == entries[k]
  {
    map k | k in entries.Keys && k in order :: entries[k]
  }

  /** `_evict_if_needed()`: the oldest keys go until at most `max` remain. */
  function Evicted<K(==,!new), V>(s: CacheState<K, V>, max: nat): (r: CacheState<K, V>)
    ensures |r.order| == if |s.order| <= max then |s.order| else max
    ensures r.order == s.order[|s.order| - |r.order|..]
    ensures |s.order| <= max ==> r.order == s.order
    ensures forall k :: k in r.entries <==> k in s.entries && k in r.order
    ensures forall k :: k in r.entries ==> r.entries[k] == s.entries[k]
  {
    var kept := Newest(s.order, max);
    assert |s.order| <= max ==> kept == s.order[0..] == s.order;
    CacheState(kept, Restrict(s.entries, kept))
  }

  /**
    `get_cached_response(key)` as a value: a miss changes nothing; an expired
    entry is removed and reads as a miss; a hit returns the entry and moves its
    key to the newest position.
   */
  function Lookup<K(==,!new), V>(s: CacheState<K, V>, key: K, now: int, ttl: int): (r: (CacheState<K, V>, Option<Entry<V>>))
    ensures r.1.Some? <==> key in s.entries && !Expired(s.entries[key], now, ttl)
    ensures r.1.Some? ==> r.1.value == s.entries[key] && r.0.entries == s.entries
    ensures key in s.entries && Expired(s.entries[key], now, ttl) ==> r.0.entries == s.entries - {key}
    ensures key !in s.entries ==> r.0 == s
  {
    if key !in s.entries then (s, None)
    else if Expired(s.entries[key], now, ttl) then (CacheState(Without(s.order, key), s.entries - {key}), None)
    else (CacheState(Without(s.order, key) + [key], s.entries), Some(s.entries[key]))
  }

  /** The order with `key` moved to the newest position. */
  function Moved<K(==,!new)>(order: seq<K>, key: K): seq<K> {
    Without(order, key) + [key]
  }

  /**
    `set_cached_response(key, value)` as a value: the key maps to the value
    stored now, moves to the newest position, and eviction follows.
   */
  function Store<K(==,!new), V>(s: CacheState<K, V>, key: K, value: V, now: int, max: nat): (r: CacheState<K, V>)
    ensures |r.order| == (if |Moved(s.order, key)| <= max then |Moved(s.order, key)| else max)
    ensures r.order == Moved(s.order, key)[|Moved(s.order, key)| - |r.order|..]
    ensures max > 0 ==> r.order != [] && r.order[|r.order| - 1] == key && key in r.entries && r.entries[key] == Entry(value, now)
    ensures forall k :: k in r.entries && k != key ==> k in s.entries && r.entries[k] == s.entries[k]
  {
    var t := CacheState(Moved(s.order, key), s.entries[key := Entry(value, now)]);
    StoreEntries(s, key, Entry(value, now), max);
    Evicted(t, max)
  }

  /** The entries after a write: the new one when it survives, the others as they were. */
  lemma StoreEntries<K(!new), V>(s: CacheState<K, V>, key: K, e: Entry<V>, max: nat)
    ensures var r := Evicted(CacheState(Moved(s.order, key), s.entries[key := e]), max);
      (max > 0 ==> r.order != [] && r.order[|r.order| - 1] == key && key in r.entries && r.entries[key] == e)
      && (forall k :: k in r.entries && k != key ==> k in s.entries && r.entries[k] == s.entries[k])
  {
    var order := Moved(s.order, key);
    assert order[|order| - 1] == key;
    EvictedKeepsNewest(CacheState(order, s.entries[key := e]), max);
  }

  /** With a positive bound, eviction keeps the newest key and its entry. */
  lemma EvictedKeepsNewest<K(!new), V>(t: CacheState<K, V>, max: nat)
    requires t.order != [] && t.order[|t.order| - 1] in t.entries
    ensures var r := Evicted(t, max); var newest := t.order[|t.order| - 1];
      max > 0 ==> r.order != [] && r.order[|r.order| - 1] == newest && newest in r.entries && r.entries[newest] == t.entries[newest]
  {
    if max > 0 {
      var r := Evicted(t, max);
      assert r.order[|r.order| - 1] == t.order[|t.order| - 1];
    }
  }

  lemma DistinctSnoc<K(!new)>(order: seq<K>, k: K)
    requires Dedup.Distinct(order) && k !in order
    ensures Dedup.Distinct(order + [k])
  {
  }

  lemma DistinctSuffix<K(!new)>(order: seq<K>, n: nat)
    requires Dedup.Distinct(order) && n <= |order|
    ensures Dedup.Distinct(order[n..])
  {
    var r := order[n..];
    forall i, j | 0 <= i < j < |r| ensures r[i] != r[j] {
      assert r[i] == order[n + i] && r[j] == order[n + j];
    }
  }

  /**
    A read returns an entry exactly when the key has one that has not expired,
    and then returns that entry unchanged; it keeps the cache well formed, keeps
    every other key's entry, and moves only the key read.
   */
  lemma LookupSpec<K(!new), V>(s: CacheState<K, V>, key: K, now: int, ttl: int)
    requires WellFormed(s)
    ensures var (s', r) := Lookup(s, key, now, ttl);
      WellFormed(s')
      && (r.Some? <==> key in s.entries && !Expired(s.entries[key], now, ttl))
      && (r.Some? ==> r.value == s.entries[key] && s'.entries == s.entries && s'.order == Without(s.order, key) + [key])
      && (key in s.entries && Expired(s.entries[key], now, ttl) ==> key !in s'.entries && s'.order == Without(s.order, key))
      && (key !in s.entries ==> s' == s)
      && (forall k :: k != key ==> (k in s'.entries <==> k in s.entries) && (k in s'.entries ==> s'.entries[k] == s.entries[k]))
  {
    WithoutDistinct(s.order, key);
    if key in s.entries && !Expired(s.entries[key], now, ttl) {
      DistinctSnoc(Without(s.order, key), key);
    }
  }

  /** Eviction keeps the cache well formed and drops exactly the oldest keys. */
  lemma EvictedSpec<K(!new), V>(s: CacheState<K, V>, max: nat)
    requires WellFormed(s)
    ensures var s' := Evicted(s, max);
      WellFormed(s')
      && |s'.order| == (if |s.order| <= max then |s.order| else max)
      && s'.order == s.order[|s.order| - |s'.order|..]
      && (forall k :: k in s'.entries ==> s'.entries[k] == s.entries[k])
  {
    var kept := Newest(s.order, max);
    var entries := Restrict(s.entries, kept);
    DistinctSuffix(s.order, |s.order| - |kept|);
    forall k ensures k in kept <==> k in entries {
      if k in kept {
        assert k in s.order;
      }
    }
  }

  /** A cache within its bound is left as it is. */
  lemma RestrictAll<K(!new), V>(s: CacheState<K, V>)
    requires WellFormed(s)
    ensures Restrict(s.entries, s.order) == s.entries
  {
  }

  /** Dropping the oldest key drops its entry and no other. */
  lemma RestrictTail<K(!new), V>(entries: map<K, Entry<V>>, order: seq<K>)
    requires Dedup.Distinct(order) && order != []
    ensures Restrict(entries, order) - {order[0]} == Restrict(entries, order[1..])
  {
    assert order[0] !in order[1..];
    forall k | k in order ensures k == order[0] || k in order[1..] {
      var i :| 0 <= i < |order| && order[i] == k;
      if i > 0 {
        assert order[1..][i - 1] == k;
      }
    }
  }

  lemma EvictedWithinBound<K(!new), V>(s: CacheState<K, V>, max: nat)
    requires WellFormed(s) && |s.order| <= max
    ensures Evicted(s, max) == s
  {
    assert Newest(s.order, max) == s.order;
    RestrictAll(s);
  }

  /**
    After a write the cache is well formed, and the keys that stay are the
    newest of the order with the key moved to the newest position.
   */
  lemma StoreSpec<K(!new), V>(s: CacheState<K, V>, key: K, value: V, now: int, max: nat)
    requires WellFormed(s)
    ensures var s' := Store(s, key, value, now, max);
      var moved := Moved(s.order, key);
      WellFormed(s')
      && |s'.order| == (if |moved| <= max then |moved| else max)
      && s'.order == moved[|moved| - |s'.order|..]
  {
    var moved := Moved(s.order, key);
    var t := CacheState(moved, s.entries[key := Entry(value, now)]);
    MovedWellFormed(s, key, Entry(value, now));
    EvictedSpec(t, max);
    assert Store(s, key, value, now, max) == Evicted(t, max);
  }

  /** Writing a key and moving it to the newest position keeps the cache well formed. */
  lemma MovedWellFormed<K(!new), V>(s: CacheState<K, V>, key: K, e: Entry<V>)
    requires WellFormed(s)
    ensures WellFormed(CacheState(Moved(s.order, key), s.entries[key := e]))
  {
    WithoutDistinct(s.order, key);
    DistinctSnoc(Without(s.order, key), key);
  }

  /** A value just written is read back until its time to live has passed. */
  lemma StoreThenLookup<K(!new), V>(s: CacheState<K, V>, key: K, value: V, now: int, max: nat, later: int, ttl: int)
    requires WellFormed(s) && max > 0 && later - now < ttl
    ensures Lookup(Store(s, key, value, now, max), key, later, ttl).1 == Some(Entry(value, now))
  {
    StoreSpec(s, key, value, now, max);
  }

  /** A cache of entries with its own bound and time to live. */
  class LruCache<K(==,!new), V> {
    var order: seq<K>
    var entries: map<K, Entry<V>>
    const maxEntries: nat
    const ttl: int

    ghost predicate Valid()
      reads this
    {
      WellFormed(CacheState(order, entries))
    }

    function State(): CacheState<K, V>
      reads this
    {
      CacheState(order, entries)
    }

    constructor (maxEntries: nat, ttl: int)
      ensures Valid() && State() == CacheState([], map[])
      ensures this.maxEntries == maxEntries && this.ttl == ttl
    {
      order := [];
      entries := map[];
      this.maxEntries := maxEntries;
      this.ttl := ttl;
    }

    /** `get_cached_response` / `get_prefetch_cache_entry`. */
    method Get(key: K, now: int) returns (r: Option<Entry<V>>)
      requires Valid()
      modifies this
      ensures Valid()
      ensures (State(), r) == Lookup(old(State()), key, now, ttl)
    {
      LookupSpec(State(), key, now, ttl);
      if key !in entries {
        return None;
      }
      var entry := entries[key];
      if Expired(entry, now, ttl) {
        entries := entries - {key};
        order := Without(order, key);
        return None;
      }
      order := Without(order, key) + [key];
      return Some(entry);
    }

    /** `set_cached_response` / `set_prefetch_cache_entry`: store, move to the newest position, evict. */
    method Set(key: K, value: V, now: int)
      requires Valid()
      modifies this
      ensures Valid()
      ensures State() == Store(old(State()), key, value, now, maxEntries)
    {
      WithoutDistinct(order, key);
      DistinctSnoc(Without(order, key), key);
      entries := entries[key := Entry(value, now)];
      order := Without(order, key) + [key];
      EvictIfNeeded();
    }

    /** `_evict_if_needed()`: drop the oldest key while the cache is over its bound. */
    method EvictIfNeeded()
      requires Valid()
      modifies this
      ensures Valid()
      ensures State() == Evicted(old(State()), maxEntries)
    {
      ghost var o0, e0 := order, entries;
      RestrictAll(State());
      assert Dedup.Distinct(o0);
      ghost var dropped := 0;
      while |order| > maxEntries
        invariant dropped <= |o0| && order == o0[dropped..]
        invariant |order| >= maxEntries || dropped == 0
        invariant entries == Restrict(e0, order)
        decreases |order|
      {
        EvictStep(o0, e0, dropped);
        entries := entries - {order[0]};
        order := order[1..];
        dropped := dropped + 1;
      }
      NewestSuffix(o0, dropped, maxEntries);
      EvictedSpec(CacheState(o0, e0), maxEntries);
      assert Evicted(CacheState(o0, e0), maxEntries) == CacheState(order, Restrict(e0, order));
    }
  }

  // The item caches

  /** `ItemQueryCacheKey`: the query, the tag cache version and the page. */
  datatype QueryKey = QueryKey(
    base: string, userId: string, libraryId: string, includeTypes: seq<string>,
    includeTagKeys: seq<string>, excludeTagKeys: seq<string>, excludedTypes: seq<string>,
    titleQuery: string, sortBy: string, sortOrder: string, tagCacheVersion: int,
    startIndex: int, limit: int)

  /** `ItemPrefetchCacheKey`: the query and the tag cache version. */
  datatype PrefetchKey = PrefetchKey(
    base: string, userId: string, libraryId: string, includeTypes: seq<string>,
    includeTagKeys: seq<string>, excludeTagKeys: seq<string>, excludedTypes: seq<string>,
    titleQuery: string, sortBy: string, sortOrder: string, tagCacheVersion: int)

  /** `ItemPrefetchCacheEntry` without its store time (kept by the cache's `Entry`). */
  datatype PrefetchEntry = PrefetchEntry(matches: seq<Json.Json>, totalMatches: int, complete: bool, truncated: bool)

  /**
    The entry `set_prefetch_cache_entry` stores: at most `limit` leading
    matches, flagged truncated exactly when fewer are kept than the total, and
    the total and completeness as given.
   */
  function PrefetchEntryOf(matches: seq<Json.Json>, totalMatches: int, complete: bool, limit: nat): (r: PrefetchEntry)
    ensures |r.matches| <= limit && r.matches <= matches
    ensures |r.matches| == if |matches| <= limit then |matches| else limit
    ensures r.truncated <==> |r.matches| < totalMatches
    ensures r.totalMatches == totalMatches && r.complete == complete
  {
    var trimmed := if |matches| <= limit then matches else matches[..limit];
    PrefetchEntry(trimmed, totalMatches, complete, |trimmed| < totalMatches)
  }

  /**
    When the total is the number of matches given, the entry is truncated
    exactly when there were more matches than the limit.
   */
  lemma PrefetchTruncatedExactly(matches: seq<Json.Json>, complete: bool, limit: nat)
    ensures PrefetchEntryOf(matches, |matches|, complete, limit).truncated <==> |matches| > limit
  {
  }

  /**
    The two caches of the item search, each with its own bound and time to
    live, and the prefetch length limit.
   */
  class ItemCaches {
    const query: LruCache<QueryKey, Json.Json>
    const prefetch: LruCache<PrefetchKey, PrefetchEntry>
    const prefetchLimit: nat

    ghost predicate Valid()
      reads this, query, prefetch
    {
      query.Valid() && prefetch.Valid()
    }

    constructor (queryMaxEntries: nat, queryTtl: int, prefetchMaxEntries: nat, prefetchTtl: int, prefetchLimit: nat)
      ensures Valid() && fresh(query) && fresh(prefetch)
      ensures query.State() == CacheState([], map[]) && query.maxEntries == queryMaxEntries && query.ttl == queryTtl
      ensures prefetch.State() == CacheState([], map[]) && prefetch.maxEntries == prefetchMaxEntries && prefetch.ttl == prefetchTtl
      ensures this.prefetchLimit == prefetchLimit
    {
      query := new LruCache(queryMaxEntries, queryTtl);
      prefetch := new LruCache(prefetchMaxEntries, prefetchTtl);
      this.prefetchLimit := prefetchLimit;
    }

    /** `get_cached_response(key)`: the stored answer of a live entry. */
    method GetCachedResponse(key: QueryKey, now: int) returns (r: Option<Json.Json>)
      requires Valid()
      modifies query
      ensures Valid()
      ensures var (s, hit) := Lookup(old(query.State()), key, now, query.ttl);
        query.State() == s && r == (if hit.Some? then Some(hit.value.value) else None)
      ensures prefetch.State() == old(prefetch.State())
    {
      var hit := query.Get(key, now);
      r := if hit.Some? then Some(hit.value.value) else None;
    }

    /** `set_cached_response(key, response)`. */
    method SetCachedResponse(key: QueryKey, response: Json.Json, now: int)
      requires Valid()
      modifies query
      ensures Valid()
      ensures query.State() == Store(old(query.State()), key, response, now, query.maxEntries)
      ensures prefetch.State() == old(prefetch.State())
    {
      query.Set(key, response, now);
    }

    /** `get_prefetch_cache_entry(key)`: a live entry with its store time. */
    method GetPrefetchCacheEntry(key: PrefetchKey, now: int) returns (r: Option<Entry<PrefetchEntry>>)
      requires Valid()
      modifies prefetch
      ensures Valid()
      ensures (prefetch.State(), r) == Lookup(old(prefetch.State()), key, now, prefetch.ttl)
      ensures query.State() == old(query.State())
    {
      r := prefetch.Get(key, now);
    }

    /** `set_prefetch_cache_entry(key, matches, total_matches, complete)`. */
    method SetPrefetchCacheEntry(key: PrefetchKey, matches: seq<Json.Json>, totalMatches: int, complete: bool, now: int)
      requires Valid()
      modifies prefetch
      ensures Valid()
      ensures prefetch.State()
           == Store(old(prefetch.State()), key, PrefetchEntryOf(matches, totalMatches, complete, prefetchLimit), now, prefetch.maxEntries)
      ensures query.State() == old(query.State())
    {
      prefetch.Set(key, PrefetchEntryOf(matches, totalMatches, complete, prefetchLimit), now);
    }
  }
}
