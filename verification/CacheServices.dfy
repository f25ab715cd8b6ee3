/** The cache service: a Redis client beside an in-memory map, both updated in place. */
module CacheServices {
  import opened Common
  import opened MemoryTier
  import opened CacheProtocol

  class RedisClient {
    var entries: map<Key, RedisEntry>
    var tagSets: map<Tag, set<Key>>

    constructor ()
      ensures entries == map[] && tagSets == map[]
    {
      entries, tagSets := map[], map[];
    }

    method SetEx(k: Key, ttl: int, v: Value, now: int) returns (ok: bool)
      modifies this`entries
      ensures ok <==> 0 < ttl
      ensures entries == if ok then old(entries)[k := RedisEntry(v, now + ttl * 1000)] else old(entries)
    {
      ok := ttl > 0;
      if ok {
        entries := entries[k := RedisEntry(v, now + ttl * 1000)];
      }
    }

    method SAdd(t: Tag, k: Key)
      modifies this`tagSets
      ensures tagSets == old(tagSets)[t := TagSet(old(tagSets), t) + {k}]
    {
      tagSets := tagSets[t := TagSet(tagSets, t) + {k}];
    }

    method Del(k: Key)
      modifies this`entries
      ensures entries == old(entries) - {k}
    {
      entries := entries - {k};
    }
  }

  class CacheService {
    const redis: RedisClient
    const maxItems: nat
    var inMemory: Memory
    var hits: nat
    var misses: nat
    var totalRequests: nat

    ghost function State(): Cache
      reads this, redis
    {
      Cache(inMemory, redis.entries, redis.tagSets)
    }

    // Every request was recorded as a hit or a miss.
    ghost predicate MetricsAddUp()
      reads this
    {
      hits + misses == totalRequests
    }

    constructor (redis: RedisClient, maxItems: nat)
      ensures this.redis == redis && this.maxItems == maxItems && inMemory == [] && MetricsAddUp()
    {
      this.redis, this.maxItems, inMemory := redis, maxItems, [];
      hits, misses, totalRequests := 0, 0, 0;
    }

    method GetFromMemory(k: Key, now: int) returns (v: Value)
      modifies this`inMemory
      ensures (inMemory, v) == ReadMemory(old(inMemory), k, now)
    {
      var entry := Lookup(inMemory, k);
      if entry == None { return Null; }
      if Expired(entry.value, now) {
        inMemory := Without(inMemory, {k});
        return Null;
      }
      var e := entry.value;
      inMemory := Put(inMemory, k, e.(accessCount := e.accessCount + 1, lastAccessed := now));
      return e.data;
    }

    method CleanupMemoryCache()
      modifies this`inMemory
      ensures inMemory == Evict(old(inMemory), maxItems)
    {
      if |inMemory| <= maxItems { return; }
      ghost var m := inMemory;
      var itemsToRemove := |inMemory| - maxItems;
      var entries := Victims(inMemory, maxItems);
      DropNone(m, entries);
      for i := 0 to itemsToRemove
        invariant inMemory == Without(m, KeysOf(entries[..i]))
      {
        DropNext(m, entries, i);
        inMemory := Without(inMemory, {entries[i].0});
      }
      assert entries[..itemsToRemove] == entries;
    }

    method SetInMemory(k: Key, v: Value, config: Config, now: int)
      modifies this`inMemory
      ensures inMemory == WriteMemory(old(inMemory), k, v, config, now, maxItems)
    {
      var entry := Entry(v, now, config.ttl * 1000, config.tags, 0, now);
      inMemory := Put(inMemory, k, entry);
      CleanupMemoryCache();
    }

    method Get(k: Key, config: Option<Config>, now: int) returns (r: Option<Value>)
      modifies this
      ensures (State(), r) == CacheProtocol.Get(old(State()), k, config, now, maxItems)
      ensures totalRequests == old(totalRequests) + 1 && hits == old(hits) + (if r.Some? then 1 else 0)
      ensures old(MetricsAddUp()) ==> MetricsAddUp()
    {
      totalRequests := totalRequests + 1;
      var v := GetFromMemory(k, now);
      if Truthy(v) {
        hits := hits + 1;
        return Some(v);
      }
      v := if k in redis.entries && now < redis.entries[k].expiresAt then redis.entries[k].data else Null;
      if Truthy(v) {
        SetInMemory(k, v, if config.Some? then config.value else DEFAULT_CONFIG, now);
        hits := hits + 1;
        return Some(v);
      }
      misses := misses + 1;
      return None;
    }

    method Set(k: Key, v: Value, config: Config, now: int)
      modifies this`inMemory, redis
      ensures State() == CacheProtocol.Set(old(State()), k, v, config, now, maxItems)
    {
      var ok := redis.SetEx(k, config.ttl, v, now);
      if ok {
        for i := 0 to |config.tags|
          invariant redis.entries == old(redis.entries)[k := RedisEntry(v, now + config.ttl * 1000)]
          invariant inMemory == old(inMemory)
          invariant redis.tagSets == AddTags(old(redis.tagSets), config.tags[..i], k)
        {
          assert config.tags[..i + 1][..i] == config.tags[..i];
          redis.SAdd(config.tags[i], k);
        }
        assert config.tags[..|config.tags|] == config.tags;
      }
      SetInMemory(k, v, config, now);
    }

    method Delete(k: Key)
      modifies this`inMemory, redis
      ensures State() == DeleteKeys(old(State()), {k})
    {
      redis.Del(k);
      inMemory := Without(inMemory, {k});
    }

    method GetKeysByTags(tags: seq<Tag>) returns (keys: set<Key>)
      ensures keys == TaggedKeys(State(), tags)
    {
      keys := {};
      for i := 0 to |tags|
        invariant keys == TaggedKeys(State(), tags[..i])
      {
        assert tags[..i + 1] == tags[..i] + [tags[i]];
        keys := keys + TagSet(redis.tagSets, tags[i]);
      }
      assert tags[..|tags|] == tags;
    }

    method DeleteByTags(tags: seq<Tag>)
      modifies this`inMemory, redis
      ensures State() == DeleteKeys(old(State()), TaggedKeys(old(State()), tags))
    {
      var keys := GetKeysByTags(tags);
      ghost var m, all, gone := inMemory, keys, {};
      WithoutNothing(inMemory);
      while keys != {}
        invariant gone + keys == all && redis.tagSets == old(redis.tagSets)
        invariant redis.entries == old(redis.entries) - gone
        invariant inMemory == Without(m, gone)
        decreases keys
      {
        var k :| k in keys;
        WithoutTwice(m, gone, {k});
        Delete(k);
        gone := gone + {k};
        keys := keys - {k};
      }
    }

    method Flush()
      modifies this`inMemory, redis
      ensures State() == Cache([], map[], map[])
    {
      redis.entries, redis.tagSets := map[], map[];
      inMemory := [];
    }
  }

  lemma {:induction false} WithoutNothing(m: Memory)
    ensures Without(m, {}) == m
  {
    if m != [] {
      WithoutNothing(m[..|m| - 1]);
    }
  }

  lemma DropNone(m: Memory, entries: Memory)
    ensures Without(m, KeysOf(entries[..0])) == m
  {
    WithoutNothing(m);
    assert KeysOf(entries[..0]) == {};
  }

  lemma DropNext(m: Memory, entries: Memory, i: nat)
    requires i < |entries|
    ensures Without(Without(m, KeysOf(entries[..i])), {entries[i].0}) == Without(m, KeysOf(entries[..i + 1]))
  {
    WithoutTwice(m, KeysOf(entries[..i]), {entries[i].0});
    assert entries[..i + 1] == entries[..i] + [entries[i]];
    KeysOfAppend(entries[..i], entries[i]);
  }

  lemma KeysOfAppend(m: Memory, p: (Key, Entry))
    ensures KeysOf(m + [p]) == KeysOf(m) + {p.0}
  {
    forall k
      ensures Has(m + [p], k) <==> Has(m, k) || k == p.0
    {
      if i :| 0 <= i < |m| && m[i].0 == k {
        assert (m + [p])[i].0 == k;
      }
      assert (m + [p])[|m|].0 == p.0;
    }
  }
}
