/** The flag service over its table, and the counting cache wrapper it reads through. */
module FeatureFlagServices {
  import opened Common
  import opened HashBucket
  import opened FeatureFlags

  class RedisCacheService {
    var entries: FlagCache
    var hits: nat
    var misses: nat

    constructor ()
      ensures entries == map[] && hits == misses == 0
    {
      entries, hits, misses := map[], 0, 0;
    }

    method Get(k: Text) returns (r: Option<Flag>)
      modifies this`hits, this`misses
      ensures r == if k in entries then entries[k] else None
      ensures hits == old(hits) + (if r.Some? then 1 else 0) && misses == old(misses) + (if r.Some? then 0 else 1)
    {
      if k in entries && entries[k].Some? {
        hits := hits + 1;
        return entries[k];
      }
      misses := misses + 1;
      return None;
    }

    method Del(k: Text)
      modifies this`entries
      ensures entries == old(entries) - {k}
    {
      entries := entries - {k};
    }

    // The computed value is what the caller's factory returns when the key is absent.
    method GetOrSet(k: Text, computed: Option<Flag>) returns (r: Option<Flag>)
      modifies this
      ensures r == if k in old(entries) && old(entries)[k].Some? then old(entries)[k] else computed
      ensures entries == old(entries)[k := r]
      ensures hits + misses == old(hits + misses) + 1
    {
      r := Get(k);
      if r == None {
        r := computed;
        entries := entries[k := r];
      } else {
        assert entries[k := r] == entries;
      }
    }
  }

  datatype Error = NotFound

  class FeatureFlagsService {
    const cache: RedisCacheService
    var rows: Table

    ghost function State(): System
      reads this, cache
    {
      System(rows, cache.entries)
    }

    constructor (cache: RedisCacheService)
      ensures this.cache == cache && rows == map[]
    {
      this.cache, rows := cache, map[];
    }

    method CreateFlag(f: Flag)
      modifies this
      ensures State() == Apply(old(State()), Create(f))
    {
      rows := rows[f.key := f];
    }

    method UpdateFlag(k: Text, c: Changes) returns (r: Result<Flag, Error>)
      modifies this, cache
      ensures State() == Apply(old(State()), Update(k, c))
      ensures r == if k in old(rows) then Ok(Merge(old(rows)[k], c)) else Err(NotFound)
    {
      if k !in rows { return Err(NotFound); }
      var flag := Merge(rows[k], c);
      rows := rows[flag.key := flag];
      cache.Del(k);
      return Ok(flag);
    }

    method RemoveFlag(k: Text) returns (error: Option<Error>)
      modifies this, cache
      ensures State() == Apply(old(State()), Remove(k))
      ensures error == None <==> k in old(rows)
    {
      if k !in rows { return Some(NotFound); }
      rows := rows - {k};
      cache.Del(k);
      return None;
    }

    method SetUserOverride(k: Text, user: Text, value: bool) returns (error: Option<Error>)
      requires Keyed(rows)
      modifies this, cache
      ensures State() == Apply(old(State()), SetOverride(k, user, value))
      ensures error == None <==> k in old(rows)
    {
      if k !in rows { return Some(NotFound); }
      var flag := rows[k];
      flag := flag.(userOverrides := flag.userOverrides[user := value]);
      rows := rows[flag.key := flag];
      cache.Del(k);
      return None;
    }

    method RemoveUserOverride(k: Text, user: Text) returns (error: Option<Error>)
      requires Keyed(rows)
      modifies this, cache
      ensures State() == Apply(old(State()), RemoveOverride(k, user))
      ensures error == None <==> k in old(rows)
    {
      if k !in rows { return Some(NotFound); }
      var flag := rows[k];
      flag := flag.(userOverrides := flag.userOverrides - {user});
      rows := rows[flag.key := flag];
      cache.Del(k);
      return None;
    }

    method IsEnabled(k: Text, user: Option<Text>, env: Text) returns (on: bool)
      modifies cache
      ensures State() == Apply(old(State()), Evaluate(k))
      ensures on == Decide(CachedOrRow(old(State()), k), k, user, env)
      ensures old(Coherent(State())) ==> on == Decide(Row(rows, k), k, user, env)
    {
      var flag := cache.GetOrSet(k, Row(rows, k));
      if flag == None { return false; }
      var f := flag.value;
      if user.Some? && user.value != [] && user.value in f.userOverrides {
        return f.userOverrides[user.value];
      }
      if f.rollout.Some? && user.Some? && user.value != [] {
        var bucket := ComputeBucket(user.value, k);
        return bucket as real < f.rollout.value;
      }
      if env in f.environmentDefaults {
        return f.environmentDefaults[env];
      }
      return f.enabled;
    }
  }
}
