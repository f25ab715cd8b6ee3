/** What a read answers and when a value stays readable: the live entry is served, and only writes, deletions and drops of
    its key end it sooner. */
module CacheOutcomes {
  import opened Common
  import opened MemoryTier
  import opened CacheProtocol

  // Memory holds a value of the key that has not outlived its lifetime.
  predicate LiveInMemory(m: Memory, k: Key, e: Entry, now: int) {
    (k, e) in m && Truthy(e.data) && now <= e.timestamp + e.ttlMs
  }

  predicate LiveInRedis(redis: map<Key, RedisEntry>, k: Key, now: int) {
    k in redis && Truthy(redis[k].data) && now < redis[k].expiresAt
  }

  /** A value read is absent exactly when it is null, false, zero or the empty text. */
  lemma FalsyExactlyWhen(v: Value)
    ensures !Truthy(v) <==> v in {Null, Bool(false), Num(0), Str("")}
  {}

  lemma {:induction false} LookupFinds(m: Memory, k: Key, e: Entry)
    requires DistinctKeys(m) && (k, e) in m
    ensures Lookup(m, k) == Some(e)
  {
    if m[0] != (k, e) {
      assert (k, e) in m[1..];
      assert forall i, j :: 0 <= i < j < |m[1..]| ==> m[1..][i].0 == m[i + 1].0 && m[1..][j].0 == m[j + 1].0;
      LookupFinds(m[1..], k, e);
    }
  }

  /** A read answers the live entry in memory, or else the live one in Redis; it answers nothing exactly when neither tier
      has one. */
  lemma ReadAnswers(c: Cache, k: Key, config: Option<Config>, now: int, maxItems: nat)
    requires DistinctKeys(c.memory)
    ensures forall e :: LiveInMemory(c.memory, k, e, now) ==> Get(c, k, config, now, maxItems).1 == Some(e.data)
    ensures (forall e :: !LiveInMemory(c.memory, k, e, now)) && LiveInRedis(c.redis, k, now) ==>
              Get(c, k, config, now, maxItems).1 == Some(c.redis[k].data)
    ensures Get(c, k, config, now, maxItems).1 == None
       <==> (forall e :: !LiveInMemory(c.memory, k, e, now)) && !LiveInRedis(c.redis, k, now)
  {
    forall e | (k, e) in c.memory
      ensures Lookup(c.memory, k) == Some(e)
    {
      LookupFinds(c.memory, k, e);
    }
    if Truthy(ReadMemory(c.memory, k, now).1) {
      assert LiveInMemory(c.memory, k, Lookup(c.memory, k).value, now);
    }
  }

  /** A read served by memory counts the access and dates it now, and leaves Redis alone; no other entry changes. */
  lemma ReadTouches(c: Cache, k: Key, e: Entry, config: Option<Config>, now: int, maxItems: nat)
    requires DistinctKeys(c.memory) && LiveInMemory(c.memory, k, e, now)
    ensures
      var t := Get(c, k, config, now, maxItems).0;
      && t.redis == c.redis && t.tagSets == c.tagSets
      && (k, Entry(e.data, e.timestamp, e.ttlMs, e.tags, e.accessCount + 1, now)) in t.memory
      && forall p :: p in c.memory && p.0 != k ==> p in t.memory
  {
    LookupFinds(c.memory, k, e);
    PutEntries(c.memory, k, e.(accessCount := e.accessCount + 1, lastAccessed := now));
  }

  /** A read served by Redis copies the value to memory for the lifetime asked for, or an hour without tags. */
  lemma PromotionCopies(c: Cache, k: Key, config: Option<Config>, now: int, maxItems: nat)
    requires DistinctKeys(c.memory) && |c.memory| <= maxItems && 1 <= maxItems
    requires forall p :: p in c.memory ==> p.1.lastAccessed <= now
    requires !Has(c.memory, k) && LiveInRedis(c.redis, k, now)
    ensures
      var t, data := Get(c, k, config, now, maxItems).0, c.redis[k].data;
      && t.redis == c.redis && t.tagSets == c.tagSets
      && (config == None ==> (k, Entry(data, now, 3600000, [], 0, now)) in t.memory)
      && (config.Some? ==> (k, Entry(data, now, 1000 * config.value.ttl, config.value.tags, 0, now)) in t.memory)
  {
    PromotedCopyOutlivesExactlyWhen(c, k, config, now, maxItems);
  }

  /** A set accepted by Redis writes the value there for its lifetime and files the key under each of its tags. */
  lemma SetReachesRedis(c: Cache, k: Key, v: Value, config: Config, now: int, maxItems: nat)
    requires 0 < config.ttl
    ensures
      var t := Set(c, k, v, config, now, maxItems);
      && t.redis == c.redis[k := RedisEntry(v, now + 1000 * config.ttl)]
      && forall tag :: TagSet(t.tagSets, tag) == TagSet(c.tagSets, tag) + (if tag in config.tags then {k} else {})
  {
    AddTagsAdds(c.tagSets, config.tags, k);
  }

  /** Deleting removes exactly the keys named from both tiers; a tag deletion names exactly the keys filed under the tags. */
  lemma DeletionRemovesExactly(c: Cache, keys: set<Key>, tags: seq<Tag>, k: Key)
    ensures forall p :: p in DeleteKeys(c, keys).memory <==> p in c.memory && p.0 !in keys
    ensures k in DeleteKeys(c, keys).redis <==> k in c.redis && k !in keys
    ensures k in c.redis && k !in keys ==> DeleteKeys(c, keys).redis[k] == c.redis[k]
    ensures k in TaggedKeys(c, tags) <==> exists t :: t in tags && k in TagSet(c.tagSets, t)
  {
    WithoutEntries(c.memory, keys);
  }

  // ---------------------------------------------------------------- over runs

  /** Read back at once: an accepted set of a truthy value is returned up to its lifetime, whatever came before it. */
  lemma SetThenRead(steps: seq<Step>, k: Key, v: Value, config: Config, at: int, reading: Option<Config>, now: int, maxItems: nat)
    requires Runnable(START, steps, maxItems) && Run(START, steps, maxItems).clock <= at <= now
    requires Truthy(v) && 0 < config.ttl && 1 <= maxItems && now <= at + 1000 * config.ttl
    ensures
      var c := Set(Run(START, steps, maxItems).cache, k, v, config, at, maxItems);
      Get(c, k, reading, now, maxItems).1 == Some(v)
  {
    var s := Run(START, steps, maxItems);
    RunKeepsInv(START, steps, maxItems);
    SetKeepsInv(s, k, v, config, at, maxItems);
    SetKeyIsInMemory(steps, k, v, config, at, maxItems);
    var c := Set(s.cache, k, v, config, at, maxItems);
    assert LiveInMemory(c.memory, k, Entry(v, at, config.ttl * 1000, config.tags, 0, at), now);
    ReadAnswers(c, k, reading, now, maxItems);
  }

  // The step neither sets, deletes, flushes nor drops the key.
  predicate Spares(s: System, step: Step, k: Key) {
    match step
    case GetStep(_, _, _) => true
    case SetStep(key, _, _, _) => key != k
    case DeleteStep(key) => key != k
    case DeleteByTagsStep(tags) => k !in TaggedKeys(s.cache, tags)
    case FlushStep => false
    case RedisDrops(keys) => k !in keys
  }

  predicate Undisturbed(s: System, steps: seq<Step>, k: Key, maxItems: nat)
    decreases |steps|
  {
    steps == [] || (Spares(s, steps[0], k) && Undisturbed(Apply(s, steps[0], maxItems), steps[1..], k, maxItems))
  }

  lemma {:induction false} RedisKeeps(s: System, steps: seq<Step>, k: Key, maxItems: nat)
    requires Runnable(s, steps, maxItems) && Undisturbed(s, steps, k, maxItems)
    requires k in s.cache.redis && k in s.latest
    ensures
      var t := Run(s, steps, maxItems);
      k in t.cache.redis && t.cache.redis[k] == s.cache.redis[k] && k in t.latest && t.latest[k] == s.latest[k]
    decreases |steps|
  {
    if steps != [] {
      RedisKeeps(Apply(s, steps[0], maxItems), steps[1..], k, maxItems);
    }
  }

  /** A value stays readable for its lifetime over any run that does not set, delete, flush or drop its key, whatever happens
      to other keys and however often memory evicts it. */
  lemma ServedUntilExpiry(steps: seq<Step>, k: Key, v: Value, config: Config, at: int, between: seq<Step>,
                          reading: Option<Config>, now: int, maxItems: nat)
    requires Truthy(v) && Runnable(START, steps, maxItems) && Possible(Run(START, steps, maxItems), SetStep(k, v, config, at))
    requires
      var s := Apply(Run(START, steps, maxItems), SetStep(k, v, config, at), maxItems);
      && Runnable(s, between, maxItems) && Undisturbed(s, between, k, maxItems)
      && Run(s, between, maxItems).clock <= now < at + 1000 * config.ttl
    ensures
      var s := Apply(Run(START, steps, maxItems), SetStep(k, v, config, at), maxItems);
      Get(Run(s, between, maxItems).cache, k, reading, now, maxItems).1 == Some(v)
  {
    RunKeepsInv(START, steps, maxItems);
    var r := Run(START, steps, maxItems);
    var s := Apply(r, SetStep(k, v, config, at), maxItems);
    SetKeepsInv(r, k, v, config, at, maxItems);
    SetReachesRedis(r.cache, k, v, config, at, maxItems);
    RedisKeeps(s, between, k, maxItems);
    RunKeepsInv(s, between, maxItems);
    var t := Run(s, between, maxItems);
    ReadAnswers(t.cache, k, reading, now, maxItems);
    GetKeepsInv(t, k, reading, now, maxItems);
  }
}
