/** The two-tier cache against the simple map it speeds up: what every read returns over every run. */
module CacheProtocol {
  import opened Common
  import opened MemoryTier

  datatype RedisEntry = RedisEntry(data: Value, expiresAt: int)

  datatype Cache = Cache(memory: Memory, redis: map<Key, RedisEntry>, tagSets: map<Tag, set<Key>>)

  datatype Config = Config(ttl: int, tags: seq<Tag>)

  const DEFAULT_CONFIG := Config(3600, [])

  // ---------------------------------------------------------------- calls

  predicate Expired(e: Entry, now: int) {
    now - e.timestamp > e.ttlMs
  }

  function ReadMemory(m: Memory, k: Key, now: int): (Memory, Value) {
    match Lookup(m, k)
    case None => (m, Null)
    case Some(e) =>
      if Expired(e, now) then (Without(m, {k}), Null)
      else (Put(m, k, e.(accessCount := e.accessCount + 1, lastAccessed := now)), e.data)
  }

  function ReadRedis(c: Cache, k: Key, now: int): Value {
    if k in c.redis && now < c.redis[k].expiresAt then c.redis[k].data else Null
  }

  function WriteMemory(m: Memory, k: Key, v: Value, config: Config, now: int, maxItems: nat): Memory {
    Evict(Put(m, k, Entry(v, now, config.ttl * 1000, config.tags, 0, now)), maxItems)
  }

  function Get(c: Cache, k: Key, config: Option<Config>, now: int, maxItems: nat): (Cache, Option<Value>) {
    var (m, v) := ReadMemory(c.memory, k, now);
    var read := c.(memory := m);
    if Truthy(v) then (read, Some(v))
    else
      var w := ReadRedis(c, k, now);
      if !Truthy(w) then (read, None)
      else
        var promoted := if config.Some? then config.value else DEFAULT_CONFIG;
        (read.(memory := WriteMemory(m, k, w, promoted, now, maxItems)), Some(w))
  }

  function TagSet(tagSets: map<Tag, set<Key>>, t: Tag): set<Key> {
    if t in tagSets then tagSets[t] else {}
  }

  function AddTags(tagSets: map<Tag, set<Key>>, tags: seq<Tag>, k: Key): map<Tag, set<Key>> {
    if tags == [] then tagSets
    else
      var before, t := AddTags(tagSets, tags[..|tags| - 1], k), tags[|tags| - 1];
      before[t := TagSet(before, t) + {k}]
  }

  // Redis refuses a time to live that is not positive; the memory tier takes it.
  function Set(c: Cache, k: Key, v: Value, config: Config, now: int, maxItems: nat): Cache {
    var m := WriteMemory(c.memory, k, v, config, now, maxItems);
    if config.ttl <= 0 then c.(memory := m)
    else Cache(m, c.redis[k := RedisEntry(v, now + config.ttl * 1000)], AddTags(c.tagSets, config.tags, k))
  }

  function DeleteKeys(c: Cache, keys: set<Key>): Cache {
    c.(memory := Without(c.memory, keys), redis := c.redis - keys)
  }

  function TaggedKeys(c: Cache, tags: seq<Tag>): set<Key> {
    set t, k | t in tags && k in TagSet(c.tagSets, t) :: k
  }

  // ---------------------------------------------------------------- the map behind the cache

  // The value and tags of the latest set of each key since it was last deleted or flushed.
  type Latest = map<Key, (Value, seq<Tag>)>

  datatype System = System(cache: Cache, latest: Latest, clock: int)

  datatype Step =
    | GetStep(key: Key, config: Option<Config>, now: int)
    | SetStep(key: Key, value: Value, with: Config, now: int)
    | DeleteStep(key: Key)
    | DeleteByTagsStep(tags: seq<Tag>)
    | FlushStep
    | RedisDrops(keys: set<Key>)

  function Apply(s: System, step: Step, maxItems: nat): System {
    match step
    case GetStep(k, config, now) => System(Get(s.cache, k, config, now, maxItems).0, s.latest, now)
    case SetStep(k, v, config, now) =>
      System(Set(s.cache, k, v, config, now, maxItems), s.latest[k := (v, config.tags)], now)
    case DeleteStep(k) => s.(cache := DeleteKeys(s.cache, {k}), latest := s.latest - {k})
    case DeleteByTagsStep(tags) =>
      var keys := TaggedKeys(s.cache, tags);
      s.(cache := DeleteKeys(s.cache, keys), latest := s.latest - keys)
    case FlushStep => System(Cache([], map[], map[]), map[], s.clock)
    case RedisDrops(keys) => s.(cache := s.cache.(redis := s.cache.redis - keys))
  }

  predicate Possible(s: System, step: Step) {
    match step
    case GetStep(_, _, now) => s.clock <= now
    case SetStep(_, _, config, now) => s.clock <= now && 0 < config.ttl
    case _ => true
  }

  predicate Runnable(s: System, steps: seq<Step>, maxItems: nat)
    decreases |steps|
  {
    steps == [] || (Possible(s, steps[0]) && Runnable(Apply(s, steps[0], maxItems), steps[1..], maxItems))
  }

  function Run(s: System, steps: seq<Step>, maxItems: nat): System
    decreases |steps|
  {
    if steps == [] then s else Run(Apply(s, steps[0], maxItems), steps[1..], maxItems)
  }

  const START := System(Cache([], map[], map[]), map[], 0)

  // ---------------------------------------------------------------- the invariant

  // Whatever a tier holds for a key is the value of its latest set.
  ghost predicate MemoryCoherent(m: Memory, latest: Latest) {
    forall p :: p in m ==> p.0 in latest && p.1.data == latest[p.0].0
  }

  ghost predicate RedisCoherent(redis: map<Key, RedisEntry>, latest: Latest) {
    forall k :: k in redis ==> k in latest && redis[k].data == latest[k].0
  }

  ghost predicate TagsRecorded(tagSets: map<Tag, set<Key>>, latest: Latest) {
    forall k, t :: k in latest && t in latest[k].1 ==> k in TagSet(tagSets, t)
  }

  ghost predicate MemoryBounded(m: Memory, clock: int, maxItems: nat) {
    DistinctKeys(m) && |m| <= maxItems && forall p :: p in m ==> p.1.lastAccessed <= clock
  }

  ghost predicate Inv(s: System, maxItems: nat) {
    && MemoryCoherent(s.cache.memory, s.latest) && RedisCoherent(s.cache.redis, s.latest)
    && TagsRecorded(s.cache.tagSets, s.latest) && MemoryBounded(s.cache.memory, s.clock, maxItems)
  }

  lemma {:induction false} AddTagsAdds(tagSets: map<Tag, set<Key>>, tags: seq<Tag>, k: Key)
    ensures forall t :: TagSet(AddTags(tagSets, tags, k), t) == TagSet(tagSets, t) + (if t in tags then {k} else {})
  {
    if tags != [] {
      AddTagsAdds(tagSets, tags[..|tags| - 1], k);
      assert tags == tags[..|tags| - 1] + [tags[|tags| - 1]];
    }
  }

  lemma TouchKeeps(m: Memory, latest: Latest, k: Key, e: Entry, clock: int, now: int, maxItems: nat)
    requires MemoryCoherent(m, latest) && MemoryBounded(m, clock, maxItems) && clock <= now
    requires Has(m, k) && (k, e) in m
    ensures
      var t := Put(m, k, e.(accessCount := e.accessCount + 1, lastAccessed := now));
      MemoryCoherent(t, latest) && MemoryBounded(t, now, maxItems)
  {
    assert (k, e).0 in latest && (k, e).1.data == latest[k].0;
    PutEntries(m, k, e.(accessCount := e.accessCount + 1, lastAccessed := now));
    PutLength(m, k, e.(accessCount := e.accessCount + 1, lastAccessed := now));
    PutStaysDistinct(m, k, e.(accessCount := e.accessCount + 1, lastAccessed := now));
  }

  lemma ForgetKeeps(m: Memory, latest: Latest, k: Key, clock: int, now: int, maxItems: nat)
    requires MemoryCoherent(m, latest) && MemoryBounded(m, clock, maxItems) && clock <= now
    ensures MemoryCoherent(Without(m, {k}), latest) && MemoryBounded(Without(m, {k}), now, maxItems)
  {
    WithoutEntries(m, {k});
    WithoutStaysDistinct(m, {k});
  }

  lemma ReadMemoryKeeps(m: Memory, latest: Latest, k: Key, clock: int, now: int, maxItems: nat)
    requires MemoryCoherent(m, latest) && MemoryBounded(m, clock, maxItems) && clock <= now
    ensures
      var (t, v) := ReadMemory(m, k, now);
      && MemoryCoherent(t, latest) && MemoryBounded(t, now, maxItems)
      && (Truthy(v) ==> k in latest && v == latest[k].0)
  {
    match Lookup(m, k)
    case None =>
    case Some(e) =>
      assert (k, e).0 in latest && (k, e).1.data == latest[k].0;
      if Expired(e, now) {
        ForgetKeeps(m, latest, k, clock, now, maxItems);
      } else {
        TouchKeeps(m, latest, k, e, clock, now, maxItems);
      }
  }

  lemma WriteMemoryKeeps(m: Memory, latest: Latest, k: Key, v: Value, config: Config, clock: int, now: int, maxItems: nat)
    requires MemoryBounded(m, clock, maxItems) && clock <= now
    requires forall p :: p in m && p.0 != k ==> p.0 in latest && p.1.data == latest[p.0].0
    requires k in latest && latest[k].0 == v
    ensures MemoryCoherent(WriteMemory(m, k, v, config, now, maxItems), latest)
    ensures MemoryBounded(WriteMemory(m, k, v, config, now, maxItems), now, maxItems)
  {
    var e := Entry(v, now, config.ttl * 1000, config.tags, 0, now);
    PutEntries(m, k, e);
    PutLength(m, k, e);
    PutStaysDistinct(m, k, e);
    EvictionDropsLeastRecentlyAccessed(Put(m, k, e), maxItems);
  }

  lemma GetKeepsInv(s: System, k: Key, config: Option<Config>, now: int, maxItems: nat)
    requires Inv(s, maxItems) && s.clock <= now
    ensures Inv(Apply(s, GetStep(k, config, now), maxItems), maxItems)
    ensures
      var r := Get(s.cache, k, config, now, maxItems).1;
      r.Some? ==> k in s.latest && r.value == s.latest[k].0 && Truthy(r.value)
  {
    ReadMemoryKeeps(s.cache.memory, s.latest, k, s.clock, now, maxItems);
    var (m, v) := ReadMemory(s.cache.memory, k, now);
    var w := ReadRedis(s.cache, k, now);
    if !Truthy(v) && Truthy(w) {
      WriteMemoryKeeps(m, s.latest, k, w, if config.Some? then config.value else DEFAULT_CONFIG, now, now, maxItems);
    }
  }

  lemma SetKeepsInv(s: System, k: Key, v: Value, config: Config, now: int, maxItems: nat)
    requires Inv(s, maxItems) && s.clock <= now && 0 < config.ttl
    ensures Inv(Apply(s, SetStep(k, v, config, now), maxItems), maxItems)
  {
    var latest := s.latest[k := (v, config.tags)];
    WriteMemoryKeeps(s.cache.memory, latest, k, v, config, s.clock, now, maxItems);
    AddTagsAdds(s.cache.tagSets, config.tags, k);
  }

  lemma DeleteKeepsInv(s: System, keys: set<Key>, maxItems: nat)
    requires Inv(s, maxItems)
    ensures Inv(s.(cache := DeleteKeys(s.cache, keys), latest := s.latest - keys), maxItems)
    ensures forall k :: k in keys ==> !Has(DeleteKeys(s.cache, keys).memory, k) && k !in DeleteKeys(s.cache, keys).redis
  {
    WithoutEntries(s.cache.memory, keys);
    WithoutStaysDistinct(s.cache.memory, keys);
    var m := Without(s.cache.memory, keys);
    forall i | 0 <= i < |m|
      ensures m[i].0 !in keys
    {
      assert m[i] in m;
    }
  }

  lemma StepKeepsInv(s: System, step: Step, maxItems: nat)
    requires Inv(s, maxItems) && Possible(s, step)
    ensures Inv(Apply(s, step, maxItems), maxItems)
  {
    match step
    case GetStep(k, config, now) => GetKeepsInv(s, k, config, now, maxItems);
    case SetStep(k, v, config, now) => SetKeepsInv(s, k, v, config, now, maxItems);
    case DeleteStep(k) => DeleteKeepsInv(s, {k}, maxItems);
    case DeleteByTagsStep(tags) => DeleteKeepsInv(s, TaggedKeys(s.cache, tags), maxItems);
    case FlushStep =>
    case RedisDrops(keys) =>
  }

  lemma {:induction false} RunKeepsInv(s: System, steps: seq<Step>, maxItems: nat)
    requires Inv(s, maxItems) && Runnable(s, steps, maxItems)
    ensures Inv(Run(s, steps, maxItems), maxItems)
    decreases |steps|
  {
    if steps != [] {
      StepKeepsInv(s, steps[0], maxItems);
      RunKeepsInv(Apply(s, steps[0], maxItems), steps[1..], maxItems);
    }
  }

  /** After any run, whatever Redis drops, a read returns nothing or the value of the latest set since the key was
      last deleted or flushed, and the memory tier holds at most maxItems entries. */
  lemma GetReturnsLatestOrNothing(steps: seq<Step>, k: Key, config: Option<Config>, now: int, maxItems: nat)
    requires Runnable(START, steps, maxItems) && Run(START, steps, maxItems).clock <= now
    ensures
      var s := Run(START, steps, maxItems);
      var r := Get(s.cache, k, config, now, maxItems).1;
      && (r.Some? ==> k in s.latest && r.value == s.latest[k].0 && Truthy(r.value))
      && |s.cache.memory| <= maxItems
  {
    RunKeepsInv(START, steps, maxItems);
    GetKeepsInv(Run(START, steps, maxItems), k, config, now, maxItems);
  }

  /** Deleting by tags leaves in neither tier any key last set with one of those tags. */
  lemma DeleteByTagsClearsTagged(steps: seq<Step>, tags: seq<Tag>, k: Key, t: Tag, maxItems: nat)
    requires Runnable(START, steps, maxItems)
    requires k in Run(START, steps, maxItems).latest && t in tags && t in Run(START, steps, maxItems).latest[k].1
    ensures
      var after := Apply(Run(START, steps, maxItems), DeleteByTagsStep(tags), maxItems);
      !Has(after.cache.memory, k) && k !in after.cache.redis && k !in after.latest
  {
    var s := Run(START, steps, maxItems);
    RunKeepsInv(START, steps, maxItems);
    assert k in TagSet(s.cache.tagSets, t);
    assert k in TaggedKeys(s.cache, tags);
    DeleteKeepsInv(s, TaggedKeys(s.cache, tags), maxItems);
  }

  /** A set never evicts the key it writes when at least one entry is allowed. */
  lemma SetKeyIsInMemory(steps: seq<Step>, k: Key, v: Value, config: Config, now: int, maxItems: nat)
    requires Runnable(START, steps, maxItems) && Run(START, steps, maxItems).clock <= now && 1 <= maxItems
    ensures
      var s := Run(START, steps, maxItems);
      (k, Entry(v, now, config.ttl * 1000, config.tags, 0, now)) in Set(s.cache, k, v, config, now, maxItems).memory
  {
    RunKeepsInv(START, steps, maxItems);
    var s := Run(START, steps, maxItems);
    JustWrittenSurvives(s.cache.memory, k, Entry(v, now, config.ttl * 1000, config.tags, 0, now), maxItems);
  }

  // ---------------------------------------------------------------- where the tiers disagree

  /** A set with a time to live Redis refuses keeps Redis in step with the latest set exactly when Redis holds nothing
      for the key or already holds that value. */
  lemma RefusedSetStaysCoherentExactlyWhen(s: System, k: Key, v: Value, config: Config, now: int, maxItems: nat)
    requires Inv(s, maxItems) && config.ttl <= 0
    ensures RedisCoherent(Set(s.cache, k, v, config, now, maxItems).redis, s.latest[k := (v, config.tags)])
       <==> k !in s.cache.redis || s.cache.redis[k].data == v
  {}

  /** A read served by Redis copies the value to memory with a time to live of its own. The copy is still served at
      the moment Redis would stop serving it exactly when that time to live reaches that far. */
  lemma PromotedCopyOutlivesExactlyWhen(c: Cache, k: Key, config: Option<Config>, now: int, maxItems: nat)
    requires DistinctKeys(c.memory) && |c.memory| <= maxItems && 1 <= maxItems
    requires forall p :: p in c.memory ==> p.1.lastAccessed <= now
    requires !Has(c.memory, k) && k in c.redis && now < c.redis[k].expiresAt && Truthy(c.redis[k].data)
    ensures
      var ttl := if config.Some? then config.value.ttl else DEFAULT_CONFIG.ttl;
      var tags := if config.Some? then config.value.tags else DEFAULT_CONFIG.tags;
      var e := Entry(c.redis[k].data, now, ttl * 1000, tags, 0, now);
      && (k, e) in Get(c, k, config, now, maxItems).0.memory
      && (!Expired(e, c.redis[k].expiresAt) <==> c.redis[k].expiresAt <= now + ttl * 1000)
  {
    var ttl := if config.Some? then config.value.ttl else DEFAULT_CONFIG.ttl;
    var tags := if config.Some? then config.value.tags else DEFAULT_CONFIG.tags;
    JustWrittenSurvives(c.memory, k, Entry(c.redis[k].data, now, ttl * 1000, tags, 0, now), maxItems);
  }
}
