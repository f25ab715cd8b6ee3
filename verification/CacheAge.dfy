/** How long the cache may go on serving a value: a copy promoted to memory late in its Redis life starts a second one. */
module CacheAge {
  import opened Common
  import opened MemoryTier
  import opened CacheProtocol

  // When each key was last set.
  type Dates = map<Key, int>

  function Note(dates: Dates, step: Step): Dates {
    if step.SetStep? then dates[step.key := step.now] else dates
  }

  function NoteAll(dates: Dates, steps: seq<Step>): Dates
    decreases |steps|
  {
    if steps == [] then dates else NoteAll(Note(dates, steps[0]), steps[1..])
  }

  function Lifetime(config: Option<Config>): int {
    if config.Some? then config.value.ttl else DEFAULT_CONFIG.ttl
  }

  // No step gives a value longer to live than this many seconds.
  predicate LivesAtMost(step: Step, seconds: nat) {
    match step
    case SetStep(_, _, config, _) => config.ttl <= seconds
    case GetStep(_, config, _) => Lifetime(config) <= seconds
    case _ => true
  }

  ghost predicate MemoryDated(m: Memory, dates: Dates, seconds: nat) {
    forall p :: p in m ==> p.0 in dates && p.1.timestamp + p.1.ttlMs <= dates[p.0] + 2000 * seconds
  }

  ghost predicate RedisDated(redis: map<Key, RedisEntry>, dates: Dates, seconds: nat) {
    forall k :: k in redis ==> k in dates && redis[k].expiresAt <= dates[k] + 1000 * seconds
  }

  ghost predicate Dated(s: System, dates: Dates, seconds: nat) {
    MemoryDated(s.cache.memory, dates, seconds) && RedisDated(s.cache.redis, dates, seconds)
  }

  lemma WrittenDated(m: Memory, dates: Dates, k: Key, v: Value, config: Config, now: int, maxItems: nat, seconds: nat)
    requires DistinctKeys(m) && forall p :: p in m && p.0 != k ==>
               p.0 in dates && p.1.timestamp + p.1.ttlMs <= dates[p.0] + 2000 * seconds
    requires k in dates && now + config.ttl * 1000 <= dates[k] + 2000 * seconds
    ensures MemoryDated(WriteMemory(m, k, v, config, now, maxItems), dates, seconds)
  {
    var e := Entry(v, now, config.ttl * 1000, config.tags, 0, now);
    PutEntries(m, k, e);
    PutStaysDistinct(m, k, e);
    EvictionDropsLeastRecentlyAccessed(Put(m, k, e), maxItems);
  }

  // Reading memory keeps every date, and what it serves has not outlived its own.
  lemma ReadMemoryDated(m: Memory, dates: Dates, k: Key, now: int, seconds: nat)
    requires DistinctKeys(m) && MemoryDated(m, dates, seconds)
    ensures
      var (t, v) := ReadMemory(m, k, now);
      && DistinctKeys(t) && MemoryDated(t, dates, seconds)
      && (Truthy(v) ==> k in dates && now <= dates[k] + 2000 * seconds)
  {
    match Lookup(m, k)
    case None =>
    case Some(e) =>
      if Expired(e, now) {
        WithoutEntries(m, {k});
        WithoutStaysDistinct(m, {k});
      } else {
        TouchedDated(m, dates, k, e, now, seconds);
      }
  }

  lemma TouchedDated(m: Memory, dates: Dates, k: Key, e: Entry, now: int, seconds: nat)
    requires DistinctKeys(m) && MemoryDated(m, dates, seconds) && (k, e) in m && !Expired(e, now)
    ensures
      var t := Put(m, k, e.(accessCount := e.accessCount + 1, lastAccessed := now));
      && DistinctKeys(t) && MemoryDated(t, dates, seconds)
      && k in dates && now <= dates[k] + 2000 * seconds
  {
    assert (k, e).0 in dates && (k, e).1.timestamp + (k, e).1.ttlMs <= dates[k] + 2000 * seconds;
    PutEntries(m, k, e.(accessCount := e.accessCount + 1, lastAccessed := now));
    PutStaysDistinct(m, k, e.(accessCount := e.accessCount + 1, lastAccessed := now));
  }

  lemma GetDated(s: System, dates: Dates, k: Key, config: Option<Config>, now: int, maxItems: nat, seconds: nat)
    requires Inv(s, maxItems) && Dated(s, dates, seconds) && Lifetime(config) <= seconds
    ensures Dated(Apply(s, GetStep(k, config, now), maxItems), dates, seconds)
    ensures Get(s.cache, k, config, now, maxItems).1.Some? ==> k in dates && now <= dates[k] + 2000 * seconds
  {
    ReadMemoryDated(s.cache.memory, dates, k, now, seconds);
    var (m, v) := ReadMemory(s.cache.memory, k, now);
    var w := ReadRedis(s.cache, k, now);
    if !Truthy(v) && Truthy(w) {
      WrittenDated(m, dates, k, w, if config.Some? then config.value else DEFAULT_CONFIG, now, maxItems, seconds);
    }
  }

  lemma StepDated(s: System, dates: Dates, step: Step, maxItems: nat, seconds: nat)
    requires Inv(s, maxItems) && Possible(s, step) && Dated(s, dates, seconds) && LivesAtMost(step, seconds)
    ensures Dated(Apply(s, step, maxItems), Note(dates, step), seconds)
  {
    match step
    case GetStep(k, config, now) => GetDated(s, dates, k, config, now, maxItems, seconds);
    case SetStep(k, v, config, now) =>
      WrittenDated(s.cache.memory, Note(dates, step), k, v, config, now, maxItems, seconds);
    case DeleteStep(k) => WithoutEntries(s.cache.memory, {k});
    case DeleteByTagsStep(tags) => WithoutEntries(s.cache.memory, TaggedKeys(s.cache, tags));
    case FlushStep =>
    case RedisDrops(keys) =>
  }

  lemma {:induction false} RunDated(s: System, dates: Dates, steps: seq<Step>, maxItems: nat, seconds: nat)
    requires Inv(s, maxItems) && Runnable(s, steps, maxItems) && Dated(s, dates, seconds)
    requires forall step :: step in steps ==> LivesAtMost(step, seconds)
    ensures Dated(Run(s, steps, maxItems), NoteAll(dates, steps), seconds)
    decreases |steps|
  {
    if steps != [] {
      StepKeepsInv(s, steps[0], maxItems);
      StepDated(s, dates, steps[0], maxItems, seconds);
      RunDated(Apply(s, steps[0], maxItems), Note(dates, steps[0]), steps[1..], maxItems, seconds);
    }
  }

  /** After any run in which nothing is given longer than that many seconds to live, a read returns a value only if it was
      last set at most twice as long ago. */
  lemma ServedAtMostTwiceItsLifetime(steps: seq<Step>, k: Key, config: Option<Config>, now: int, maxItems: nat, seconds: nat)
    requires Runnable(START, steps, maxItems) && Run(START, steps, maxItems).clock <= now
    requires forall step :: step in steps ==> LivesAtMost(step, seconds)
    requires Lifetime(config) <= seconds
    ensures
      var s, dates := Run(START, steps, maxItems), NoteAll(map[], steps);
      var r := Get(s.cache, k, config, now, maxItems).1;
      r.Some? ==> k in s.latest && r.value == s.latest[k].0 && k in dates && now <= dates[k] + 2000 * seconds
  {
    RunDated(START, map[], steps, maxItems, seconds);
    RunKeepsInv(START, steps, maxItems);
    GetDated(Run(START, steps, maxItems), NoteAll(map[], steps), k, config, now, maxItems, seconds);
    GetReturnsLatestOrNothing(steps, k, config, now, maxItems);
  }
}
