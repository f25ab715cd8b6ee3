/** The flag cache over its table: when an evaluation answers as if it read the table row directly. */
module FeatureFlags {
  import opened Common
  import opened HashBucket

  datatype Flag = Flag(key: Text, enabled: bool, environmentDefaults: map<Text, bool>,
                       userOverrides: map<Text, bool>, rollout: Option<real>)

  // The fields an update may carry; an absent one is left alone.
  datatype Changes = Changes(key: Option<Text>, enabled: Option<bool>, environmentDefaults: Option<map<Text, bool>>,
                             rollout: Option<Option<real>>)

  type Table = map<Text, Flag>

  // A lookup that found no row is cached as well, as None.
  type FlagCache = map<Text, Option<Flag>>

  datatype System = System(table: Table, cache: FlagCache)

  datatype Step =
    | Create(flag: Flag)
    | Update(target: Text, changes: Changes)
    | Remove(target: Text)
    | SetOverride(target: Text, user: Text, value: bool)
    | RemoveOverride(target: Text, user: Text)
    | Evaluate(target: Text)
    | Expire(keys: set<Text>)

  function Merge(f: Flag, c: Changes): Flag {
    Flag(if c.key.Some? then c.key.value else f.key,
         if c.enabled.Some? then c.enabled.value else f.enabled,
         if c.environmentDefaults.Some? then c.environmentDefaults.value else f.environmentDefaults,
         f.userOverrides,
         if c.rollout.Some? then c.rollout.value else f.rollout)
  }

  // ---------------------------------------------------------------- calls

  // Saving a row inserts it or overwrites the row with its key.
  function Saved(t: Table, f: Flag): Table {
    t[f.key := f]
  }

  function Row(t: Table, k: Text): Option<Flag> {
    if k in t then Some(t[k]) else None
  }

  // Save a changed row and forget the cached one of the key the call named.
  function SaveAndForget(s: System, k: Text, f: Flag): System {
    System(Saved(s.table, f), s.cache - {k})
  }

  // A cached None counts as a miss.
  function CachedOrRow(s: System, k: Text): Option<Flag> {
    if k in s.cache && s.cache[k].Some? then s.cache[k] else Row(s.table, k)
  }

  function Apply(s: System, step: Step): System {
    match step
    case Create(f) => s.(table := Saved(s.table, f))
    case Update(k, c) => if k in s.table then SaveAndForget(s, k, Merge(s.table[k], c)) else s
    case Remove(k) => if k in s.table then System(s.table - {k}, s.cache - {k}) else s
    case SetOverride(k, u, v) =>
      if k in s.table then SaveAndForget(s, k, s.table[k].(userOverrides := s.table[k].userOverrides[u := v])) else s
    case RemoveOverride(k, u) =>
      if k in s.table then SaveAndForget(s, k, s.table[k].(userOverrides := s.table[k].userOverrides - {u})) else s
    case Evaluate(k) => s.(cache := s.cache[k := CachedOrRow(s, k)])
    case Expire(keys) => s.(cache := s.cache - keys)
  }

  // Override first, then rollout, then the environment's default, then the global switch.
  function Decide(f: Option<Flag>, k: Text, user: Option<Text>, env: Text): bool {
    match f
    case None => false
    case Some(flag) =>
      if user.Some? && user.value != [] && user.value in flag.userOverrides then flag.userOverrides[user.value]
      else if flag.rollout.Some? && user.Some? && user.value != [] then
        Bucket(user.value, k) as real < flag.rollout.value
      else if env in flag.environmentDefaults then flag.environmentDefaults[env]
      else flag.enabled
  }

  // ---------------------------------------------------------------- coherence

  // Rows are stored under their own keys, and a cached row is the table's row.
  ghost predicate Keyed(t: Table) {
    forall k :: k in t ==> t[k].key == k
  }

  ghost predicate Coherent(s: System) {
    forall k :: k in s.cache && s.cache[k].Some? ==> k in s.table && s.table[k] == s.cache[k].value
  }

  // Creations use fresh keys and updates do not rename.
  predicate Disciplined(s: System, step: Step) {
    match step
    case Create(f) => f.key !in s.table
    case Update(k, c) => c.key == None || c.key.value == k
    case _ => true
  }

  predicate Runnable(s: System, steps: seq<Step>)
    decreases |steps|
  {
    steps == [] || (Disciplined(s, steps[0]) && Runnable(Apply(s, steps[0]), steps[1..]))
  }

  function Run(s: System, steps: seq<Step>): System
    decreases |steps|
  {
    if steps == [] then s else Run(Apply(s, steps[0]), steps[1..])
  }

  lemma StepKeepsCoherent(s: System, step: Step)
    requires Keyed(s.table) && Coherent(s) && Disciplined(s, step)
    ensures Keyed(Apply(s, step).table) && Coherent(Apply(s, step))
  {}

  lemma {:induction false} RunKeepsCoherent(s: System, steps: seq<Step>)
    requires Keyed(s.table) && Coherent(s) && Runnable(s, steps)
    ensures Keyed(Run(s, steps).table) && Coherent(Run(s, steps))
    decreases |steps|
  {
    if steps != [] {
      StepKeepsCoherent(s, steps[0]);
      RunKeepsCoherent(Apply(s, steps[0]), steps[1..]);
    }
  }

  /** Over any run of creations on fresh keys, updates, removals, override changes and cache expiries, an evaluation
      answers as if it read the table row directly. */
  lemma EvaluationReadsTheTable(steps: seq<Step>, k: Text, user: Option<Text>, env: Text)
    requires Runnable(System(map[], map[]), steps)
    ensures
      var s := Run(System(map[], map[]), steps);
      Decide(CachedOrRow(s, k), k, user, env) == Decide(Row(s.table, k), k, user, env)
  {
    RunKeepsCoherent(System(map[], map[]), steps);
  }

  /** Creating a flag invalidates nothing, and stays coherent exactly when the cache does not hold a different row for
      its key; on a fresh key it always does. */
  lemma CreateStaysCoherentExactlyWhen(s: System, f: Flag)
    requires Keyed(s.table) && Coherent(s)
    ensures Coherent(Apply(s, Create(f))) <==> f.key !in s.cache || s.cache[f.key] == None || s.cache[f.key] == Some(f)
    ensures f.key !in s.table ==> Coherent(Apply(s, Create(f)))
  {
    var t := Apply(s, Create(f));
    if Coherent(t) && f.key in s.cache && s.cache[f.key].Some? {
      assert t.table[f.key] == f;
    }
  }

  /** An update may carry a new key: the row is then saved under that key, but only the old key is forgotten. The cache
      stays coherent exactly when the new key is the old one or the cache holds no different row for it. */
  lemma UpdateStaysCoherentExactlyWhen(s: System, k: Text, c: Changes)
    requires Keyed(s.table) && Coherent(s) && k in s.table
    ensures
      var f := Merge(s.table[k], c);
      Coherent(Apply(s, Update(k, c))) <==>
        f.key == k || f.key !in s.cache || s.cache[f.key] == None || s.cache[f.key] == Some(f)
  {
    var f, t := Merge(s.table[k], c), Apply(s, Update(k, c));
    assert t.table == s.table[f.key := f] && t.cache == s.cache - {k};
    if Coherent(t) && f.key != k && f.key in s.cache && s.cache[f.key].Some? {
      assert f.key in t.cache && t.table[f.key] == f;
    }
  }

  // ---------------------------------------------------------------- rollout

  /** The documented order of precedence: what an earlier source settles, no later source can change. */
  lemma EarlierSourceDecides(f: Flag, g: Flag, k: Text, user: Text, env: Text)
    requires user != []
    ensures user in f.userOverrides && user in g.userOverrides && f.userOverrides[user] == g.userOverrides[user] ==>
              Decide(Some(f), k, Some(user), env) == Decide(Some(g), k, Some(user), env) == f.userOverrides[user]
    ensures user !in f.userOverrides && user !in g.userOverrides && f.rollout == g.rollout != None ==>
              Decide(Some(f), k, Some(user), env) == Decide(Some(g), k, Some(user), env)
    ensures user !in f.userOverrides && user !in g.userOverrides && f.rollout == g.rollout == None
            && f.environmentDefaults == g.environmentDefaults && env in f.environmentDefaults ==>
              Decide(Some(f), k, Some(user), env) == Decide(Some(g), k, Some(user), env)
    ensures env in f.environmentDefaults && env in g.environmentDefaults && f.environmentDefaults[env] == g.environmentDefaults[env] ==>
              Decide(Some(f), k, None, env) == Decide(Some(g), k, None, env) == f.environmentDefaults[env]
  {}

  /** For users without an override, raising the rollout percentage turns nobody off; 0 enables none and 100 all. */
  lemma RolloutIsMonotone(f: Flag, k: Text, user: Text, env: Text, low: real, high: real)
    requires user != [] && user !in f.userOverrides && low <= high
    ensures Decide(Some(f.(rollout := Some(low))), k, Some(user), env) ==>
              Decide(Some(f.(rollout := Some(high))), k, Some(user), env)
    ensures !Decide(Some(f.(rollout := Some(0.0))), k, Some(user), env)
    ensures Decide(Some(f.(rollout := Some(100.0))), k, Some(user), env)
  {}

  // ----- what an evaluation answers -----

  /** A flag not in the table is off for everyone. */
  lemma MissingFlagIsOff(k: Text, user: Option<Text>, env: Text)
    ensures !Decide(None, k, user, env)
  {}

  /** Without override, rollout and default for the environment, the switch decides; nobody named means no override and no
      rollout. */
  lemma SwitchDecides(f: Flag, k: Text, user: Option<Text>, env: Text)
    requires env !in f.environmentDefaults
    requires user == None || user == Some([]) || (user.value !in f.userOverrides && f.rollout == None)
    ensures Decide(Some(f), k, user, env) == f.enabled
  {}

  /** Exactly the users whose bucket lies below the percentage are in the rollout. */
  lemma RolloutByBucket(f: Flag, k: Text, user: Text, env: Text, percentage: real)
    requires user != [] && user !in f.userOverrides && f.rollout == Some(percentage)
    ensures Decide(Some(f), k, Some(user), env) <==> Bucket(user, k) as real < percentage
  {}

  /** After an override is set for a user the next evaluation answers it, whatever the cache held; after it is removed, it
      answers as the flag does without it. */
  lemma OverrideAnswersNext(s: System, k: Text, user: Text, value: bool, env: Text)
    requires Keyed(s.table) && k in s.table && user != []
    ensures
      var set', removed := Apply(s, SetOverride(k, user, value)), Apply(s, RemoveOverride(k, user));
      && Decide(CachedOrRow(set', k), k, Some(user), env) == value
      && CachedOrRow(removed, k) == Some(s.table[k].(userOverrides := s.table[k].userOverrides - {user}))
      && forall other :: other != user ==>
           Decide(CachedOrRow(set', k), k, Some(other), env) == Decide(Some(s.table[k]), k, Some(other), env)
  {}

  /** After an update that keeps the key the next evaluation reads the row with exactly the given fields replaced. */
  lemma UpdateAnswersNext(s: System, k: Text, c: Changes)
    requires Keyed(s.table) && k in s.table && (c.key == None || c.key == Some(k))
    ensures
      var t := Apply(s, Update(k, c));
      var old', new' := s.table[k], CachedOrRow(t, k);
      && new'.Some? && new'.value.key == k && new'.value.userOverrides == old'.userOverrides
      && (c.enabled.Some? ==> new'.value.enabled == c.enabled.value)
      && (c.enabled == None ==> new'.value.enabled == old'.enabled)
      && (c.environmentDefaults.Some? ==> new'.value.environmentDefaults == c.environmentDefaults.value)
      && (c.environmentDefaults == None ==> new'.value.environmentDefaults == old'.environmentDefaults)
      && (c.rollout.Some? ==> new'.value.rollout == c.rollout.value)
      && (c.rollout == None ==> new'.value.rollout == old'.rollout)
      && forall other :: other != k ==> Row(t.table, other) == Row(s.table, other)
  {}

  /** After a removal the next evaluation finds nothing; after a creation on a fresh key, the new flag. */
  lemma CreationAndRemovalAnswerNext(s: System, k: Text, f: Flag)
    requires Keyed(s.table) && Coherent(s)
    ensures k in s.table ==> CachedOrRow(Apply(s, Remove(k)), k) == None
    ensures f.key !in s.table ==> CachedOrRow(Apply(s, Create(f)), f.key) == Some(f)
  {}
}
