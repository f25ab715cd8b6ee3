/**
 * Refresh-token rotation: one expiring cache key per token, one expiring list per user, and reuse detection,
 * over whole runs with a nondecreasing clock and freshly generated tokens.
 */
module TokenProtocol {
  import opened Common
  type User = string
  type Token = string

  const TTL := 604800000

  datatype TokenList = TokenList(tokens: seq<Token>, expiresAt: int)

  datatype Registry = Registry(keys: map<(User, Token), int>, lists: map<User, TokenList>)

  datatype Step =
    | Login(user: User, minted: Token, now: int)
    | Refresh(user: User, presented: Token, minted: Token, now: int)
    | Revoke(user: User, now: int)

  // The registry, the time of the last call, every token ever issued, and the refreshes accepted so far.
  datatype System = System(registry: Registry, clock: int, issued: set<(User, Token)>, accepted: seq<(User, Token)>)

  // ---------------------------------------------------------------- registry operations

  predicate Exists(r: Registry, u: User, t: Token, now: int) {
    (u, t) in r.keys && now < r.keys[(u, t)]
  }

  function LiveList(r: Registry, u: User, now: int): seq<Token> {
    if u in r.lists && now < r.lists[u].expiresAt then r.lists[u].tokens else []
  }

  function Without(ts: seq<Token>, t: Token): (r: seq<Token>)
    ensures forall x :: x in r <==> x in ts && x != t
  {
    if ts == [] then []
    else if ts[0] == t then Without(ts[1..], t)
    else [ts[0]] + Without(ts[1..], t)
  }

  function StoreToken(r: Registry, u: User, t: Token, now: int): Registry {
    var list := LiveList(r, u, now);
    Registry(r.keys[(u, t) := now + TTL],
             if t in list then r.lists else r.lists[u := TokenList(list + [t], now + TTL)])
  }

  function Invalidate(r: Registry, u: User, t: Token, now: int): Registry {
    var rest := Without(LiveList(r, u, now), t);
    Registry(r.keys - {(u, t)}, if rest != [] then r.lists[u := TokenList(rest, now + TTL)] else r.lists - {u})
  }

  function InvalidateAll(r: Registry, u: User, now: int): Registry {
    var list := LiveList(r, u, now);
    Registry(r.keys - (set t | t in list :: (u, t)), r.lists - {u})
  }

  function RefreshTokens(r: Registry, u: User, presented: Token, minted: Token, now: int): Registry {
    if Exists(r, u, presented, now) then StoreToken(Invalidate(r, u, presented, now), u, minted, now)
    else InvalidateAll(r, u, now)
  }

  // ---------------------------------------------------------------- runs

  function Apply(s: System, step: Step): System {
    match step
    case Login(u, minted, now) =>
      System(StoreToken(s.registry, u, minted, now), now, s.issued + {(u, minted)}, s.accepted)
    case Refresh(u, presented, minted, now) =>
      var r := RefreshTokens(s.registry, u, presented, minted, now);
      if Exists(s.registry, u, presented, now)
      then System(r, now, s.issued + {(u, minted)}, s.accepted + [(u, presented)])
      else System(r, now, s.issued, s.accepted)
    case Revoke(u, now) => System(InvalidateAll(s.registry, u, now), now, s.issued, s.accepted)
  }

  // The clock does not run backwards, and a generated token was not issued to the same user before.
  predicate Possible(s: System, step: Step) {
    && s.clock <= step.now
    && (step.Login? || step.Refresh? ==> (step.user, step.minted) !in s.issued)
  }

  predicate Runnable(s: System, steps: seq<Step>)
    decreases |steps|
  {
    steps == [] || (Possible(s, steps[0]) && Runnable(Apply(s, steps[0]), steps[1..]))
  }

  function Run(s: System, steps: seq<Step>): System
    decreases |steps|
  {
    if steps == [] then s else Run(Apply(s, steps[0]), steps[1..])
  }

  const START := System(Registry(map[], map[]), 0, {}, [])

  // ---------------------------------------------------------------- the invariant

  // Every live token is in its user's list, which lives at least as long as the token.
  ghost predicate Listed(r: Registry, now: int) {
    forall u, t :: Exists(r, u, t, now) ==>
      u in r.lists && t in r.lists[u].tokens && r.keys[(u, t)] <= r.lists[u].expiresAt
  }

  ghost predicate ShortLived(r: Registry, now: int) {
    forall k :: k in r.keys ==> r.keys[k] <= now + TTL
  }

  ghost predicate Inv(s: System) {
    && Listed(s.registry, s.clock) && ShortLived(s.registry, s.clock)
    && (forall k :: k in s.registry.keys ==> k in s.issued)
    && (forall u, t :: u in s.registry.lists && t in s.registry.lists[u].tokens ==> (u, t) in s.issued)
    && (forall k :: k in s.accepted ==> k in s.issued && k !in s.registry.keys)
    && NoRepeats(s.accepted)
  }

  lemma LiveListHolds(r: Registry, u: User, t: Token, clock: int, now: int)
    requires Listed(r, clock) && clock <= now && Exists(r, u, t, now)
    ensures t in LiveList(r, u, now) && u in r.lists && LiveList(r, u, now) == r.lists[u].tokens
  {
    assert Exists(r, u, t, clock);
  }

  lemma StoreKeepsListed(r: Registry, u: User, t: Token, clock: int, now: int)
    requires Listed(r, clock) && ShortLived(r, clock) && clock <= now && (u, t) !in r.keys
    requires t !in LiveList(r, u, now)
    ensures Listed(StoreToken(r, u, t, now), now) && ShortLived(StoreToken(r, u, t, now), now)
  {
    var q := StoreToken(r, u, t, now);
    forall v, x | Exists(q, v, x, now)
      ensures v in q.lists && x in q.lists[v].tokens && q.keys[(v, x)] <= q.lists[v].expiresAt
    {
      if (v, x) != (u, t) {
        assert Exists(r, v, x, clock);
        LiveListHolds(r, v, x, clock, now);
      }
    }
  }

  lemma InvalidateKeepsListed(r: Registry, u: User, t: Token, clock: int, now: int)
    requires Listed(r, clock) && ShortLived(r, clock) && clock <= now
    ensures Listed(Invalidate(r, u, t, now), now) && ShortLived(Invalidate(r, u, t, now), now)
    ensures t !in LiveList(Invalidate(r, u, t, now), u, now)
  {
    var q := Invalidate(r, u, t, now);
    forall v, x | Exists(q, v, x, now)
      ensures v in q.lists && x in q.lists[v].tokens && q.keys[(v, x)] <= q.lists[v].expiresAt
    {
      assert Exists(r, v, x, clock);
      LiveListHolds(r, v, x, clock, now);
    }
  }

  lemma InvalidateAllClears(r: Registry, u: User, clock: int, now: int)
    requires Listed(r, clock) && ShortLived(r, clock) && clock <= now
    ensures Listed(InvalidateAll(r, u, now), now) && ShortLived(InvalidateAll(r, u, now), now)
    ensures forall t :: !Exists(InvalidateAll(r, u, now), u, t, now)
  {
    var q := InvalidateAll(r, u, now);
    forall v, x | Exists(q, v, x, now)
      ensures v != u && v in q.lists && x in q.lists[v].tokens && q.keys[(v, x)] <= q.lists[v].expiresAt
    {
      assert Exists(r, v, x, clock);
      LiveListHolds(r, v, x, clock, now);
    }
  }

  // ---------------------------------------------------------------- one step

  lemma AppendKeepsNoRepeats<T>(s: seq<T>, x: T)
    requires NoRepeats(s) && x !in s
    ensures NoRepeats(s + [x])
  {}

  lemma StepKeepsInv(s: System, step: Step)
    requires Inv(s) && Possible(s, step)
    ensures Inv(Apply(s, step))
  {
    var r := s.registry;
    match step
    case Login(u, minted, now) =>
      StoreKeepsListed(r, u, minted, s.clock, now);
    case Revoke(u, now) =>
      InvalidateAllClears(r, u, s.clock, now);
    case Refresh(u, presented, minted, now) =>
      if Exists(r, u, presented, now) {
        InvalidateKeepsListed(r, u, presented, s.clock, now);
        var q := Invalidate(r, u, presented, now);
        assert forall v, x :: v in q.lists && x in q.lists[v].tokens ==> (v, x) in s.issued;
        StoreKeepsListed(q, u, minted, now, now);
        AppendKeepsNoRepeats(s.accepted, (u, presented));
      } else {
        InvalidateAllClears(r, u, s.clock, now);
      }
  }

  /** A live token survives a call at a time before its expiry unless the call presents it, revokes its user's
      tokens, or presents a token of the user that is not live. */
  lemma LiveAfterStepExactlyWhen(s: System, step: Step, u: User, t: Token)
    requires Inv(s) && Possible(s, step) && Exists(s.registry, u, t, step.now)
    ensures Exists(Apply(s, step).registry, u, t, step.now)
      <==> match step
           case Login(_, _, _) => true
           case Refresh(v, presented, _, now) => v != u || (presented != t && Exists(s.registry, u, presented, now))
           case Revoke(v, _) => v != u
  {
    assert Exists(s.registry, u, t, s.clock);
    LiveListHolds(s.registry, u, t, s.clock, step.now);
  }

  // ---------------------------------------------------------------- every run

  lemma {:induction false} RunKeepsInv(s: System, steps: seq<Step>)
    requires Inv(s) && Runnable(s, steps)
    ensures Inv(Run(s, steps))
    decreases |steps|
  {
    if steps != [] {
      StepKeepsInv(s, steps[0]);
      RunKeepsInv(Apply(s, steps[0]), steps[1..]);
    }
  }

  /** Over every run each token is accepted at most once, and every live token is in a list that outlives it. */
  lemma AcceptedAtMostOnce(steps: seq<Step>, u: User, t: Token)
    requires Runnable(START, steps)
    ensures NoRepeats(Run(START, steps).accepted)
    ensures
      var s := Run(START, steps);
      Exists(s.registry, u, t, s.clock) ==>
        && t in LiveList(s.registry, u, s.clock)
        && s.registry.keys[(u, t)] <= s.registry.lists[u].expiresAt
  {
    RunKeepsInv(START, steps);
    var s := Run(START, steps);
    if Exists(s.registry, u, t, s.clock) {
      LiveListHolds(s.registry, u, t, s.clock, s.clock);
    }
  }

  // Tokens in the set are issued and none of them is live.
  ghost predicate AllDead(s: System, dead: set<(User, Token)>) {
    dead <= s.issued && forall u, t :: (u, t) in dead ==> !Exists(s.registry, u, t, s.clock)
  }

  lemma DeadStep(s: System, step: Step, dead: set<(User, Token)>)
    requires Inv(s) && Possible(s, step) && AllDead(s, dead)
    ensures AllDead(Apply(s, step), dead)
    ensures Apply(s, step).accepted == s.accepted
         || exists k :: k !in dead && Apply(s, step).accepted == s.accepted + [k]
  {
    if Apply(s, step).accepted != s.accepted {
      assert (step.user, step.presented) !in dead by {
        assert Exists(s.registry, step.user, step.presented, s.clock);
      }
    }
  }

  lemma {:induction false} DeadForever(s: System, steps: seq<Step>, dead: set<(User, Token)>)
    requires Inv(s) && Runnable(s, steps) && AllDead(s, dead)
    ensures |s.accepted| <= |Run(s, steps).accepted|
    ensures forall i :: |s.accepted| <= i < |Run(s, steps).accepted| ==> Run(s, steps).accepted[i] !in dead
    ensures s.accepted <= Run(s, steps).accepted
    decreases |steps|
  {
    if steps != [] {
      StepKeepsInv(s, steps[0]);
      DeadStep(s, steps[0], dead);
      DeadForever(Apply(s, steps[0]), steps[1..], dead);
    }
  }

  /** After a refused refresh, no token issued to that user before is ever accepted again, whatever follows. */
  lemma ReuseRevokesEverything(s: System, reuse: Step, later: seq<Step>)
    requires Inv(s) && reuse.Refresh? && Possible(s, reuse)
    requires !Exists(s.registry, reuse.user, reuse.presented, reuse.now)
    requires Runnable(Apply(s, reuse), later)
    ensures
      var after := Run(Apply(s, reuse), later).accepted;
      && s.accepted <= after
      && forall i :: |s.accepted| <= i < |after| && after[i].0 == reuse.user ==> after[i] !in s.issued
  {
    var t := Apply(s, reuse);
    StepKeepsInv(s, reuse);
    InvalidateAllClears(s.registry, reuse.user, s.clock, reuse.now);
    var dead := set k | k in s.issued && k.0 == reuse.user;
    assert AllDead(t, dead);
    DeadForever(t, later, dead);
  }
}
