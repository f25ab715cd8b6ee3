/** The life of one refresh token: live from the call that mints it, for a week, until something ends it sooner. */
module TokenLife {
  import opened Common
  import opened TokenProtocol

  // The call neither presents the token, nor revokes its user's tokens, nor presents a token of the user that is not live.
  predicate Spares(s: System, step: Step, u: User, t: Token) {
    match step
    case Login(_, _, _) => true
    case Refresh(v, presented, _, now) =>
      v != u || (presented != t && (u, presented) in s.registry.keys && now < s.registry.keys[(u, presented)])
    case Revoke(v, _) => v != u
  }

  predicate Undisturbed(s: System, steps: seq<Step>, u: User, t: Token)
    decreases |steps|
  {
    steps == [] || (Spares(s, steps[0], u, t) && Undisturbed(Apply(s, steps[0]), steps[1..], u, t))
  }

  // A token not live stays so, since it is never minted again; a spared one keeps its expiry.
  lemma StepEndsOrKeeps(s: System, step: Step, u: User, t: Token, at: int)
    requires Inv(s) && Possible(s, step) && (u, t) in s.issued && step.now <= at
    ensures Exists(Apply(s, step).registry, u, t, at) <==> Exists(s.registry, u, t, at) && Spares(s, step, u, t)
  {
    if Exists(s.registry, u, t, step.now) {
      LiveAfterStepExactlyWhen(s, step, u, t);
    }
  }

  lemma {:induction false} RunEndsOrKeeps(s: System, steps: seq<Step>, u: User, t: Token, at: int)
    requires Inv(s) && Runnable(s, steps) && (u, t) in s.issued && Run(s, steps).clock <= at
    ensures Exists(Run(s, steps).registry, u, t, at) <==> Exists(s.registry, u, t, at) && Undisturbed(s, steps, u, t)
    decreases |steps|
  {
    if steps != [] {
      StepKeepsInv(s, steps[0]);
      ClockOnlyAdvances(Apply(s, steps[0]), steps[1..]);
      StepEndsOrKeeps(s, steps[0], u, t, at);
      RunEndsOrKeeps(Apply(s, steps[0]), steps[1..], u, t, at);
    }
  }

  lemma {:induction false} ClockOnlyAdvances(s: System, steps: seq<Step>)
    requires Runnable(s, steps)
    ensures s.clock <= Run(s, steps).clock
    decreases |steps|
  {
    if steps != [] {
      ClockOnlyAdvances(Apply(s, steps[0]), steps[1..]);
    }
  }

  // A login, or a refresh presenting a live token, mints its token.
  predicate Mints(s: System, step: Step) {
    || step.Login?
    || (step.Refresh? && (step.user, step.presented) in s.registry.keys && step.now < s.registry.keys[(step.user, step.presented)])
  }

  /** A minted token is live for 604800000 milliseconds and no longer. */
  lemma MintedLivesAWeek(s: System, step: Step, at: int)
    requires Inv(s) && Possible(s, step) && Mints(s, step)
    ensures (step.user, step.minted) in Apply(s, step).issued
    ensures Exists(Apply(s, step).registry, step.user, step.minted, at) <==> at < step.now + 604800000
  {}

  /** Over any later run a minted token is accepted exactly when it is presented within the week and was neither used before
      nor caught in a revocation or a reuse of its user. */
  lemma AcceptedExactlyWhenAlive(s: System, step: Step, later: seq<Step>, next: Token, at: int)
    requires Inv(s) && Possible(s, step) && Mints(s, step) && Runnable(Apply(s, step), later)
    requires
      var t := Run(Apply(s, step), later);
      Possible(t, Refresh(step.user, step.minted, next, at))
    ensures
      var t := Run(Apply(s, step), later);
      var accepted := Apply(t, Refresh(step.user, step.minted, next, at)).accepted == t.accepted + [(step.user, step.minted)];
      accepted <==> at < step.now + 604800000 && Undisturbed(Apply(s, step), later, step.user, step.minted)
  {
    StepKeepsInv(s, step);
    MintedLivesAWeek(s, step, at);
    RunEndsOrKeeps(Apply(s, step), later, step.user, step.minted, at);
  }

  /** A refresh with a live token exchanges it; with any other it leaves the user no live token and accepts nothing. */
  lemma RefreshExchangesOrRevokes(s: System, u: User, presented: Token, minted: Token, now: int)
    requires Inv(s) && Possible(s, Refresh(u, presented, minted, now))
    ensures
      var t := Apply(s, Refresh(u, presented, minted, now));
      if (u, presented) in s.registry.keys && now < s.registry.keys[(u, presented)] then
        && t.accepted == s.accepted + [(u, presented)]
        && !Exists(t.registry, u, presented, now) && Exists(t.registry, u, minted, now)
      else
        t.accepted == s.accepted && forall x :: !Exists(t.registry, u, x, now)
  {
    if Exists(s.registry, u, presented, now) {
      assert Exists(s.registry, u, presented, s.clock);
      MintedLivesAWeek(s, Refresh(u, presented, minted, now), now);
    } else {
      InvalidateAllClears(s.registry, u, s.clock, now);
    }
  }
}
