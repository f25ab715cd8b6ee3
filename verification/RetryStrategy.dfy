/** Bounded retry with capped exponential backoff: how often an operation is tried, and how long the waits can be. */
module RetryStrategy {
  import opened Common

  datatype Config = Config(maxRetries: int, initialDelayMs: real, maxDelayMs: real, multiplier: real, useJitter: bool)

  type Failure = string

  datatype Attempt = Attempt(number: nat, delayMs: real, timestamp: int, error: Option<Failure>)

  datatype RetryResult = RetryResult(success: bool, attempts: seq<Attempt>, error: Option<Failure>)

  // The world a call runs in: what the k-th try does, when it is recorded, and the random sample its wait draws.
  datatype World = World(outcome: nat -> Option<Failure>, clock: nat -> int, sample: nat -> real)

  const DEFAULT := Config(3, 1000.0, 30000.0, 2.0, true)

  function ConfigForNotificationType(channel: string): Config {
    match channel
    case "email" => DEFAULT.(maxRetries := 5, initialDelayMs := 2000.0, maxDelayMs := 60000.0)
    case "push" => DEFAULT.(maxRetries := 3, initialDelayMs := 1000.0, maxDelayMs := 30000.0)
    case "sms" => DEFAULT.(maxRetries := 4, initialDelayMs := 3000.0, maxDelayMs := 45000.0)
    case _ => DEFAULT
  }

  function Pow(m: real, n: nat): real {
    if n == 0 then 1.0 else m * Pow(m, n - 1)
  }

  function Min(a: real, b: real): real {
    if a < b then a else b
  }

  // The delay before a retry without cap or jitter.
  function Exponential(attempt: nat, c: Config): real
    requires 0 < attempt
  {
    c.initialDelayMs * Pow(c.multiplier, attempt - 1)
  }

  lemma ProductNonnegative(a: real, b: real)
    requires 0.0 <= a && 0.0 <= b
    ensures 0.0 <= a * b
  {}

  lemma ShareWithin(sample: real, whole: real)
    ensures 0.0 <= sample < 1.0 && 0.0 <= whole ==> 0.0 <= sample * whole <= whole
  {
    if 0.0 <= sample < 1.0 && 0.0 <= whole {
      ProductNonnegative(sample, whole);
      ProductNonnegative(1.0 - sample, whole);
      assert (1.0 - sample) * whole == whole - sample * whole;
    }
  }

  // A whole number of milliseconds, at most the given delay.
  function Jitter(sample: real, whole: real): (r: real)
    ensures 0.0 <= sample < 1.0 && 0.0 <= whole ==> 0.0 <= r <= whole
  {
    ShareWithin(sample, whole);
    (sample * whole).Floor as real
  }

  function Backoff(attempt: nat, c: Config, sample: real): real
    requires 0 < attempt
  {
    var cappedDelay := Min(Exponential(attempt, c), c.maxDelayMs);
    if c.useJitter then Jitter(sample, cappedDelay) else cappedDelay
  }

  // ---------------------------------------------------------------- what a call does

  // The number of tries allowed: the first one and the retries.
  function Allowed(c: Config): nat {
    if c.maxRetries < 0 then 1 else c.maxRetries + 1
  }

  // The first of the first n tries that succeeds, or n.
  function FirstSuccess(w: World, n: nat): (k: nat)
    ensures k <= n && (k < n ==> w.outcome(k) == None)
    ensures forall j :: 0 <= j < k ==> w.outcome(j).Some?
  {
    if n == 0 then 0
    else
      var k := FirstSuccess(w, n - 1);
      if k < n - 1 then k else if w.outcome(n - 1) == None then n - 1 else n
  }

  function DelayOf(i: nat, c: Config, w: World): real {
    if i == 0 then 0.0 else Backoff(i, c, w.sample(i))
  }

  function Log(n: nat, c: Config, w: World): seq<Attempt> {
    seq(n, i requires 0 <= i < n => Attempt(i, DelayOf(i, c, w), w.clock(i), w.outcome(i)))
  }

  method ExecuteWithRetry(c: Config, w: World) returns (r: RetryResult, tries: nat)
    ensures r.success <==> exists k :: 0 <= k < Allowed(c) && w.outcome(k) == None
    ensures tries == if r.success then FirstSuccess(w, Allowed(c)) + 1 else Allowed(c)
    ensures r.attempts == if tries == 1 && r.success then [] else Log(tries, c, w)
    ensures r.error == if r.success then None else w.outcome(Allowed(c) - 1)
  {
    var attempts: seq<Attempt> := [];
    tries := 1;
    var error := w.outcome(0);
    if error == None {
      FirstSuccessIs(w, Allowed(c), 0);
      return RetryResult(true, [], None), 1;
    }
    attempts := attempts + [Attempt(0, 0.0, w.clock(0), error)];
    var attempt := 1;
    while attempt <= c.maxRetries
      invariant 1 <= attempt <= Allowed(c) && tries == attempt
      invariant forall j :: 0 <= j < attempt ==> w.outcome(j).Some?
      invariant attempts == Log(attempt, c, w)
      invariant error == w.outcome(attempt - 1)
    {
      var delayMs := Backoff(attempt, c, w.sample(attempt));
      error := w.outcome(attempt);
      tries := tries + 1;
      attempts := attempts + [Attempt(attempt, delayMs, w.clock(attempt), error)];
      if error == None {
        FirstSuccessIs(w, Allowed(c), attempt);
        return RetryResult(true, attempts, None), tries;
      }
      attempt := attempt + 1;
    }
    return RetryResult(false, attempts, error), tries;
  }

  lemma FirstSuccessIs(w: World, n: nat, k: nat)
    requires k < n && w.outcome(k) == None && forall j :: 0 <= j < k ==> w.outcome(j).Some?
    ensures FirstSuccess(w, n) == k
  {
    var first := FirstSuccess(w, n);
    assert k < first ==> w.outcome(k).Some?;
  }

  // ---------------------------------------------------------------- how long the waits are

  // Delays and caps are not negative, delays do not shrink, and a sample is drawn from [0, 1).
  predicate Sensible(c: Config) {
    0.0 <= c.initialDelayMs && 0.0 <= c.maxDelayMs && 1.0 <= c.multiplier
  }

  predicate Samples(w: World, n: nat) {
    forall i :: 0 <= i < n ==> 0.0 <= w.sample(i) < 1.0
  }

  function TotalDelay(n: nat, c: Config, w: World): real {
    if n == 0 then 0.0 else TotalDelay(n - 1, c, w) + DelayOf(n - 1, c, w)
  }

  // The waits without cap or jitter before the first n retries.
  function Geometric(n: nat, c: Config): real {
    if n == 0 then 0.0 else Geometric(n - 1, c) + Exponential(n, c)
  }

  lemma {:induction false} PowAtLeastOne(m: real, n: nat)
    requires 1.0 <= m
    ensures 1.0 <= Pow(m, n)
  {
    if n > 0 {
      PowAtLeastOne(m, n - 1);
      assert m * Pow(m, n - 1) >= 1.0 * Pow(m, n - 1);
    }
  }

  /** No wait is negative, longer than the cap, or longer than the exponential delay for its attempt. */
  lemma DelayWithinBounds(i: nat, c: Config, w: World)
    requires Sensible(c) && 0.0 <= w.sample(i) < 1.0
    ensures 0.0 <= DelayOf(i, c, w) <= c.maxDelayMs
    ensures 0 < i ==> DelayOf(i, c, w) <= Exponential(i, c)
  {
    if i > 0 {
      PowAtLeastOne(c.multiplier, i - 1);
      assert 0.0 <= Exponential(i, c);
    }
  }

  // total <= initial * (power - 1) / (m - 1) for a multiplier m above one.
  predicate WithinClosedForm(total: real, power: real, c: Config) {
    total * (c.multiplier - 1.0) <= c.initialDelayMs * (power - 1.0)
  }

  predicate IsClosedForm(total: real, power: real, c: Config) {
    total * (c.multiplier - 1.0) == c.initialDelayMs * (power - 1.0)
  }

  lemma {:induction false} GeometricClosed(n: nat, c: Config)
    ensures IsClosedForm(Geometric(n, c), Pow(c.multiplier, n), c)
  {
    if n > 0 {
      GeometricClosed(n - 1, c);
      var p, d, m := Pow(c.multiplier, n - 1), c.initialDelayMs, c.multiplier;
      assert d * p * (m - 1.0) == d * (m * p) - d * p;
      assert Geometric(n, c) * (m - 1.0) == Geometric(n - 1, c) * (m - 1.0) + d * p * (m - 1.0);
    }
  }

  lemma {:induction false} TotalWithinCaps(n: nat, c: Config, w: World)
    requires Sensible(c) && Samples(w, n + 1)
    ensures 0.0 <= TotalDelay(n + 1, c, w) <= n as real * c.maxDelayMs
  {
    DelayWithinBounds(n, c, w);
    if n > 0 {
      TotalWithinCaps(n - 1, c, w);
      assert n as real * c.maxDelayMs == (n - 1) as real * c.maxDelayMs + c.maxDelayMs;
    } else {
      assert TotalDelay(1, c, w) == TotalDelay(0, c, w) + DelayOf(0, c, w);
    }
  }

  lemma {:induction false} TotalWithinGeometric(n: nat, c: Config, w: World)
    requires Sensible(c) && Samples(w, n + 1)
    ensures TotalDelay(n + 1, c, w) <= Geometric(n, c)
  {
    DelayWithinBounds(n, c, w);
    if n > 0 {
      TotalWithinGeometric(n - 1, c, w);
    } else {
      assert TotalDelay(1, c, w) == TotalDelay(0, c, w) + DelayOf(0, c, w);
    }
  }

  lemma ScaleAtMost(a: real, b: real, k: real)
    requires a <= b && 0.0 <= k
    ensures a * k <= b * k
  {
    assert (b - a) * k >= 0.0;
  }

  lemma BelowClosedForm(total: real, closed: real, power: real, c: Config)
    requires 1.0 <= c.multiplier && total <= closed && IsClosedForm(closed, power, c)
    ensures WithinClosedForm(total, power, c)
  {
    ScaleAtMost(total, closed, c.multiplier - 1.0);
  }

  /** All the waits of a call that exhausts its retries together stay below the cap times the retries and, for a
      multiplier m above one, below the initial delay times (m^retries - 1) / (m - 1), whatever the jitter. */
  lemma TotalDelayBounded(c: Config, w: World)
    requires Sensible(c) && 0 <= c.maxRetries && Samples(w, Allowed(c))
    ensures TotalDelay(Allowed(c), c, w) <= c.maxRetries as real * c.maxDelayMs
    ensures WithinClosedForm(TotalDelay(Allowed(c), c, w), Pow(c.multiplier, c.maxRetries), c)
  {
    var n: nat := c.maxRetries;
    assert Allowed(c) == n + 1;
    TotalWithinCaps(n, c, w);
    TotalWithinGeometric(n, c, w);
    GeometricClosed(n, c);
    BelowClosedForm(TotalDelay(n + 1, c, w), Geometric(n, c), Pow(c.multiplier, n), c);
  }

  // ----- the waits themselves -----

  lemma {:induction false} PowAdds(m: real, a: nat, b: nat)
    ensures Pow(m, a + b) == Pow(m, a) * Pow(m, b)
    ensures Pow(m, 0) == 1.0 && Pow(m, 1) == m
  {
    assert Pow(m, 1) == m * Pow(m, 0);
    if b > 0 {
      PowAdds(m, a, b - 1);
      assert Pow(m, a + b) == m * Pow(m, a + b - 1);
      assert m * (Pow(m, a) * Pow(m, b - 1)) == Pow(m, a) * (m * Pow(m, b - 1));
    }
  }

  // What a retry waits without jitter: the initial delay, times the multiplier for each retry before it, up to the cap.
  function Capped(retry: nat, c: Config): real
    requires 0 < retry
  {
    var uncapped := c.initialDelayMs * Pow(c.multiplier, retry - 1);
    if uncapped <= c.maxDelayMs then uncapped else c.maxDelayMs
  }

  /** The first try waits for nothing. A retry waits its capped delay exactly, or with jitter the whole milliseconds in the
      sample's share of it. */
  lemma DelayExactly(i: nat, c: Config, w: World)
    ensures DelayOf(0, c, w) == 0.0
    ensures 0 < i && !c.useJitter ==> DelayOf(i, c, w) == Capped(i, c)
    ensures 0 < i && c.useJitter ==> DelayOf(i, c, w) == (w.sample(i) * Capped(i, c)).Floor as real
  {
    if 0 < i {
      assert Min(Exponential(i, c), c.maxDelayMs) == Capped(i, c);
      if c.useJitter {
        assert DelayOf(i, c, w) == Jitter(w.sample(i), Capped(i, c));
      }
    }
  }

  /** The default strategy without jitter waits 1, 2, 4, 8 and 16 seconds, and half a minute from then on. */
  lemma DefaultDelays(w: World, i: nat)
    requires 6 <= i
    ensures
      var c := DEFAULT.(useJitter := false);
      && DelayOf(1, c, w) == 1000.0 && DelayOf(2, c, w) == 2000.0 && DelayOf(3, c, w) == 4000.0
      && DelayOf(4, c, w) == 8000.0 && DelayOf(5, c, w) == 16000.0 && DelayOf(i, c, w) == 30000.0
  {
    PowersOfTwo(i - 1);
  }

  lemma {:induction false} PowersOfTwo(n: nat)
    ensures Pow(2.0, 0) == 1.0 && Pow(2.0, 1) == 2.0 && Pow(2.0, 2) == 4.0 && Pow(2.0, 3) == 8.0 && Pow(2.0, 4) == 16.0
    ensures 5 <= n ==> 32.0 <= Pow(2.0, n)
  {
    assert Pow(2.0, 1) == 2.0 * Pow(2.0, 0);
    assert Pow(2.0, 2) == 2.0 * Pow(2.0, 1);
    assert Pow(2.0, 3) == 2.0 * Pow(2.0, 2);
    assert Pow(2.0, 4) == 2.0 * Pow(2.0, 3);
    assert Pow(2.0, 5) == 2.0 * Pow(2.0, 4);
    if 5 < n {
      PowersOfTwo(n - 1);
      assert Pow(2.0, n) == 2.0 * Pow(2.0, n - 1);
    }
  }

  /** The strategies of the channels, tries counted with the first. */
  lemma ChannelStrategies(channel: string)
    ensures
      var c := ConfigForNotificationType(channel);
      && c.multiplier == 2.0 && c.useJitter
      && (channel == "email" ==> Allowed(c) == 6 && c.initialDelayMs == 2000.0 && c.maxDelayMs == 60000.0)
      && (channel == "push" ==> Allowed(c) == 4 && c.initialDelayMs == 1000.0 && c.maxDelayMs == 30000.0)
      && (channel == "sms" ==> Allowed(c) == 5 && c.initialDelayMs == 3000.0 && c.maxDelayMs == 45000.0)
      && (channel !in {"email", "push", "sms"} ==> Allowed(c) == 4 && c.initialDelayMs == 1000.0 && c.maxDelayMs == 30000.0)
  {}

  /** One try more than the retries, and a first try in any case. */
  lemma AllowedExactly(c: Config)
    ensures Allowed(c) >= 1 && (0 <= c.maxRetries ==> Allowed(c) == 1 + c.maxRetries) && (c.maxRetries < 0 ==> Allowed(c) == 1)
  {}
}
