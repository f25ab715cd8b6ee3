/** The sliding-window rate limiter over a pruned, expiring sorted set, and its refinement of the plain count. */
module RateLimiter {
  import opened Common
  import opened SlidingWindow

  type Nonce = nat

  // A member of the sorted set is the request time joined with a random number.
  datatype Entry = Entry(score: nat, member: (nat, Nonce))

  datatype SortedSet = SortedSet(entries: seq<Entry>, expiresAt: int)

  datatype Config = Config(windowMs: int, maxRequests: int, burstAllowance: Option<int>)

  datatype Outcome = Outcome(success: bool, totalHits: int, remainingPoints: int, msBeforeNext: int)

  const EMPTY := SortedSet([], 0)

  function Limit(c: Config): int {
    c.maxRequests + (if c.burstAllowance.Some? then c.burstAllowance.value else 0)
  }

  function Max(a: int, b: int): int {
    if a > b then a else b
  }

  // Milliseconds in whole seconds, rounded up.
  function CeilSeconds(ms: int): (s: nat)
    ensures ms <= 1000 * s && (0 < ms ==> 1000 * s < ms + 1000)
    decreases ms
  {
    if ms <= 0 then 0 else 1 + CeilSeconds(ms - 1000)
  }

  // ---------------------------------------------------------------- the sorted-set commands

  function Live(z: SortedSet, now: int): seq<Entry> {
    if now < z.expiresAt then z.entries else []
  }

  function RemoveRangeByScore(es: seq<Entry>, low: int, high: int): seq<Entry> {
    if es == [] then []
    else
      var rest, last := RemoveRangeByScore(es[..|es| - 1], low, high), es[|es| - 1];
      if low <= last.score <= high then rest else rest + [last]
  }

  function Remove(es: seq<Entry>, member: (nat, Nonce)): seq<Entry> {
    if es == [] then []
    else
      var rest, last := Remove(es[..|es| - 1], member), es[|es| - 1];
      if last.member == member then rest else rest + [last]
  }

  function Scores(es: seq<Entry>): (s: seq<int>)
    ensures |s| == |es|
  {
    seq(|es|, i requires 0 <= i < |es| => es[i].score)
  }

  // ---------------------------------------------------------------- one request

  // The set and the answer after a request at a time, with the two random numbers the call draws.
  function Slide(z: SortedSet, c: Config, now: nat, drawn: Nonce, drawnAgain: Nonce): (SortedSet, Outcome) {
    var kept := RemoveRangeByScore(Live(z, now), 0, now - c.windowMs);
    var hits := |kept| + 1;
    var added := Remove(kept, (now, drawn)) + [Entry(now, (now, drawn))];
    var ok := hits <= Limit(c);
    (SortedSet(if ok then added else Remove(added, (now, drawnAgain)), now + 1000 * CeilSeconds(c.windowMs)),
     Outcome(ok, hits, Max(0, Limit(c) - hits), if ok then 0 else c.windowMs))
  }

  const STATUS_WINDOW := 60 * 1000

  // Reading the status forgets what is older than a minute, whatever window the key is limited by.
  function StatusRead(z: SortedSet, now: nat): SortedSet {
    SortedSet(RemoveRangeByScore(Live(z, now), 0, now - STATUS_WINDOW), z.expiresAt)
  }

  // One call: its time and the two random numbers it draws.
  datatype Call = Call(now: nat, drawn: Nonce, drawnAgain: Nonce)

  class RateLimitService {
    var sets: map<string, SortedSet>

    constructor ()
      ensures sets == map[]
    {
      sets := map[];
    }

    function SetOf(key: string): SortedSet
      reads this
    {
      if key in sets then sets[key] else EMPTY
    }

    method SlidingWindowRateLimit(key: string, c: Config, now: nat, drawn: Nonce, drawnAgain: Nonce) returns (r: Outcome)
      modifies this
      ensures (SetOf(key), r) == Slide(old(SetOf(key)), c, now, drawn, drawnAgain)
      ensures forall k :: k != key ==> SetOf(k) == old(SetOf(k))
    {
      var windowStart := now - c.windowMs;
      var entries := Live(SetOf(key), now);
      entries := RemoveRangeByScore(entries, 0, windowStart);
      var counted := |entries|;
      entries := Remove(entries, (now, drawn)) + [Entry(now, (now, drawn))];
      var expiresAt := now + 1000 * CeilSeconds(c.windowMs);
      var currentCount := counted + 1;
      var maxAllowed := Limit(c);
      var success := currentCount <= maxAllowed;
      var remainingPoints := Max(0, maxAllowed - currentCount);
      var msBeforeNext := if success then 0 else c.windowMs;
      if !success {
        entries := Remove(entries, (now, drawnAgain));
      }
      var left := SortedSet(entries, expiresAt);
      r := Outcome(success, currentCount, remainingPoints, msBeforeNext);
      assert (left, r) == Slide(SetOf(key), c, now, drawn, drawnAgain);
      sets := sets[key := left];
    }

    method GetRateLimitStatus(key: string, now: nat) returns (currentCount: nat)
      modifies this
      ensures SetOf(key) == StatusRead(old(SetOf(key)), now)
      ensures currentCount == CountAfter(Scores(Live(old(SetOf(key)), now)), now - 60000)
      ensures forall k :: k != key ==> SetOf(k) == old(SetOf(k))
    {
      var windowStart := now - STATUS_WINDOW;
      PruneCounts(Live(SetOf(key), now), windowStart, windowStart);
      var entries := RemoveRangeByScore(Live(SetOf(key), now), 0, windowStart);
      sets := sets[key := SortedSet(entries, SetOf(key).expiresAt)];
      currentCount := |entries|;
    }

    method ResetRateLimit(key: string)
      modifies this
      ensures SetOf(key) == EMPTY && forall k :: k != key ==> SetOf(k) == old(SetOf(k))
    {
      sets := sets - {key};
    }
  }

  // ---------------------------------------------------------------- configuration

  datatype Tier = Free | Premium | Enterprise | Admin

  datatype Partial = Partial(windowMs: Option<int>, maxRequests: Option<int>, burstAllowance: Option<int>)

  const MINUTE := 60 * 1000

  function TierConfig(t: Tier): Config {
    match t
    case Free => Config(MINUTE, 10, Some(3))
    case Premium => Config(MINUTE, 50, Some(10))
    case Enterprise => Config(MINUTE, 200, Some(50))
    case Admin => Config(MINUTE, 1000, Some(200))
  }

  function EndpointConfig(endpoint: string): Option<Partial> {
    if endpoint == "/api/auth/login" then Some(Partial(Some(15 * MINUTE), Some(5), Some(0)))
    else if endpoint == "/api/auth/register" then Some(Partial(Some(60 * MINUTE), Some(3), Some(0)))
    else if endpoint == "/api/listings" then Some(Partial(Some(MINUTE), Some(30), Some(5)))
    else if endpoint == "/api/search" then Some(Partial(Some(MINUTE), Some(20), Some(3)))
    else None
  }

  function Override(c: Config, p: Option<Partial>): Config {
    if p == None then c
    else
      var o := p.value;
      Config(if o.windowMs.Some? then o.windowMs.value else c.windowMs,
             if o.maxRequests.Some? then o.maxRequests.value else c.maxRequests,
             if o.burstAllowance.Some? then o.burstAllowance else c.burstAllowance)
  }

  function GetRateLimitConfig(t: Tier, endpoint: Option<string>, custom: Option<Partial>): Config {
    Override(Override(TierConfig(t), if endpoint.Some? then EndpointConfig(endpoint.value) else None), custom)
  }

  // ---------------------------------------------------------------- refinement

  // The same key seen as the full list of its requests, with the random numbers drawn and the time reached so far.
  datatype History = History(requests: seq<Request>, drawn: set<Nonce>, clock: int)

  datatype Step = Ask(call: Call) | ReadStatus(now: nat) | Reset(now: nat)

  // The clock does not run backwards and random numbers do not repeat.
  predicate Plausible(h: History, step: Step) {
    match step
    case Ask(call) => h.clock <= call.now && {call.drawn, call.drawnAgain} !! h.drawn && call.drawn != call.drawnAgain
    case ReadStatus(now) => h.clock <= now
    case Reset(now) => h.clock <= now
  }

  // The call forgets no request that the key's window still counts.
  predicate Harmless(c: Config, h: History, step: Step) {
    match step
    case Ask(_) => true
    case ReadStatus(now) => NoneBetween(h.requests, now - c.windowMs, now - 60000)
    case Reset(now) => NoneBetween(h.requests, now - c.windowMs, now)
  }

  function Record(h: History, call: Call, r: Outcome): History {
    History(h.requests + [Request(call.now, r.success)], h.drawn + {call.drawn, call.drawnAgain}, call.now)
  }

  // From a time on, the live set counts what the full history counts in the window and in any shorter one.
  ghost predicate Agrees(z: SortedSet, rs: seq<Request>, clock: int, window: int) {
    forall now, cutoff :: clock <= now && now - window <= cutoff ==>
      CountAfter(Scores(Live(z, now)), cutoff) == CountAfter(Times(rs), cutoff)
  }

  ghost predicate Refines(z: SortedSet, c: Config, h: History) {
    && (forall e :: e in z.entries ==> e.member.1 in h.drawn)
    && (forall i :: 0 <= i < |h.requests| ==> h.requests[i].time <= h.clock)
    && Agrees(z, h.requests, h.clock, c.windowMs)
    && Limited(h.requests, c.windowMs, Limit(c))
  }

  // Pruning up to a score counts, after any cutoff, what lies after the later of the two.
  lemma {:induction false} PruneCounts(es: seq<Entry>, high: int, cutoff: int)
    ensures CountAfter(Scores(RemoveRangeByScore(es, 0, high)), cutoff) == CountAfter(Scores(es), Max(high, cutoff))
    ensures |RemoveRangeByScore(es, 0, high)| == CountAfter(Scores(es), high)
    ensures forall e :: e in RemoveRangeByScore(es, 0, high) ==> e in es
  {
    if es != [] {
      var init, last := es[..|es| - 1], es[|es| - 1];
      PruneCounts(init, high, cutoff);
      assert Scores(es)[..|es| - 1] == Scores(init);
      var kept := RemoveRangeByScore(init, 0, high);
      assert Scores(kept + [last])[..|kept|] == Scores(kept);
    }
  }

  lemma {:induction false} RemoveAbsent(es: seq<Entry>, member: (nat, Nonce))
    requires forall e :: e in es ==> e.member != member
    ensures Remove(es, member) == es
  {
    if es != [] {
      RemoveAbsent(es[..|es| - 1], member);
    }
  }

  // What the pruned, expiring set holds is the number of requests, admitted or not, inside the window.
  lemma PrunedCountIsFullCount(z: SortedSet, c: Config, h: History, now: nat, cutoff: int)
    requires Refines(z, c, h) && h.clock <= now && now - c.windowMs <= cutoff
    ensures
      var kept := RemoveRangeByScore(Live(z, now), 0, now - c.windowMs);
      && |kept| == CountAfter(Times(h.requests), now - c.windowMs)
      && CountAfter(Scores(kept), cutoff) == CountAfter(Times(h.requests), cutoff)
      && (forall e :: e in kept ==> e in z.entries)
  {
    PruneCounts(Live(z, now), now - c.windowMs, cutoff);
  }

  lemma AppendCount(es: seq<Entry>, e: Entry, rs: seq<Request>, r: Request, cutoff: int)
    requires CountAfter(Scores(es), cutoff) == CountAfter(Times(rs), cutoff) && e.score == r.time
    ensures CountAfter(Scores(es + [e]), cutoff) == CountAfter(Times(rs + [r]), cutoff)
  {
    assert Scores(es + [e])[..|es|] == Scores(es);
    assert Times(rs + [r])[..|rs|] == Times(rs);
  }

  lemma SlideParts(z: SortedSet, c: Config, now: nat, drawn: Nonce, drawnAgain: Nonce)
    ensures
      var kept := RemoveRangeByScore(Live(z, now), 0, now - c.windowMs);
      var added := Remove(kept, (now, drawn)) + [Entry(now, (now, drawn))];
      var (z', r) := Slide(z, c, now, drawn, drawnAgain);
      && (z'.entries == added || z'.entries == Remove(added, (now, drawnAgain)))
      && now + c.windowMs <= z'.expiresAt
      && r.totalHits == |kept| + 1 && (r.success <==> |kept| < Limit(c))
  {}

  lemma RemoveRangeKeeps(es: seq<Entry>, high: int, drawn: set<Nonce>)
    requires forall e :: e in es ==> e.member.1 in drawn
    ensures forall e :: e in RemoveRangeByScore(es, 0, high) ==> e.member.1 in drawn
  {
    PruneCounts(es, high, high);
  }

  // With fresh random numbers the set gains the new entry and loses only what left the window.
  lemma SlideShape(z: SortedSet, c: Config, drawnBefore: set<Nonce>, now: nat, drawn: Nonce, drawnAgain: Nonce)
    requires forall e :: e in z.entries ==> e.member.1 in drawnBefore
    requires drawn !in drawnBefore && drawnAgain !in drawnBefore && drawn != drawnAgain
    ensures
      var kept := RemoveRangeByScore(Live(z, now), 0, now - c.windowMs);
      var (z', r) := Slide(z, c, now, drawn, drawnAgain);
      && z'.entries == kept + [Entry(now, (now, drawn))]
      && now + c.windowMs <= z'.expiresAt
      && r.totalHits == |kept| + 1 && (r.success <==> |kept| < Limit(c))
      && (forall e :: e in z'.entries ==> e.member.1 in drawnBefore + {drawn, drawnAgain})
  {
    var kept := RemoveRangeByScore(Live(z, now), 0, now - c.windowMs);
    SlideParts(z, c, now, drawn, drawnAgain);
    RemoveRangeKeeps(Live(z, now), now - c.windowMs, drawnBefore);
    NewEntryStays(kept, drawnBefore, now, drawn, drawnAgain);
  }

  lemma NewEntryStays(kept: seq<Entry>, drawnBefore: set<Nonce>, now: nat, drawn: Nonce, drawnAgain: Nonce)
    requires forall e :: e in kept ==> e.member.1 in drawnBefore
    requires drawn !in drawnBefore && drawnAgain !in drawnBefore && drawn != drawnAgain
    ensures
      var added := kept + [Entry(now, (now, drawn))];
      && Remove(kept, (now, drawn)) == kept && Remove(added, (now, drawnAgain)) == added
      && forall e :: e in added ==> e.member.1 in drawnBefore + {drawn, drawnAgain}
  {
    RemoveAbsent(kept, (now, drawn));
    RemoveAbsent(kept + [Entry(now, (now, drawn))], (now, drawnAgain));
  }

  // The set with its new entry counts as the longer history does, for as long as the entry is in the window or the
  // set is alive, whichever is longer.
  lemma AgreesAfterAppend(z: SortedSet, c: Config, h: History, now: nat, z': SortedSet, e: Entry, request: Request)
    requires Refines(z, c, h) && h.clock <= now && e.score == now == request.time
    requires z'.entries == RemoveRangeByScore(Live(z, now), 0, now - c.windowMs) + [e] && now + c.windowMs <= z'.expiresAt
    ensures Agrees(z', h.requests + [request], now, c.windowMs)
  {
    forall later, cutoff | now <= later && later - c.windowMs <= cutoff
      ensures CountAfter(Scores(Live(z', later)), cutoff) == CountAfter(Times(h.requests + [request]), cutoff)
    {
      if later < z'.expiresAt {
        PrunedCountIsFullCount(z, c, h, now, cutoff);
        AppendCount(RemoveRangeByScore(Live(z, now), 0, now - c.windowMs), e, h.requests, request, cutoff);
      } else {
        NoneAfter(Times(h.requests + [request]), cutoff);
      }
    }
  }

  lemma LimitedAppend(rs: seq<Request>, r: Request, window: int, limit: int)
    requires Limited(rs, window, limit)
    requires r.admitted <==> CountAfter(Times(rs), r.time - window) < limit
    ensures Limited(rs + [r], window, limit)
  {
    assert (rs + [r])[..|rs|] == rs;
  }

  /** One request: its hits are exactly the full-history requests still in its window plus itself, it is admitted
      exactly when those do not exceed the limit, and the set again stands for the longer history. A rejected request
      stays in it, because the removal names a member just drawn at random. */
  lemma RequestRefinesFullCount(z: SortedSet, c: Config, h: History, call: Call)
    requires Refines(z, c, h) && Plausible(h, Ask(call))
    ensures
      var (z', r) := Slide(z, c, call.now, call.drawn, call.drawnAgain);
      && r.totalHits == CountAfter(Times(h.requests), call.now - c.windowMs) + 1
      && (r.success <==> CountAfter(Times(h.requests), call.now - c.windowMs) < Limit(c))
      && Refines(z', c, Record(h, call, r))
  {
    var (z', r) := Slide(z, c, call.now, call.drawn, call.drawnAgain);
    PrunedCountIsFullCount(z, c, h, call.now, call.now - c.windowMs);
    SlideShape(z, c, h.drawn, call.now, call.drawn, call.drawnAgain);
    AgreesAfterAppend(z, c, h, call.now, z', Entry(call.now, (call.now, call.drawn)), Request(call.now, r.success));
    LimitedAppend(h.requests, Request(call.now, r.success), c.windowMs, Limit(c));
  }

  /** The remaining points say whether another request at the same moment would be admitted. */
  lemma RemainingPointsAreGood(z: SortedSet, c: Config, h: History, first: Call, second: Call)
    requires Refines(z, c, h) && Plausible(h, Ask(first)) && first.now == second.now && 0 < c.windowMs
    ensures
      var (z', r) := Slide(z, c, first.now, first.drawn, first.drawnAgain);
      var r' := Slide(z', c, second.now, second.drawn, second.drawnAgain).1;
      && (r'.success <==> 0 < r.remainingPoints)
      && (0 < r.remainingPoints ==> r'.remainingPoints == r.remainingPoints - 1)
  {
    var (z', r) := Slide(z, c, first.now, first.drawn, first.drawnAgain);
    RequestRefinesFullCount(z, c, h, first);
    CountWithLast(h.requests, Request(first.now, r.success), first.now - c.windowMs);
    AnswerByCount(z', c, Record(h, first, r), second, r.totalHits);
  }

  lemma CountWithLast(rs: seq<Request>, r: Request, cutoff: int)
    requires cutoff < r.time
    ensures CountAfter(Times(rs + [r]), cutoff) == CountAfter(Times(rs), cutoff) + 1
  {
    assert Times(rs + [r])[..|rs|] == Times(rs);
  }

  lemma AnswerByKept(z: SortedSet, c: Config, call: Call)
    ensures
      var kept := |RemoveRangeByScore(Live(z, call.now), 0, call.now - c.windowMs)|;
      var r := Slide(z, c, call.now, call.drawn, call.drawnAgain).1;
      (r.success <==> kept < Limit(c)) && r.remainingPoints == Max(0, Limit(c) - kept - 1)
  {}

  lemma AnswerByCount(z: SortedSet, c: Config, h: History, call: Call, count: nat)
    requires Refines(z, c, h) && h.clock <= call.now
    requires CountAfter(Times(h.requests), call.now - c.windowMs) == count
    ensures
      var r := Slide(z, c, call.now, call.drawn, call.drawnAgain).1;
      (r.success <==> count < Limit(c)) && r.remainingPoints == Max(0, Limit(c) - count - 1)
  {
    PrunedCountIsFullCount(z, c, h, call.now, call.now - c.windowMs);
    AnswerByKept(z, c, call);
  }

  // ---------------------------------------------------------------- status reads and resets

  // What a status read leaves counts, at any later time, only what is younger than a minute at the read.
  lemma StatusReadCounts(z: SortedSet, c: Config, h: History, now: nat, later: int, cutoff: int)
    requires Refines(z, c, h) && h.clock <= now <= later && later - c.windowMs <= cutoff
    ensures
      CountAfter(Scores(Live(StatusRead(z, now), later)), cutoff)
        == if later < z.expiresAt then CountAfter(Times(h.requests), Max(now - STATUS_WINDOW, cutoff))
           else CountAfter(Times(h.requests), cutoff)
  {
    PruneCounts(Live(z, now), now - STATUS_WINDOW, cutoff);
    assert CountAfter(Scores(Live(z, later)), Max(now - STATUS_WINDOW, cutoff))
        == CountAfter(Times(h.requests), Max(now - STATUS_WINDOW, cutoff));
    assert CountAfter(Scores(Live(z, later)), cutoff) == CountAfter(Times(h.requests), cutoff);
  }

  /** The set still stands for the history after a status read exactly when no request that the key's window still counts
      is older than a minute; always when the window is no longer than that. */
  lemma StatusReadAgreesExactlyWhen(z: SortedSet, c: Config, h: History, now: nat)
    requires Refines(z, c, h) && h.clock <= now
    ensures Agrees(StatusRead(z, now), h.requests, now, c.windowMs) <==> Harmless(c, h, ReadStatus(now))
    ensures c.windowMs <= STATUS_WINDOW ==> Harmless(c, h, ReadStatus(now))
  {
    if Harmless(c, h, ReadStatus(now)) {
      forall later, cutoff | now <= later && later - c.windowMs <= cutoff
        ensures CountAfter(Scores(Live(StatusRead(z, now), later)), cutoff) == CountAfter(Times(h.requests), cutoff)
      {
        StatusReadCounts(z, c, h, now, later, cutoff);
        SameCountExactlyWhenNoneBetween(h.requests, cutoff, Max(now - STATUS_WINDOW, cutoff));
      }
    } else if Agrees(StatusRead(z, now), h.requests, now, c.windowMs) {
      StatusReadForgets(z, c, h, now);
    }
  }

  lemma StatusReadForgets(z: SortedSet, c: Config, h: History, now: nat)
    requires Refines(z, c, h) && h.clock <= now && !Harmless(c, h, ReadStatus(now))
    ensures !Agrees(StatusRead(z, now), h.requests, now, c.windowMs)
  {
    var cutoff := now - c.windowMs;
    SameCountExactlyWhenNoneBetween(h.requests, cutoff, now - STATUS_WINDOW);
    StatusReadCounts(z, c, h, now, now, cutoff);
    StatusReadCounts(z, c, h, now, now, now - STATUS_WINDOW);
    assert CountAfter(Scores(Live(StatusRead(z, now), now)), cutoff) < CountAfter(Times(h.requests), cutoff);
  }

  /** A reset forgets everything, which changes nothing exactly when the window was empty. */
  lemma ResetAgreesExactlyWhen(c: Config, h: History, now: nat)
    requires forall i :: 0 <= i < |h.requests| ==> h.requests[i].time <= h.clock
    requires h.clock <= now
    ensures Agrees(EMPTY, h.requests, now, c.windowMs) <==> Harmless(c, h, Reset(now))
  {
    var cutoff := now - c.windowMs;
    if Harmless(c, h, Reset(now)) {
      forall later, cut | now <= later && later - c.windowMs <= cut
        ensures CountAfter(Scores(Live(EMPTY, later)), cut) == CountAfter(Times(h.requests), cut)
      {
        NoneAfter(Times(h.requests), cut);
      }
    } else {
      assert cutoff < now;
      SameCountExactlyWhenNoneBetween(h.requests, cutoff, now);
      NoneAfter(Times(h.requests), now);
      assert CountAfter(Scores(Live(EMPTY, now)), cutoff) == 0;
    }
  }

  lemma KeptAfterRead(z: SortedSet, c: Config, h: History, now: nat)
    requires Refines(z, c, h) && h.clock <= now
    ensures |RemoveRangeByScore(Live(StatusRead(z, now), now), 0, now - c.windowMs)|
         == CountAfter(Times(h.requests), Max(now - c.windowMs, now - STATUS_WINDOW))
  {
    var cutoff := now - c.windowMs;
    StatusReadCounts(z, c, h, now, now, cutoff);
    PruneCounts(Live(StatusRead(z, now), now), cutoff, cutoff);
    if now >= z.expiresAt {
      SameCountExactlyWhenNoneBetween(h.requests, cutoff, Max(cutoff, now - STATUS_WINDOW));
    }
  }

  /** A request right after a status read is admitted exactly when fewer requests than the limit lie in the window and in
      the last minute: the read shortens the window to a minute. */
  lemma AfterStatusReadAdmittedExactlyWhen(z: SortedSet, c: Config, h: History, call: Call)
    requires Refines(z, c, h) && h.clock <= call.now
    ensures Slide(StatusRead(z, call.now), c, call.now, call.drawn, call.drawnAgain).1.success
       <==> CountAfter(Times(h.requests), Max(call.now - c.windowMs, call.now - 60000)) < Limit(c)
  {
    KeptAfterRead(z, c, h, call.now);
    AnswerByKept(StatusRead(z, call.now), c, call);
  }

  // ---------------------------------------------------------------- every run on one key

  // The set and the history after one call.
  function Next(z: SortedSet, c: Config, h: History, step: Step): (SortedSet, History) {
    match step
    case Ask(call) =>
      var (z', r) := Slide(z, c, call.now, call.drawn, call.drawnAgain);
      (z', Record(h, call, r))
    case ReadStatus(now) => (StatusRead(z, now), h.(clock := now))
    case Reset(now) => (EMPTY, h.(clock := now))
  }

  function Serve(z: SortedSet, c: Config, h: History, steps: seq<Step>): (SortedSet, History)
    decreases |steps|
  {
    if steps == [] then (z, h)
    else
      var (z', h') := Next(z, c, h, steps[0]);
      Serve(z', c, h', steps[1..])
  }

  // Whether every step is plausible and, when asked for, harmless.
  predicate Runnable(z: SortedSet, c: Config, h: History, steps: seq<Step>, harmless: bool)
    decreases |steps|
  {
    steps == [] ||
    (Plausible(h, steps[0]) && (harmless ==> Harmless(c, h, steps[0])) &&
     var (z', h') := Next(z, c, h, steps[0]);
     Runnable(z', c, h', steps[1..], harmless))
  }

  predicate InOrder(h: History) {
    Nondecreasing(Times(h.requests))
  }

  /** A call keeps the set standing for the full history exactly when it is harmless; requests always are. */
  lemma StepRefinesExactlyWhen(z: SortedSet, c: Config, h: History, step: Step)
    requires Refines(z, c, h) && Plausible(h, step)
    ensures Refines(Next(z, c, h, step).0, c, Next(z, c, h, step).1) <==> Harmless(c, h, step)
  {
    match step
    case Ask(call) => RequestRefinesFullCount(z, c, h, call);
    case ReadStatus(now) =>
      PruneCounts(Live(z, now), now - STATUS_WINDOW, now);
      StatusReadAgreesExactlyWhen(z, c, h, now);
    case Reset(now) => ResetAgreesExactlyWhen(c, h, now);
  }

  lemma StepInOrder(z: SortedSet, c: Config, h: History, step: Step)
    requires Refines(z, c, h) && InOrder(h) && Plausible(h, step)
    ensures InOrder(Next(z, c, h, step).1)
  {}

  lemma {:induction false} ServeRefines(z: SortedSet, c: Config, h: History, steps: seq<Step>)
    requires Refines(z, c, h) && InOrder(h) && Runnable(z, c, h, steps, true)
    ensures Refines(Serve(z, c, h, steps).0, c, Serve(z, c, h, steps).1) && InOrder(Serve(z, c, h, steps).1)
    decreases |steps|
  {
    if steps != [] {
      var (z', h') := Next(z, c, h, steps[0]);
      StepRefinesExactlyWhen(z, c, h, steps[0]);
      StepInOrder(z, c, h, steps[0]);
      ServeRefines(z', c, h', steps[1..]);
    }
  }

  const FRESH := History([], {}, 0)

  // What a run of requests, and of status reads and resets that forget nothing counted, leaves of an unused key.
  ghost predicate Reachable(z: SortedSet, c: Config, h: History) {
    exists steps :: Runnable(EMPTY, c, FRESH, steps, true) && Serve(EMPTY, c, FRESH, steps) == (z, h)
  }

  lemma FreshRefines(c: Config)
    ensures Refines(EMPTY, c, FRESH) && InOrder(FRESH)
  {}

  lemma ReachableRefines(z: SortedSet, c: Config, h: History)
    requires Reachable(z, c, h)
    ensures Refines(z, c, h) && InOrder(h)
  {
    var steps :| Runnable(EMPTY, c, FRESH, steps, true) && Serve(EMPTY, c, FRESH, steps) == (z, h);
    FreshRefines(c);
    ServeRefines(EMPTY, c, FRESH, steps);
  }

  /** For a fixed configuration, no interval of the window's length admits more requests than the limit with its burst
      allowance. */
  lemma AtMostLimitPerWindow(z: SortedSet, c: Config, h: History, from: int)
    requires Reachable(z, c, h)
    ensures AdmittedIn(h.requests, from, from + c.windowMs) <= if Limit(c) < 0 then 0 else Limit(c)
  {
    ReachableRefines(z, c, h);
    WindowNeverOverfull(h.requests, c.windowMs, Limit(c), from);
  }

  /** A caller who is rejected, and alone stays silent for the wait it is told, is then admitted exactly when the limit is
      positive. */
  lemma WaitingIsEnough(z: SortedSet, c: Config, h: History, call: Call, next: Call)
    requires Reachable(z, c, h) && Plausible(h, Ask(call))
    requires !Slide(z, c, call.now, call.drawn, call.drawnAgain).1.success
    requires call.now <= next.now
    requires call.now + Slide(z, c, call.now, call.drawn, call.drawnAgain).1.msBeforeNext <= next.now
    ensures
      var z' := Slide(z, c, call.now, call.drawn, call.drawnAgain).0;
      Slide(z', c, next.now, next.drawn, next.drawnAgain).1.success <==> 0 < Limit(c)
  {
    var (z', r) := Slide(z, c, call.now, call.drawn, call.drawnAgain);
    ReachableRefines(z, c, h);
    RequestRefinesFullCount(z, c, h, call);
    AdmittedAfterSilence(z', c, Record(h, call, r), next);
  }

  lemma AdmittedAfterSilence(z: SortedSet, c: Config, h: History, next: Call)
    requires Refines(z, c, h) && h.clock <= next.now && h.clock + c.windowMs <= next.now
    ensures Slide(z, c, next.now, next.drawn, next.drawnAgain).1.success <==> 0 < Limit(c)
  {
    NoneAfter(Times(h.requests), next.now - c.windowMs);
    AnswerByCount(z, c, h, next, 0);
  }

  /** Rejected requests keep counting: with a positive limit, a request is admitted exactly when the request limit
      places before it, admitted or not, has left the window. */
  lemma AdmittedExactlyWhenDrained(z: SortedSet, c: Config, h: History, i: nat)
    requires Reachable(z, c, h) && 0 < Limit(c) && i < |h.requests|
    ensures h.requests[i].admitted
      <==> i < Limit(c) || h.requests[i - Limit(c)].time <= h.requests[i].time - c.windowMs
  {
    ReachableRefines(z, c, h);
    AdmittedExactlyWhenWindowDrained(h.requests, c.windowMs, Limit(c), i);
  }

  /** Whatever the caller's tier, a key used for logins admits at most 5 requests in any 15 minutes, as long as nobody
      reads its status while a login between 1 and 15 minutes old still counts, or resets it. */
  lemma LoginsAreCappedForEveryTier(tier: Tier, z: SortedSet, h: History, from: int)
    requires Reachable(z, GetRateLimitConfig(tier, Some("/api/auth/login"), None), h)
    ensures AdmittedIn(h.requests, from, from + 15 * MINUTE) <= 5
  {
    AtMostLimitPerWindow(z, GetRateLimitConfig(tier, Some("/api/auth/login"), None), h, from);
  }

  /** The wait told is nothing to an admitted caller, and the window to a rejected one; the hits count the request itself. */
  lemma WaitTold(z: SortedSet, c: Config, h: History, call: Call)
    requires Refines(z, c, h) && Plausible(h, Ask(call))
    ensures
      var r := Slide(z, c, call.now, call.drawn, call.drawnAgain).1;
      && r.msBeforeNext == (if r.success then 0 else c.windowMs)
      && (r.success <==> r.totalHits <= c.maxRequests + (if c.burstAllowance.Some? then c.burstAllowance.value else 0))
      && r.totalHits == 1 + CountAfter(Times(h.requests), call.now - c.windowMs)
  {
    RequestRefinesFullCount(z, c, h, call);
  }

  /** The limits without overrides: per minute for each tier, and for the endpoints that have their own, for every tier. */
  lemma LimitsTable(t: Tier)
    ensures
      var c := GetRateLimitConfig(t, None, None);
      c.windowMs == 60000 && Limit(c) == match t case Free => 13 case Premium => 60 case Enterprise => 250 case Admin => 1200
    ensures
      var login, register := GetRateLimitConfig(t, Some("/api/auth/login"), None), GetRateLimitConfig(t, Some("/api/auth/register"), None);
      login.windowMs == 900000 && Limit(login) == 5 && register.windowMs == 3600000 && Limit(register) == 3
    ensures
      var listings, search := GetRateLimitConfig(t, Some("/api/listings"), None), GetRateLimitConfig(t, Some("/api/search"), None);
      listings.windowMs == 60000 && Limit(listings) == 35 && search.windowMs == 60000 && Limit(search) == 23
  {}

  /** A custom setting prevails over the endpoint's and the tier's, setting by setting. */
  lemma CustomPrevails(t: Tier, endpoint: Option<string>, p: Partial)
    ensures
      var c, without := GetRateLimitConfig(t, endpoint, Some(p)), GetRateLimitConfig(t, endpoint, None);
      && c.windowMs == (if p.windowMs.Some? then p.windowMs.value else without.windowMs)
      && c.maxRequests == (if p.maxRequests.Some? then p.maxRequests.value else without.maxRequests)
      && c.burstAllowance == (if p.burstAllowance.Some? then p.burstAllowance else without.burstAllowance)
  {}

  // ---------------------------------------------------------------- the sixth login

  function LoginCall(n: nat): Call {
    Call(0, 2 * n + 2, 2 * n + 3)
  }

  function Logins(n: nat): seq<Step> {
    if n == 0 then [] else Logins(n - 1) + [Ask(LoginCall(n - 1))]
  }

  lemma {:induction false} ServeAppend(z: SortedSet, c: Config, h: History, steps: seq<Step>, last: Step, harmless: bool)
    requires Runnable(z, c, h, steps, harmless)
    requires
      var (z', h') := Serve(z, c, h, steps);
      Plausible(h', last) && (harmless ==> Harmless(c, h', last))
    ensures Runnable(z, c, h, steps + [last], harmless)
    ensures
      var (z', h') := Serve(z, c, h, steps);
      Serve(z, c, h, steps + [last]) == Next(z', c, h', last)
    decreases |steps|
  {
    if steps == [] {
      assert [last][1..] == [];
    } else {
      var (z', h') := Next(z, c, h, steps[0]);
      ServeAppend(z', c, h', steps[1..], last, harmless);
      assert (steps + [last])[1..] == steps[1..] + [last];
    }
  }

  // After n logins at time 0, all admitted.
  predicate LoggedIn(h: History, n: nat) {
    && |h.requests| == n && (forall i :: 0 <= i < n ==> h.requests[i] == Request(0, true))
    && h.clock == 0 && (forall k :: k in h.drawn ==> 2 <= k < 2 * n + 2)
  }

  lemma RecordLogin(h: History, n: nat, r: Outcome)
    requires LoggedIn(h, n) && r.success
    ensures LoggedIn(Record(h, LoginCall(n), r), n + 1)
    ensures Plausible(h, Ask(LoginCall(n)))
  {}

  lemma NextLogin(z: SortedSet, c: Config, h: History, n: nat, call: Call)
    requires Refines(z, c, h) && LoggedIn(h, n) && n < Limit(c) && 0 < c.windowMs && call.now == 0
    ensures Slide(z, c, 0, call.drawn, call.drawnAgain).1.success
  {
    AllAfter(Times(h.requests), 0 - c.windowMs);
    AnswerByCount(z, c, h, call, n);
  }

  // The run is n logins at time 0, all admitted.
  ghost predicate AfterLogins(c: Config, steps: seq<Step>, n: nat) {
    && Runnable(EMPTY, c, FRESH, steps, true)
    && var (z, h) := Serve(EMPTY, c, FRESH, steps);
      Refines(z, c, h) && LoggedIn(h, n)
  }

  lemma NoLogins(c: Config)
    ensures AfterLogins(c, [], 0)
  {
    FreshRefines(c);
  }

  lemma LoginAfter(c: Config, steps: seq<Step>, n: nat)
    requires AfterLogins(c, steps, n) && n < Limit(c) && 0 < c.windowMs
    ensures AfterLogins(c, steps + [Ask(LoginCall(n))], n + 1)
  {
    var (z, h) := Serve(EMPTY, c, FRESH, steps);
    var call := LoginCall(n);
    NextLogin(z, c, h, n, call);
    RecordLogin(h, n, Slide(z, c, 0, call.drawn, call.drawnAgain).1);
    ServeAppend(EMPTY, c, FRESH, steps, Ask(call), true);
    StepRefinesExactlyWhen(z, c, h, Ask(call));
  }

  lemma {:induction false} FirstLogins(c: Config, n: nat)
    requires n <= Limit(c) && 0 < c.windowMs
    ensures AfterLogins(c, Logins(n), n)
  {
    if n == 0 {
      NoLogins(c);
    } else {
      FirstLogins(c, n - 1);
      LoginAfter(c, Logins(n - 1), n - 1);
    }
  }

  // The sixth login a minute later: refused by the set as it is, admitted once its status has been read.
  lemma SixthLogin(z: SortedSet, c: Config, h: History, call: Call)
    requires Refines(z, c, h) && LoggedIn(h, 5) && Limit(c) == 5 && MINUTE < c.windowMs && call.now == MINUTE
    ensures !Slide(z, c, MINUTE, call.drawn, call.drawnAgain).1.success
    ensures Slide(StatusRead(z, MINUTE), c, MINUTE, call.drawn, call.drawnAgain).1.success
  {
    AllAfter(Times(h.requests), MINUTE - c.windowMs);
    AnswerByCount(z, c, h, call, 5);
    NoneAfter(Times(h.requests), 0);
    AfterStatusReadAdmittedExactlyWhen(z, c, h, call);
  }

  lemma {:induction false} AllAdmitted(rs: seq<Request>, from: int, to: int)
    requires forall i :: 0 <= i < |rs| ==> rs[i].admitted && from < rs[i].time <= to
    ensures AdmittedIn(rs, from, to) == |rs|
  {
    if rs != [] {
      AllAdmitted(rs[..|rs| - 1], from, to);
    }
  }

  lemma ReadThenLogIn(c: Config, steps: seq<Step>)
    requires AfterLogins(c, steps, 5) && Limit(c) == 5 && MINUTE < c.windowMs
    ensures
      var more := steps + [ReadStatus(MINUTE)] + [Ask(Call(MINUTE, 0, 1))];
      && Runnable(EMPTY, c, FRESH, more, false)
      && AdmittedIn(Serve(EMPTY, c, FRESH, more).1.requests, -1, -1 + 15 * MINUTE) == 6
      && !Slide(Serve(EMPTY, c, FRESH, steps).0, c, MINUTE, 0, 1).1.success
  {
    var call := Call(MINUTE, 0, 1);
    var (z, h) := Serve(EMPTY, c, FRESH, steps);
    SixthLogin(z, c, h, call);
    RunnableAnyway(EMPTY, c, FRESH, steps);
    ReadThenAsk(c, steps, call);
    SixAdmitted(h);
  }

  lemma SixAdmitted(h: History)
    requires LoggedIn(h, 5)
    ensures AdmittedIn(h.requests + [Request(MINUTE, true)], -1, -1 + 15 * MINUTE) == 6
  {
    AllAdmitted(h.requests + [Request(MINUTE, true)], -1, -1 + 15 * MINUTE);
  }

  lemma ReadThenAsk(c: Config, steps: seq<Step>, call: Call)
    requires Runnable(EMPTY, c, FRESH, steps, false) && Plausible(Serve(EMPTY, c, FRESH, steps).1, Ask(call))
    ensures Runnable(EMPTY, c, FRESH, steps + [ReadStatus(call.now)] + [Ask(call)], false)
    ensures
      var (z, h) := Serve(EMPTY, c, FRESH, steps);
      Serve(EMPTY, c, FRESH, steps + [ReadStatus(call.now)] + [Ask(call)])
        == Next(StatusRead(z, call.now), c, h.(clock := call.now), Ask(call))
  {
    ServeAppend(EMPTY, c, FRESH, steps, ReadStatus(call.now), false);
    ServeAppend(EMPTY, c, FRESH, steps + [ReadStatus(call.now)], Ask(call), false);
  }

  /** Five logins, a minute's wait, one look at the key's status and a sixth login: all six are admitted within
      15 minutes. Without the look the sixth would be refused. */
  lemma StatusReadLetsSixthLoginIn(tier: Tier)
    ensures
      var c := GetRateLimitConfig(tier, Some("/api/auth/login"), None);
      var steps := Logins(5) + [ReadStatus(MINUTE)] + [Ask(Call(MINUTE, 0, 1))];
      && Runnable(EMPTY, c, FRESH, steps, false)
      && AdmittedIn(Serve(EMPTY, c, FRESH, steps).1.requests, -1, -1 + 15 * MINUTE) == 6
      && !Slide(Serve(EMPTY, c, FRESH, Logins(5)).0, c, MINUTE, 0, 1).1.success
  {
    var c := GetRateLimitConfig(tier, Some("/api/auth/login"), None);
    FirstLogins(c, 5);
    ReadThenLogIn(c, Logins(5));
  }

  lemma {:induction false} RunnableAnyway(z: SortedSet, c: Config, h: History, steps: seq<Step>)
    requires Runnable(z, c, h, steps, true)
    ensures Runnable(z, c, h, steps, false)
    decreases |steps|
  {
    if steps != [] {
      var (z', h') := Next(z, c, h, steps[0]);
      RunnableAnyway(z', c, h', steps[1..]);
    }
  }
}
