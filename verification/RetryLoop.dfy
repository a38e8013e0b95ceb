/** One chat request: the retry loop around the adapter, its back-off rules, the breaker it
    reports to and the fallback to the local model. */
module RetryLoop {
  import opened CircuitBreaking

  /** What one adapter call comes to. Unexpected is an exception outside the adapter's hierarchy. */
  datatype Outcome =
    | Response | TimedOut
    | RateLimit | Server | Connection | AdapterTimeout | ModelUnavailable | Auth | OtherAdapter
    | Unexpected

  datatype Class = TimeoutError | RateLimitError | ServerError | ConnectionError | AdapterTimeoutError
                 | AdapterError | ModelUnavailableError | AuthError

  /** isinstance: every adapter exception is also an AdapterError. */
  predicate IsInstance(o: Outcome, c: Class) {
    match c
    case TimeoutError => o.TimedOut?
    case RateLimitError => o.RateLimit?
    case ServerError => o.Server?
    case ConnectionError => o.Connection?
    case AdapterTimeoutError => o.AdapterTimeout?
    case ModelUnavailableError => o.ModelUnavailable?
    case AuthError => o.Auth?
    case AdapterError =>
      o.RateLimit? || o.Server? || o.Connection? || o.AdapterTimeout? || o.ModelUnavailable? || o.Auth? || o.OtherAdapter?
  }

  /** The branch of the try statement an outcome takes; the except clauses in source order. */
  datatype Branch = OnResponse | OnTimeout | OnRateLimit | OnServer | OnAdapter | OnModelUnavailable | OnAuth | Escapes

  function Taken(o: Outcome): Branch {
    if o.Response? then OnResponse
    else if IsInstance(o, TimeoutError) then OnTimeout
    else if IsInstance(o, RateLimitError) then OnRateLimit
    else if IsInstance(o, ServerError) || IsInstance(o, ConnectionError) then OnServer
    else if IsInstance(o, AdapterTimeoutError) || IsInstance(o, AdapterError) then OnAdapter
    else if IsInstance(o, ModelUnavailableError) then OnModelUnavailable
    else if IsInstance(o, AuthError) then OnAuth
    else Escapes
  }

  /** The last two except clauses never run: an unavailable model and a failed authentication
      are adapter errors, so they are retried like any other. */
  lemma LastClausesNeverRun(o: Outcome)
    ensures Taken(o) != OnModelUnavailable && Taken(o) != OnAuth
    ensures o.ModelUnavailable? || o.Auth? ==> Taken(o) == OnAdapter
  {
  }

  datatype Policy = Policy(max429: nat, max5xx: nat, base: real, linear: real)

  function Max(a: nat, b: nat): nat {
    if a > b then a else b
  }

  function Most(p: Policy): nat {
    Max(p.max429, p.max5xx)
  }

  /** a * n, as a repeated sum. */
  function Times(a: real, n: nat): real {
    if n == 0 then 0.0 else Times(a, n - 1) + a
  }

  lemma {:induction false} TimesIsProduct(a: real, n: nat)
    ensures Times(a, n) == a * n as real
  {
    if n > 0 {
      TimesIsProduct(a, n - 1);
    }
  }

  function Pow2(n: nat): (r: nat)
    ensures r >= 1
  {
    if n == 0 then 1 else 2 * Pow2(n - 1)
  }

  /** What the loop does after an outcome: return it, sleep and go round again, give up with
      a status (and perhaps ask the local model instead), or let an exception escape. */
  datatype Verdict = Done | Retry(wait: real) | GiveUp(status: nat, canFallBack: bool) | Escape

  function Decide(p: Policy, o: Outcome, attempts: nat, timeouts: nat): Verdict
    requires attempts >= 1
  {
    match Taken(o)
    case OnResponse => Done
    case OnTimeout => if timeouts + 1 > 1 then GiveUp(504, false) else Retry(p.linear)
    case OnRateLimit => if attempts > p.max429 then GiveUp(429, true) else Retry(Times(p.base, Pow2(attempts - 1)))
    case OnServer => if attempts > p.max5xx then GiveUp(502, true) else Retry(Times(p.linear, attempts))
    case OnAdapter => if attempts > p.max5xx then GiveUp(502, true) else Retry(p.linear)
    case OnModelUnavailable => GiveUp(503, false)
    case OnAuth => Escape
    case Escapes => Escape
  }

  function Timeouts(o: Outcome, timeouts: nat): nat {
    if Taken(o) == OnTimeout then timeouts + 1 else timeouts
  }

  /** Between iterations at most one time-out has been retried, and only that one can have
      taken the loop past the larger of the two retry limits. */
  predicate Looping(p: Policy, attempts: nat, timeouts: nat) {
    timeouts <= 1 && attempts <= Most(p) + timeouts
  }

  /** Going round again keeps the loop within its limits. */
  lemma RetryKeepsLooping(p: Policy, o: Outcome, attempts: nat, timeouts: nat)
    requires Looping(p, attempts, timeouts) && Decide(p, o, attempts + 1, timeouts).Retry?
    ensures Looping(p, attempts + 1, Timeouts(o, timeouts))
  {
  }

  /** The outcome of a whole loop: how it ended, adapter calls made, seconds slept. */
  datatype Result = Result(verdict: Verdict, calls: nat, slept: real)

  /** The rest of the loop after some attempts, for an adapter whose n-th call comes to adapter(n). */
  function Loop(p: Policy, adapter: nat -> Outcome, attempts: nat, timeouts: nat, slept: real): Result
    requires Looping(p, attempts, timeouts)
    decreases Most(p) + 2 - attempts
  {
    var o := adapter(attempts + 1);
    var v := Decide(p, o, attempts + 1, timeouts);
    if v.Retry? then
      RetryKeepsLooping(p, o, attempts, timeouts);
      Loop(p, adapter, attempts + 1, Timeouts(o, timeouts), slept + v.wait)
    else Result(v, attempts + 1, slept)
  }

  /** One round of the loop. */
  lemma LoopStep(p: Policy, adapter: nat -> Outcome, attempts: nat, timeouts: nat, slept: real)
    requires Looping(p, attempts, timeouts)
    ensures var o := adapter(attempts + 1);
            var v := Decide(p, o, attempts + 1, timeouts);
            if v.Retry? then
              && Looping(p, attempts + 1, Timeouts(o, timeouts))
              && Loop(p, adapter, attempts, timeouts, slept) == Loop(p, adapter, attempts + 1, Timeouts(o, timeouts), slept + v.wait)
            else Loop(p, adapter, attempts, timeouts, slept) == Result(v, attempts + 1, slept)
  {
    if Decide(p, adapter(attempts + 1), attempts + 1, timeouts).Retry? {
      RetryKeepsLooping(p, adapter(attempts + 1), attempts, timeouts);
    }
  }

  // ----- Bounds -----

  /** What n exponential waits come to: base + 2 base + ... */
  function Waits(base: real, n: nat): real {
    if n == 0 then 0.0 else Waits(base, n - 1) + Times(base, Pow2(n - 1))
  }

  lemma {:induction false} TimesAdds(a: real, m: nat, n: nat)
    ensures Times(a, m + n) == Times(a, m) + Times(a, n)
  {
    if n > 0 {
      TimesAdds(a, m, n - 1);
    }
  }

  lemma {:induction false} WaitsClosedForm(base: real, n: nat)
    ensures Waits(base, n) == Times(base, Pow2(n) - 1)
  {
    if n > 0 {
      WaitsClosedForm(base, n - 1);
      TimesAdds(base, Pow2(n - 1) - 1, Pow2(n - 1));
    }
  }

  /** The longest wait after attempt number n: while rate limits are still retried the exponential
      one, and from then on that of a server error. */
  function LongestWait(p: Policy, n: nat): real
    requires n >= 1
  {
    if n <= p.max429 then Times(p.base, Pow2(n - 1)) else Times(p.linear, n)
  }

  /** What the longest waits of the first n attempts come to. */
  function LongestWaits(p: Policy, n: nat): real {
    if n == 0 then 0.0 else LongestWaits(p, n - 1) + LongestWait(p, n)
  }

  /** The most that can have been slept after some attempts: the attempt past both limits can only
      have timed out. */
  function SleepBound(p: Policy, attempts: nat): real {
    if attempts <= Most(p) then LongestWaits(p, attempts) else LongestWaits(p, Most(p)) + p.linear
  }

  lemma {:induction false} AtMostPow2(n: nat)
    ensures n + 1 <= Pow2(n)
  {
    if n > 0 {
      AtMostPow2(n - 1);
    }
  }

  lemma {:induction false} TimesGrows(a: real, b: real, m: nat, n: nat)
    requires 0.0 <= a <= b && m <= n
    ensures 0.0 <= Times(a, m) <= Times(b, n)
  {
    if n > 0 {
      TimesGrows(a, b, if m == n then m - 1 else m, n - 1);
    }
  }

  /** A linear wait is no longer than the longest one. */
  lemma LinearAtMostLongest(p: Policy, n: nat, k: nat)
    requires n >= 1 && k <= n && p.base >= p.linear >= 0.0
    ensures 0.0 <= Times(p.linear, k) <= LongestWait(p, n)
  {
    AtMostPow2(n - 1);
    TimesGrows(p.linear, p.base, k, Pow2(n - 1));
    TimesGrows(p.linear, p.linear, k, n);
  }

  /** No wait is longer than the longest, and past both limits only one time-out is waited for. */
  lemma WaitAtMostLongest(p: Policy, o: Outcome, n: nat, timeouts: nat)
    requires n >= 1 && p.base >= p.linear >= 0.0 && Decide(p, o, n, timeouts).Retry?
    ensures var wait := Decide(p, o, n, timeouts).wait;
            0.0 <= wait && if n <= Most(p) then wait <= LongestWait(p, n) else wait == p.linear
  {
    LinearAtMostLongest(p, n, n);
    LinearAtMostLongest(p, n, 1);
    assert Times(p.linear, 1) == p.linear;
  }

  lemma {:induction false} LoopIsBounded(p: Policy, adapter: nat -> Outcome, attempts: nat, timeouts: nat, slept: real)
    requires Looping(p, attempts, timeouts) && p.base >= p.linear >= 0.0 && slept <= SleepBound(p, attempts)
    ensures Loop(p, adapter, attempts, timeouts, slept).calls <= Most(p) + 2
    ensures Loop(p, adapter, attempts, timeouts, slept).slept <= SleepBound(p, Most(p) + 1)
    decreases Most(p) + 2 - attempts
  {
    var o := adapter(attempts + 1);
    var v := Decide(p, o, attempts + 1, timeouts);
    LoopStep(p, adapter, attempts, timeouts, slept);
    if v.Retry? {
      WaitAtMostLongest(p, o, attempts + 1, timeouts);
      LoopIsBounded(p, adapter, attempts + 1, Timeouts(o, timeouts), slept + v.wait);
    } else {
      SleepBoundGrows(p, attempts);
    }
  }

  lemma {:induction false} SleepBoundGrows(p: Policy, attempts: nat)
    requires p.base >= p.linear >= 0.0 && attempts <= Most(p) + 1
    ensures SleepBound(p, attempts) <= SleepBound(p, Most(p) + 1)
    decreases Most(p) + 1 - attempts
  {
    if attempts < Most(p) + 1 {
      LinearAtMostLongest(p, attempts + 1, 0);
      SleepBoundGrows(p, attempts + 1);
    }
  }

  /** (m + 1) + (m + 2) + ... + n */
  function SumAfter(m: nat, n: nat): nat {
    if n <= m then 0 else SumAfter(m, n - 1) + n
  }

  lemma {:induction false} LongestAreWaits(p: Policy, n: nat)
    requires n <= p.max429
    ensures LongestWaits(p, n) == Waits(p.base, n)
  {
    if n > 0 {
      LongestAreWaits(p, n - 1);
    }
  }

  lemma {:induction false} LongestClosedForm(p: Policy, n: nat)
    requires n >= p.max429
    ensures LongestWaits(p, n) == Waits(p.base, p.max429) + Times(p.linear, SumAfter(p.max429, n))
  {
    if n == p.max429 {
      LongestAreWaits(p, n);
    } else {
      LongestClosedForm(p, n - 1);
      TimesAdds(p.linear, SumAfter(p.max429, n - 1), n);
    }
  }

  /** base * (2^R - 1) + linear * ((R + 1) + ... + M) + linear, where R is the limit for rate limits
      and M the larger of the two. */
  function ExactBound(p: Policy): real {
    Times(p.base, Pow2(p.max429) - 1) + Times(p.linear, SumAfter(p.max429, Most(p))) + p.linear
  }

  /** base * (2^M - 1) + linear */
  function RoundBound(p: Policy): real {
    Times(p.base, Pow2(Most(p)) - 1) + p.linear
  }

  lemma SleepBoundClosedForm(p: Policy)
    ensures SleepBound(p, Most(p) + 1) == ExactBound(p)
  {
    LongestClosedForm(p, Most(p));
    WaitsClosedForm(p.base, p.max429);
  }

  lemma ExactAtMostRound(p: Policy)
    requires p.base >= p.linear >= 0.0
    ensures SleepBound(p, Most(p) + 1) <= RoundBound(p)
  {
    LongestAtMostWaits(p, Most(p));
    WaitsClosedForm(p.base, Most(p));
  }

  lemma {:induction false} LongestAtMostWaits(p: Policy, n: nat)
    requires p.base >= p.linear >= 0.0
    ensures LongestWaits(p, n) <= Waits(p.base, n)
  {
    if n > 0 {
      LongestAtMostWaits(p, n - 1);
      AtMostPow2(n - 1);
      TimesGrows(p.linear, p.base, n, Pow2(n - 1));
    }
  }

  /** Whatever the adapter does, a request makes at most M + 2 adapter calls, where M is the larger
      retry limit, and sleeps no more than the exact bound, which is at most
      base * (2^M - 1) + linear. */
  lemma {:induction false} RetryIsBounded(p: Policy, adapter: nat -> Outcome)
    requires p.base >= p.linear >= 0.0
    ensures var r := Loop(p, adapter, 0, 0, 0.0);
            && 1 <= r.calls <= Most(p) + 2
            && r.slept <= ExactBound(p) <= RoundBound(p)
            && !r.verdict.Retry?
  {
    LoopIsBounded(p, adapter, 0, 0, 0.0);
    LoopEnds(p, adapter, 0, 0, 0.0);
    SleepBoundClosedForm(p);
    ExactAtMostRound(p);
  }

  lemma {:induction false} LoopEnds(p: Policy, adapter: nat -> Outcome, attempts: nat, timeouts: nat, slept: real)
    requires Looping(p, attempts, timeouts)
    ensures var r := Loop(p, adapter, attempts, timeouts, slept);
            r.calls > attempts && !r.verdict.Retry?
    decreases Most(p) + 2 - attempts
  {
    var o := adapter(attempts + 1);
    var v := Decide(p, o, attempts + 1, timeouts);
    LoopStep(p, adapter, attempts, timeouts, slept);
    if v.Retry? {
      LoopEnds(p, adapter, attempts + 1, Timeouts(o, timeouts), slept + v.wait);
    }
  }

  /** Rate-limited as long as that is retried, then answered with server errors, then timing out. */
  function Worst(p: Policy): nat -> Outcome {
    n => if n <= p.max429 then RateLimit else if n <= p.max5xx then Server else TimedOut
  }

  /** Both bounds are reached, whatever the limits and the waits are. */
  lemma WorstReachesBounds(p: Policy)
    ensures Loop(p, Worst(p), 0, 0, 0.0) == Result(GiveUp(504, false), Most(p) + 2, ExactBound(p))
  {
    WorstFrom(p, 0, 0.0);
    SleepBoundClosedForm(p);
  }

  lemma {:induction false} WorstFrom(p: Policy, attempts: nat, slept: real)
    requires attempts <= Most(p) && slept == LongestWaits(p, attempts)
    ensures Loop(p, Worst(p), attempts, 0, slept)
         == Result(GiveUp(504, false), Most(p) + 2, SleepBound(p, Most(p) + 1))
    decreases Most(p) - attempts
  {
    if attempts < Most(p) {
      assert Decide(p, Worst(p)(attempts + 1), attempts + 1, 0) == Retry(LongestWait(p, attempts + 1));
      WorstFrom(p, attempts + 1, slept + LongestWait(p, attempts + 1));
    } else {
      WorstLastCalls(p, slept);
    }
  }

  lemma WorstLastCalls(p: Policy, slept: real)
    ensures Loop(p, Worst(p), Most(p), 0, slept) == Result(GiveUp(504, false), Most(p) + 2, slept + p.linear)
  {
    var m := Most(p);
    assert Worst(p)(m + 1) == TimedOut && Worst(p)(m + 2) == TimedOut;
    assert Loop(p, Worst(p), m + 1, 1, slept + p.linear) == Result(GiveUp(504, false), m + 2, slept + p.linear);
  }

  // ----- Where a loop ends -----

  /** Any exception of the adapter's hierarchy other than a rate limit. */
  predicate IsOtherError(o: Outcome) {
    o.Server? || o.Connection? || o.AdapterTimeout? || o.ModelUnavailable? || o.Auth? || o.OtherAdapter?
  }

  /** The n-th call ends the loop: it is answered, it raises something unexpected, it is the second to
      time out, or its retries are used up. */
  ghost predicate EndsAt(p: Policy, adapter: nat -> Outcome, n: nat) {
    || adapter(n).Response?
    || adapter(n).Unexpected?
    || (adapter(n).TimedOut? && TimedOutBefore(adapter, n))
    || (adapter(n).RateLimit? && n > p.max429)
    || (IsOtherError(adapter(n)) && n > p.max5xx)
  }

  ghost predicate TimedOutBefore(adapter: nat -> Outcome, n: nat) {
    exists m: nat :: 1 <= m < n && adapter(m).TimedOut?
  }

  /** How long the loop sleeps after the n-th call, when it goes on. */
  function WaitAfter(p: Policy, o: Outcome, n: nat): real
    requires n >= 1
  {
    if o.RateLimit? then Times(p.base, Pow2(n - 1))
    else if o.Server? || o.Connection? then Times(p.linear, n)
    else p.linear
  }

  /** What it sleeps after calls a + 1 to b. */
  function WaitsBetween(p: Policy, adapter: nat -> Outcome, a: nat, b: nat): real
    decreases b - a
  {
    if a >= b then 0.0 else WaitAfter(p, adapter(a + 1), a + 1) + WaitsBetween(p, adapter, a + 1, b)
  }

  /** How a loop ends whose last call comes to o. */
  function EndingOf(o: Outcome): Verdict {
    if o.Response? then Done
    else if o.Unexpected? then Escape
    else if o.TimedOut? then GiveUp(504, false)
    else if o.RateLimit? then GiveUp(429, true)
    else GiveUp(502, true)
  }

  /** timeouts counts the calls so far that timed out. */
  ghost predicate CountsTimeouts(adapter: nat -> Outcome, attempts: nat, timeouts: nat) {
    timeouts <= 1 && (timeouts == 1 <==> TimedOutBefore(adapter, attempts + 1))
  }

  lemma DecidesIff(p: Policy, adapter: nat -> Outcome, attempts: nat, timeouts: nat)
    requires CountsTimeouts(adapter, attempts, timeouts)
    ensures var o, n := adapter(attempts + 1), attempts + 1;
            Decide(p, o, n, timeouts) == if EndsAt(p, adapter, n) then EndingOf(o) else Retry(WaitAfter(p, o, n))
  {
  }

  lemma TimeoutsCounted(adapter: nat -> Outcome, attempts: nat, timeouts: nat)
    requires CountsTimeouts(adapter, attempts, timeouts)
    requires !(adapter(attempts + 1).TimedOut? && TimedOutBefore(adapter, attempts + 1))
    ensures CountsTimeouts(adapter, attempts + 1, Timeouts(adapter(attempts + 1), timeouts))
  {
    var n := attempts + 1;
    assert adapter(n).TimedOut? ==> TimedOutBefore(adapter, n + 1);
    if TimedOutBefore(adapter, n + 1) && !adapter(n).TimedOut? {
      var m: nat :| 1 <= m < n + 1 && adapter(m).TimedOut?;
      assert m < n;
    }
    if TimedOutBefore(adapter, n) {
      var m: nat :| 1 <= m < n && adapter(m).TimedOut?;
      assert m < n + 1;
    }
  }

  lemma {:induction false} LoopFrom(p: Policy, adapter: nat -> Outcome, attempts: nat, timeouts: nat, slept: real)
    requires Looping(p, attempts, timeouts) && CountsTimeouts(adapter, attempts, timeouts)
    ensures var r := Loop(p, adapter, attempts, timeouts, slept);
            && r.calls > attempts
            && EndsAt(p, adapter, r.calls) && (forall m: nat :: attempts < m < r.calls ==> !EndsAt(p, adapter, m))
            && r.verdict == EndingOf(adapter(r.calls))
            && r.slept == slept + WaitsBetween(p, adapter, attempts, r.calls - 1)
    decreases Most(p) + 2 - attempts
  {
    var o, n := adapter(attempts + 1), attempts + 1;
    LoopStep(p, adapter, attempts, timeouts, slept);
    DecidesIff(p, adapter, attempts, timeouts);
    if !EndsAt(p, adapter, n) {
      TimeoutsCounted(adapter, attempts, timeouts);
      LoopFrom(p, adapter, n, Timeouts(o, timeouts), slept + WaitAfter(p, o, n));
    }
  }

  /** The loop ends at the first call that ends it, with the status of that call's outcome, and has
      slept what the calls before it ask for. */
  lemma LoopEndsAtFirst(p: Policy, adapter: nat -> Outcome)
    ensures var r := Loop(p, adapter, 0, 0, 0.0);
            && r.calls >= 1
            && EndsAt(p, adapter, r.calls) && (forall m: nat :: 1 <= m < r.calls ==> !EndsAt(p, adapter, m))
            && r.verdict == EndingOf(adapter(r.calls))
            && r.slept == WaitsBetween(p, adapter, 0, r.calls - 1)
  {
    assert !TimedOutBefore(adapter, 1);
    LoopFrom(p, adapter, 0, 0, 0.0);
  }

  // ----- The request -----

  /** How a request ends for its caller. */
  datatype Reply = Served(byLocal: bool) | HttpError(status: nat) | Raised

  /** The reply of the local model asked in place of the other one; any exception is a 503. */
  function FallbackReply(o: Outcome): Reply {
    if o.Response? then Served(true) else HttpError(503)
  }

  function LoopReply(v: Verdict, byLocal: bool): Reply {
    match v
    case Done => Served(byLocal)
    case GiveUp(status, _) => HttpError(status)
    case _ => Raised
  }

  /** The local model is asked in place of Claude, after a refusal or a loop that ended with verdict v. */
  predicate FallsBack(isClaude: bool, lowSensitivity: bool, refused: bool, v: Verdict) {
    isClaude && lowSensitivity && (refused || (v.GiveUp? && v.canFallBack))
  }

  function RequestReply(isClaude: bool, lowSensitivity: bool, refused: bool, v: Verdict, fallback: Outcome): Reply {
    if FallsBack(isClaude, lowSensitivity, refused, v) then FallbackReply(fallback)
    else if refused then HttpError(503)
    else LoopReply(v, !isClaude)
  }

  /** The local model is asked exactly for a request of low sensitivity to Claude whose breaker refused
      it, or whose last call ended in a rate limit or another adapter error: never after a time-out. */
  lemma LocalIsAskedIff(p: Policy, adapter: nat -> Outcome, isClaude: bool, lowSensitivity: bool, refused: bool)
    ensures var r := Loop(p, adapter, 0, 0, 0.0);
            var o := adapter(r.calls);
            FallsBack(isClaude, lowSensitivity, refused, r.verdict) <==>
            isClaude && lowSensitivity && (refused || o.RateLimit? || IsOtherError(o))
  {
    LoopEndsAtFirst(p, adapter);
  }

  /** What a request is answered with, by how its last call came out: 504 after a second time-out, 429
      after a rate limit and 502 after any other adapter error, unless the local model was asked; and
      503 when the breaker refused it or the local model failed. */
  lemma ReplyByOutcome(p: Policy, adapter: nat -> Outcome, isClaude: bool, lowSensitivity: bool, refused: bool, fallback: Outcome)
    ensures var r := Loop(p, adapter, 0, 0, 0.0);
            var o, reply := adapter(r.calls), RequestReply(isClaude, lowSensitivity, refused, r.verdict, fallback);
            var asked := isClaude && lowSensitivity;
            && (refused || o.RateLimit? || IsOtherError(o) ==>
                  asked ==> reply == if fallback.Response? then Served(true) else HttpError(503))
            && (refused && !asked ==> reply == HttpError(503))
            && (!refused && o.Response? ==> reply == Served(!isClaude))
            && (!refused && o.TimedOut? ==> reply == HttpError(504))
            && (!refused && o.RateLimit? && !asked ==> reply == HttpError(429))
            && (!refused && IsOtherError(o) && !asked ==> reply == HttpError(502))
            && (!refused && o.Unexpected? ==> reply == Raised)
  {
    LoopEndsAtFirst(p, adapter);
  }

  /** What a finished loop records on the request's own breaker. */
  function Recorded(cfg: Settings, b: Breaker, v: Verdict, now: real): Breaker {
    match v
    case Done => Succeeded(b, now)
    case GiveUp(_, _) => Failed(cfg, b, now)
    case _ => b
  }

  function RecordedFallback(cfg: Settings, b: Breaker, o: Outcome, now: real): Breaker {
    if o.Response? then Succeeded(b, now) else Failed(cfg, b, now)
  }

  class Router {
    const claude: CircuitBreaker
    const local: CircuitBreaker
    const policy: Policy

    constructor (claude: CircuitBreaker, local: CircuitBreaker, policy: Policy)
      ensures this.claude == claude && this.local == local && this.policy == policy
    {
      this.claude, this.local, this.policy := claude, local, policy;
    }

    /** An undisturbed request. adapter and fallback are what the calls come to; t0, t1 and t2
        are the times of the breaker check, of the loop's end and of the fallback's end. */
    method ExecuteWithRetry(isClaude: bool, lowSensitivity: bool, adapter: nat -> Outcome, fallback: Outcome,
                            t0: real, t1: real, t2: real)
        returns (reply: Reply, calls: nat, slept: real)
      requires claude != local
      modifies claude, local
      ensures
        var own, other := if isClaude then claude else local, if isClaude then local else claude;
        var seen := Checked(own.Config(), old(own.Value()), t0);
        var r := Loop(policy, adapter, 0, 0, 0.0);
        var open := seen.state == Open;
        && own.Value() == (if open then seen else Recorded(own.Config(), seen, r.verdict, t1))
        && other.Value() == (if FallsBack(isClaude, lowSensitivity, open, r.verdict) then
                               RecordedFallback(other.Config(), old(other.Value()), fallback, t2)
                             else old(other.Value()))
        && reply == RequestReply(isClaude, lowSensitivity, open, r.verdict, fallback)
        && calls == (if open then 0 else r.calls) && slept == (if open then 0.0 else r.slept)
    {
      var cb := if isClaude then claude else local;
      calls, slept := 0, 0.0;
      var open := cb.IsOpen(t0);
      var mayFallBack := isClaude && lowSensitivity;
      if open {
        if mayFallBack {
          reply := FallbackToLocal(fallback, t2);
        } else {
          reply := HttpError(503);
        }
        return;
      }
      var verdict;
      verdict, calls, slept := CallWithRetry(cb, adapter, t1);
      if verdict.GiveUp? && verdict.canFallBack && mayFallBack {
        reply := FallbackToLocal(fallback, t2);
      } else {
        reply := LoopReply(verdict, !isClaude);
      }
    }

    /** The retry loop, up to where its outcome is recorded on the breaker. */
    method CallWithRetry(cb: CircuitBreaker, adapter: nat -> Outcome, now: real)
        returns (verdict: Verdict, calls: nat, slept: real)
      modifies cb
      ensures Result(verdict, calls, slept) == Loop(policy, adapter, 0, 0, 0.0)
      ensures cb.Value() == Recorded(cb.Config(), old(cb.Value()), verdict, now)
    {
      slept := 0.0;
      var totalAttempts, timeoutRetries := 0, 0;
      ghost var expected := Loop(policy, adapter, 0, 0, 0.0);
      while true
        invariant Looping(policy, totalAttempts, timeoutRetries)
        invariant Loop(policy, adapter, totalAttempts, timeoutRetries, slept) == expected
        invariant cb.Value() == old(cb.Value())
        decreases Most(policy) + 2 - totalAttempts
      {
        LoopStep(policy, adapter, totalAttempts, timeoutRetries, slept);
        totalAttempts := totalAttempts + 1;
        var outcome := adapter(totalAttempts);
        verdict := TryOnce(cb, outcome, totalAttempts, timeoutRetries, now);
        if !verdict.Retry? {
          return verdict, totalAttempts, slept;
        }
        timeoutRetries := Timeouts(outcome, timeoutRetries);
        slept := slept + verdict.wait;
      }
    }

    /** The try statement in the loop: what its branches record, and how long they sleep. */
    method TryOnce(cb: CircuitBreaker, outcome: Outcome, totalAttempts: nat, timeoutRetries: nat, now: real)
        returns (verdict: Verdict)
      requires totalAttempts >= 1
      modifies cb
      ensures verdict == Decide(policy, outcome, totalAttempts, timeoutRetries)
      ensures cb.Value() == Recorded(cb.Config(), old(cb.Value()), verdict, now)
    {
      LastClausesNeverRun(outcome);
      match Taken(outcome) {
        case OnResponse =>
          cb.RecordSuccess(now);
          verdict := Done;
        case OnTimeout =>
          if timeoutRetries + 1 > 1 {
            cb.RecordFailure(now);
            return GiveUp(504, false);
          }
          verdict := Retry(policy.linear);
        case OnRateLimit =>
          if totalAttempts > policy.max429 {
            cb.RecordFailure(now);
            return GiveUp(429, true);
          }
          verdict := Retry(Times(policy.base, Pow2(totalAttempts - 1)));
        case OnServer =>
          if totalAttempts > policy.max5xx {
            cb.RecordFailure(now);
            return GiveUp(502, true);
          }
          verdict := Retry(Times(policy.linear, totalAttempts));
        case OnAdapter =>
          if totalAttempts > policy.max5xx {
            cb.RecordFailure(now);
            return GiveUp(502, true);
          }
          verdict := Retry(policy.linear);
        case OnModelUnavailable => assert false;
        case OnAuth => assert false;
        case Escapes => verdict := Escape;
      }
    }

    method FallbackToLocal(fallback: Outcome, now: real) returns (reply: Reply)
      modifies local
      ensures reply == FallbackReply(fallback)
      ensures local.Value() == RecordedFallback(local.Config(), old(local.Value()), fallback, now)
    {
      if fallback.Response? {
        local.RecordSuccess(now);
        reply := Served(true);
      } else {
        local.RecordFailure(now);
        reply := HttpError(503);
      }
    }
  }
}
