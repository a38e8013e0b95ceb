/** The gateway's rate limiter: GET, SETEX and INCR on one counter key, interleaved between
    requests, with the key's expiry. */
module RateLimiter {
  import opened Options

  /** The key's value, and whether it has a time to live: INCR on a missing key creates it
      without one. */
  datatype Counter = Counter(value: nat, expires: bool)

  /** Where a request is after its GET: about to SETEX, about to INCR, or answered. */
  datatype Phase = MustInit | MustIncr | Answered(allowed: bool)

  /** admitted, setexes and creations count what happened so far: admitted requests, SETEX
      steps, and steps that made a new counter. */
  datatype Limiter = Limiter(
    counter: Option<Counter>, requests: map<nat, Phase>, admitted: nat, setexes: nat, creations: nat)

  datatype Event = Get(id: nat) | SetEx(id: nat) | Incr(id: nat) | Expire

  function Next(limit: nat, s: Limiter, e: Event): Limiter {
    match e
    case Get(id) =>
      if id in s.requests then s
      else
        var phase := match s.counter
          case None => MustInit
          case Some(c) => if c.value >= limit then Answered(false) else MustIncr;
        s.(requests := s.requests[id := phase])
    case SetEx(id) =>
      if id in s.requests && s.requests[id] == MustInit then
        Limiter(Some(Counter(1, true)), s.requests[id := Answered(true)], s.admitted + 1, s.setexes + 1, s.creations + 1)
      else s
    case Incr(id) =>
      if id in s.requests && s.requests[id] == MustIncr then
        var c := if s.counter.Some? then s.counter.value else Counter(0, false);
        var allowed := c.value + 1 <= limit;
        Limiter(Some(c.(value := c.value + 1)), s.requests[id := Answered(allowed)],
                if allowed then s.admitted + 1 else s.admitted, s.setexes, if s.counter.Some? then s.creations else s.creations + 1)
      else s
    case Expire =>
      if s.counter.Some? && s.counter.value.expires then s.(counter := None) else s
  }

  function Initial(): Limiter {
    Limiter(None, map[], 0, 0, 0)
  }

  function Run(limit: nat, s: Limiter, events: seq<Event>): Limiter {
    if events == [] then s else Next(limit, Run(limit, s, events[..|events| - 1]), events[|events| - 1])
  }

  lemma {:induction false} RunConcat(limit: nat, s: Limiter, a: seq<Event>, b: seq<Event>)
    ensures Run(limit, s, a + b) == Run(limit, Run(limit, s, a), b)
  {
    if b == [] {
      assert a + b == a;
    } else {
      assert (a + b)[..|a + b| - 1] == a + b[..|b| - 1];
      RunConcat(limit, s, a, b[..|b| - 1]);
    }
  }

  lemma RunOne(limit: nat, s: Limiter, e: Event)
    ensures Run(limit, s, [e]) == Next(limit, s, e)
  {
    assert [e][..0] == [];
  }

  // ----- The limiter as it is written: one undisturbed call -----

  class TokenBucketRateLimiter {
    var counter: Option<Counter>

    constructor ()
      ensures counter == None
    {
      counter := None;
    }

    method IsAllowed(limit: nat) returns (allowed: bool, remaining: int)
      modifies this
      ensures counter == Some(CounterAfter(old(counter), limit)) && allowed == Admits(old(counter), limit)
      ensures remaining == Remaining(old(counter), limit)
    {
      var current := counter;
      if current == None {
        counter := Some(Counter(1, true));
        return true, limit - 1;
      }
      var count := current.value.value;
      if count >= limit {
        return false, 0;
      }
      counter := Some(counter.value.(value := count + 1));
      var newCount := count + 1;
      remaining := if limit - newCount > 0 then limit - newCount else 0;
      return newCount <= limit, remaining;
    }
  }

  function CounterAfter(c: Option<Counter>, limit: nat): Counter {
    match c
    case None => Counter(1, true)
    case Some(c) => if c.value >= limit then c else c.(value := c.value + 1)
  }

  predicate Admits(c: Option<Counter>, limit: nat) {
    c == None || c.value.value < limit
  }

  function Remaining(c: Option<Counter>, limit: nat): int {
    match c
    case None => limit - 1
    case Some(c) => if c.value >= limit then 0 else limit - c.value - 1
  }

  /** An undisturbed call is the three steps of one request without others between them. */
  lemma CallIsGetThenStep(limit: nat, s: Limiter, id: nat)
    requires id !in s.requests
    ensures var s' := Run(limit, s, [Get(id), SetEx(id), Incr(id)]);
            && s'.counter == Some(CounterAfter(s.counter, limit))
            && id in s'.requests && s'.requests[id] == Answered(Admits(s.counter, limit))
            && s'.admitted == s.admitted + if Admits(s.counter, limit) then 1 else 0
  {
    RunOne(limit, s, Get(id));
    RunConcat(limit, s, [Get(id)], [SetEx(id)]);
    RunOne(limit, Run(limit, s, [Get(id)]), SetEx(id));
    RunConcat(limit, s, [Get(id), SetEx(id)], [Incr(id)]);
    RunOne(limit, Run(limit, s, [Get(id), SetEx(id)]), Incr(id));
    assert [Get(id)] + [SetEx(id)] == [Get(id), SetEx(id)];
    assert [Get(id), SetEx(id)] + [Incr(id)] == [Get(id), SetEx(id), Incr(id)];
  }

  /** The counter after n undisturbed calls, and how many of them were admitted. */
  function CounterAfterCalls(limit: nat, n: nat): Option<Counter> {
    if n == 0 then None else Some(CounterAfter(CounterAfterCalls(limit, n - 1), limit))
  }

  function AdmittedOf(limit: nat, n: nat): nat {
    if n == 0 then 0 else AdmittedOf(limit, n - 1) + if Admits(CounterAfterCalls(limit, n - 1), limit) then 1 else 0
  }

  /** One after the other, exactly min(n, limit) of n requests are admitted, but a limit of 0
      still admits one: the first request is never compared with the limit. */
  lemma {:induction false} SequentialIsExact(limit: nat, n: nat)
    ensures var cap := if limit == 0 then 1 else limit;
            && AdmittedOf(limit, n) == (if n < cap then n else cap)
            && (n > 0 ==> CounterAfterCalls(limit, n) == Some(Counter(if n < cap then n else cap, true)))
  {
    if n > 0 {
      SequentialIsExact(limit, n - 1);
    }
  }

  function Min(a: nat, b: nat): nat {
    if a < b then a else b
  }

  /** The counter after n more undisturbed calls. */
  function After(c: Counter, limit: nat, n: nat): Counter {
    if n == 0 then c else CounterAfter(Some(After(c, limit, n - 1)), limit)
  }

  /** The remaining count that a call reports is how many more undisturbed calls will be admitted. */
  lemma {:induction false} RemainingIsWhatIsLeft(c: Option<Counter>, limit: nat, n: nat)
    ensures Admits(Some(After(CounterAfter(c, limit), limit, n)), limit) <==> n < Remaining(c, limit)
  {
    AfterCounts(CounterAfter(c, limit), limit, n);
  }

  lemma {:induction false} AfterCounts(c: Counter, limit: nat, n: nat)
    ensures After(c, limit, n).value == if c.value >= limit then c.value else Min(c.value + n, limit)
  {
    if n > 0 {
      AfterCounts(c, limit, n - 1);
    }
  }

  // ----- Every interleaving -----

  /** Each counter ever made admits at most limit requests, the current one at most its value. */
  ghost predicate WithinBudget(limit: nat, s: Limiter) {
    match s.counter
    case None => s.admitted <= limit * s.creations
    case Some(c) => s.creations >= 1 && s.admitted <= limit * (s.creations - 1) + Min(c.value, limit)
  }

  lemma StepKeepsBudget(limit: nat, s: Limiter, e: Event)
    requires limit >= 1 && WithinBudget(limit, s)
    ensures WithinBudget(limit, Next(limit, s, e))
  {
    assert limit * (s.creations + 1) == limit * s.creations + limit;
    if s.creations >= 1 {
      assert limit * s.creations == limit * (s.creations - 1) + limit;
    }
  }

  lemma {:induction false} RunKeepsBudget(limit: nat, events: seq<Event>)
    requires limit >= 1
    ensures WithinBudget(limit, Run(limit, Initial(), events))
  {
    if events != [] {
      RunKeepsBudget(limit, events[..|events| - 1]);
      StepKeepsBudget(limit, Run(limit, Initial(), events[..|events| - 1]), events[|events| - 1]);
    }
  }

  lemma BudgetIsLimit(limit: nat, s: Limiter)
    requires WithinBudget(limit, s)
    ensures s.admitted <= limit * s.creations
  {
    if s.counter.Some? {
      assert limit * s.creations == limit * (s.creations - 1) + limit;
    }
  }

  /** In every interleaving of GET, SETEX, INCR and expiry, at most limit requests are admitted
      for each counter that was made. */
  lemma {:induction false} AdmittedPerCounter(limit: nat, events: seq<Event>)
    requires limit >= 1
    ensures var s := Run(limit, Initial(), events);
            WithinBudget(limit, s) && s.admitted <= limit * s.creations
  {
    RunKeepsBudget(limit, events);
    BudgetIsLimit(limit, Run(limit, Initial(), events));
  }

  ghost predicate NoExpiry(events: seq<Event>) {
    forall i :: 0 <= i < |events| ==> events[i] != Expire
  }

  /** Without expiry only SETEX makes counters. */
  lemma {:induction false} OnlySetExCreates(limit: nat, events: seq<Event>)
    requires NoExpiry(events)
    ensures var s := Run(limit, Initial(), events);
            && s.creations == s.setexes
            && (s.counter == None ==> forall id :: id in s.requests ==> s.requests[id] == MustInit)
  {
    if events != [] {
      assert forall i :: 0 <= i < |events| - 1 ==> events[..|events| - 1][i] == events[i];
      OnlySetExCreates(limit, events[..|events| - 1]);
      assert events[|events| - 1] != Expire;
    }
  }

  /** Within one window, at most limit requests are admitted for each SETEX, so at most limit
      when only one request initialises the counter. */
  lemma AdmittedPerSetEx(limit: nat, events: seq<Event>)
    requires limit >= 1 && NoExpiry(events)
    ensures var s := Run(limit, Initial(), events);
            s.admitted <= limit * s.setexes && (s.setexes <= 1 ==> s.admitted <= limit)
  {
    AdmittedPerCounter(limit, events);
    OnlySetExCreates(limit, events);
    var s := Run(limit, Initial(), events);
    if s.setexes == 1 {
      assert limit * 1 == limit;
    }
  }

  // ----- The bound is reached -----

  predicate IsWaiting(s: Limiter, id: nat) {
    id in s.requests && s.requests[id] == MustInit
  }

  predicate IsNew(s: Limiter, id: nat) {
    id !in s.requests
  }

  /** The ids from a up to b are about to initialise the counter, those from next on have not arrived. */
  ghost predicate Waiting(s: Limiter, a: nat, b: nat, next: nat) {
    && a <= b <= next
    && (forall id: nat :: a <= id < b ==> IsWaiting(s, id))
    && (forall id: nat :: next <= id ==> IsNew(s, id))
  }

  lemma RunSnoc(limit: nat, s: Limiter, events: seq<Event>, e: Event)
    ensures Run(limit, s, events + [e]) == Next(limit, Run(limit, s, events), e)
  {
    assert (events + [e])[..|events|] == events;
  }

  /** A fresh request goes through GET and INCR below the limit. */
  lemma AdmitFresh(limit: nat, s: Limiter, a: nat, b: nat, next: nat)
    requires Waiting(s, a, b, next) && s.counter.Some? && s.counter.value.value < limit
    ensures var s' := Run(limit, s, [Get(next), Incr(next)]);
            && Waiting(s', a, b, next + 1)
            && s'.counter == Some(s.counter.value.(value := s.counter.value.value + 1))
            && s'.setexes == s.setexes && s'.admitted == s.admitted + 1
            && forall id :: IsWaiting(s', id) ==> IsWaiting(s, id)
  {
    assert IsNew(s, next);
    RunOne(limit, s, Get(next));
    RunSnoc(limit, s, [Get(next)], Incr(next));
    assert [Get(next)] + [Incr(next)] == [Get(next), Incr(next)];
    var s' := Run(limit, s, [Get(next), Incr(next)]);
    assert s'.requests == s.requests[next := Answered(true)];
    StillWaiting(s, s', a, b, next, next, next + 1);
  }

  /** The answer to one request disturbs no other. */
  lemma StillWaiting(s: Limiter, s': Limiter, a: nat, b: nat, next: nat, id: nat, next': nat)
    requires a <= b <= next <= next' && id < next' && !(a <= id < b)
    requires forall i: nat :: a <= i < b ==> IsWaiting(s, i)
    requires forall i: nat :: next <= i ==> IsNew(s, i)
    requires s'.requests == s.requests[id := Answered(true)]
    ensures Waiting(s', a, b, next')
  {
    forall i: nat | a <= i < b
      ensures IsWaiting(s', i)
    {
      assert IsWaiting(s, i);
    }
    forall i: nat | next' <= i
      ensures IsNew(s', i)
    {
      assert IsNew(s, i);
    }
  }

  /** One run after another. */
  lemma Then(limit: nat, s: Limiter, a: seq<Event>, b: seq<Event>) returns (events: seq<Event>)
    requires NoExpiry(a) && NoExpiry(b)
    ensures NoExpiry(events) && Run(limit, s, events) == Run(limit, Run(limit, s, a), b)
  {
    RunConcat(limit, s, a, b);
    events := a + b;
  }

  /** Fresh requests fill the counter up to the limit. */
  lemma {:induction false} FillUp(limit: nat, s: Limiter, a: nat, b: nat, next: nat) returns (events: seq<Event>, next': nat)
    requires Waiting(s, a, b, next) && s.counter.Some? && s.counter.value.value <= limit
    ensures var s' := Run(limit, s, events);
            && NoExpiry(events) && Waiting(s', a, b, next')
            && s'.counter == Some(s.counter.value.(value := limit)) && s'.setexes == s.setexes
            && s'.admitted == s.admitted + (limit - s.counter.value.value)
            && forall id :: IsWaiting(s', id) ==> IsWaiting(s, id)
    decreases limit - s.counter.value.value
  {
    if s.counter.value.value == limit {
      return [], next;
    }
    var pair := [Get(next), Incr(next)];
    AdmitFresh(limit, s, a, b, next);
    var later;
    later, next' := FillUp(limit, Run(limit, s, pair), a, b, next + 1);
    events := Then(limit, s, pair, later);
  }

  /** limit, n times over. */
  function Repeated(limit: nat, n: nat): nat {
    if n == 0 then 0 else Repeated(limit, n - 1) + limit
  }

  lemma {:induction false} RepeatedIsProduct(limit: nat, n: nat)
    ensures Repeated(limit, n) == limit * n
  {
    if n > 0 {
      RepeatedIsProduct(limit, n - 1);
    }
  }

  /** One waiting initialiser resets the counter, which then fills up again. */
  lemma OneTurn(limit: nat, s: Limiter, a: nat, b: nat, next: nat) returns (events: seq<Event>, next': nat)
    requires limit >= 1 && Waiting(s, a, b, next) && a < b
    ensures var s' := Run(limit, s, events);
            && NoExpiry(events) && Waiting(s', a + 1, b, next')
            && s'.setexes == s.setexes + 1 && s'.admitted == s.admitted + limit
  {
    assert IsWaiting(s, a);
    var s1 := Next(limit, s, SetEx(a));
    RunOne(limit, s, SetEx(a));
    StillWaiting(s, s1, a + 1, b, next, a, next);
    var fill;
    fill, next' := FillUp(limit, s1, a + 1, b, next);
    events := Then(limit, s, [SetEx(a)], fill);
  }

  /** n waiting initialisers take turns. */
  lemma {:induction false} TakeTurns(limit: nat, s: Limiter, a: nat, n: nat, next: nat) returns (events: seq<Event>)
    requires limit >= 1 && Waiting(s, a, a + n, next)
    ensures NoExpiry(events)
    ensures Run(limit, s, events).setexes == s.setexes + n
    ensures Run(limit, s, events).admitted == s.admitted + Repeated(limit, n)
    decreases n
  {
    if n == 0 {
      return [];
    }
    var turn, next' := OneTurn(limit, s, a, a + n, next);
    var later := TakeTurns(limit, Run(limit, s, turn), a + 1, n - 1, next');
    events := Then(limit, s, turn, later);
  }

  lemma {:induction false} Arrivals(limit: nat, n: nat) returns (events: seq<Event>)
    ensures var s := Run(limit, Initial(), events);
            NoExpiry(events) && Waiting(s, 0, n, n) && s.counter == None && s.admitted == 0 && s.setexes == 0
  {
    if n == 0 {
      return [];
    }
    var before := Arrivals(limit, n - 1);
    Arrive(limit, Run(limit, Initial(), before), n - 1);
    RunOne(limit, Run(limit, Initial(), before), Get(n - 1));
    events := Then(limit, Initial(), before, [Get(n - 1)]);
  }

  lemma Arrive(limit: nat, s: Limiter, n: nat)
    requires Waiting(s, 0, n, n) && s.counter == None
    ensures var s' := Next(limit, s, Get(n));
            Waiting(s', 0, n + 1, n + 1) && s'.counter == None && s'.admitted == s.admitted && s'.setexes == s.setexes
  {
    assert IsNew(s, n);
    var s' := Next(limit, s, Get(n));
    assert s'.requests == s.requests[n := MustInit];
    forall i: nat | i < n + 1
      ensures IsWaiting(s', i)
    {
      assert i < n ==> IsWaiting(s, i);
    }
    forall i: nat | n + 1 <= i
      ensures IsNew(s', i)
    {
      assert IsNew(s, i);
    }
  }

  /** For any number n of requests that GET before the first SETEX, there is a run without
      expiry that admits limit * n requests: the bound per SETEX cannot be lowered. */
  lemma BoundIsReached(limit: nat, n: nat) returns (events: seq<Event>)
    requires limit >= 1
    ensures var s := Run(limit, Initial(), events);
            NoExpiry(events) && s.setexes == n && s.admitted == limit * n
  {
    var arrivals := Arrivals(limit, n);
    var turns := TakeTurns(limit, Run(limit, Initial(), arrivals), 0, n, n);
    RepeatedIsProduct(limit, n);
    events := Then(limit, Initial(), arrivals, turns);
  }

  // ----- A counter without expiry -----

  /** The counter has no time to live and is full, and no request is about to reset it. */
  ghost predicate Stuck(limit: nat, s: Limiter) {
    && s.counter.Some? && !s.counter.value.expires && s.counter.value.value >= limit
    && forall id :: !IsWaiting(s, id)
  }

  lemma StuckStays(limit: nat, s: Limiter, e: Event)
    requires Stuck(limit, s)
    ensures Stuck(limit, Next(limit, s, e)) && Next(limit, s, e).admitted == s.admitted
  {
    assert e.SetEx? ==> !IsWaiting(s, e.id);
    forall id
      ensures !IsWaiting(Next(limit, s, e), id)
    {
      assert !IsWaiting(s, id);
    }
  }

  /** From then on no request is ever admitted again, in any continuation. */
  lemma {:induction false} StuckForever(limit: nat, s: Limiter, events: seq<Event>)
    requires Stuck(limit, s)
    ensures Stuck(limit, Run(limit, s, events)) && Run(limit, s, events).admitted == s.admitted
  {
    if events != [] {
      StuckForever(limit, s, events[..|events| - 1]);
      StuckStays(limit, Run(limit, s, events[..|events| - 1]), events[|events| - 1]);
    }
  }

  ghost predicate NeverAdmits(limit: nat, s: Limiter) {
    forall events :: Run(limit, s, events).admitted == s.admitted
  }

  lemma NewId(s: Limiter) returns (id: nat)
    ensures id !in s.requests
  {
    id := AboveAll(s.requests.Keys);
  }

  lemma {:induction false} AboveAll(ids: set<nat>) returns (n: nat)
    ensures forall id :: id in ids ==> id < n
  {
    n := 0;
    if ids != {} {
      var id :| id in ids;
      var m := AboveAll(ids - {id});
      n := if id < m then m else id + 1;
      assert forall other :: other in ids ==> other == id || other in ids - {id};
    }
  }

  lemma RunTwo(limit: nat, s: Limiter, e: Event, f: Event)
    ensures Run(limit, s, [e, f]) == Next(limit, Next(limit, s, e), f)
  {
    assert [e] + [f] == [e, f];
    RunConcat(limit, s, [e], [f]);
    RunOne(limit, s, e);
    RunOne(limit, Next(limit, s, e), f);
  }

  /** A request that finds no counter makes one and is admitted. */
  lemma NewcomerInits(limit: nat, s: Limiter, id: nat)
    requires s.counter == None && id !in s.requests
    ensures Run(limit, s, [Get(id), SetEx(id)]).admitted == s.admitted + 1
  {
    RunTwo(limit, s, Get(id), SetEx(id));
  }

  /** A limiter that is not stuck can admit somebody. */
  lemma UnstuckAdmits(limit: nat, s: Limiter) returns (events: seq<Event>)
    requires !Stuck(limit, s)
    ensures Run(limit, s, events).admitted == s.admitted + 1
  {
    var newId := NewId(s);
    if id :| IsWaiting(s, id) {
      events := [SetEx(id)];
      RunOne(limit, s, SetEx(id));
    } else if s.counter == None {
      events := [Get(newId), SetEx(newId)];
      NewcomerInits(limit, s, newId);
    } else if s.counter.value.expires {
      var s1 := Next(limit, s, Expire);
      RunOne(limit, s, Expire);
      NewcomerInits(limit, s1, newId);
      RunConcat(limit, s, [Expire], [Get(newId), SetEx(newId)]);
      events := [Expire] + [Get(newId), SetEx(newId)];
    } else {
      events := [Get(newId), Incr(newId)];
      RunTwo(limit, s, Get(newId), Incr(newId));
    }
  }

  /** No continuation admits anybody exactly when the limiter is stuck. */
  lemma StuckIff(limit: nat, s: Limiter)
    ensures NeverAdmits(limit, s) <==> Stuck(limit, s)
  {
    if Stuck(limit, s) {
      forall events
        ensures Run(limit, s, events).admitted == s.admitted
      {
        StuckForever(limit, s, events);
      }
    } else {
      var events := UnstuckAdmits(limit, s);
      assert Run(limit, s, events).admitted != s.admitted;
    }
  }

  // ----- When a run can get stuck -----

  ghost predicate CanStick(limit: nat) {
    exists events :: Stuck(limit, Run(limit, Initial(), events))
  }

  /** With a limit of at most 1 nobody ever gets to an INCR, so every counter has been set with a
      time to live. */
  lemma {:induction false} SmallLimitExpires(limit: nat, events: seq<Event>)
    requires limit <= 1
    ensures var s := Run(limit, Initial(), events);
            && (s.counter.Some? ==> s.counter.value.expires && s.counter.value.value >= 1)
            && forall id :: id in s.requests ==> s.requests[id] != MustIncr
  {
    if events != [] {
      SmallLimitExpires(limit, events[..|events| - 1]);
    }
  }

  /** A key that expires between a request's GET and its INCR comes back without a time to live. */
  lemma ExpiryBeforeIncr(limit: nat) returns (events: seq<Event>)
    requires limit >= 2
    ensures var s := Run(limit, Initial(), events);
            && s.counter == Some(Counter(1, false)) && Waiting(s, 0, 0, 2)
            && forall id :: !IsWaiting(s, id)
  {
    RunTwo(limit, Initial(), Get(0), SetEx(0));
    var s2 := Run(limit, Initial(), [Get(0), SetEx(0)]);
    RunTwo(limit, s2, Get(1), Expire);
    RunConcat(limit, Initial(), [Get(0), SetEx(0)], [Get(1), Expire]);
    var before := [Get(0), SetEx(0)] + [Get(1), Expire];
    var s4 := Run(limit, Initial(), before);
    assert s4.counter == None && s4.requests == map[0 := Answered(true), 1 := MustIncr];
    RunOne(limit, s4, Incr(1));
    RunConcat(limit, Initial(), before, [Incr(1)]);
    events := before + [Incr(1)];
  }

  /** Some run gets stuck exactly when the limit is at least 2. */
  lemma CanStickIff(limit: nat)
    ensures CanStick(limit) <==> limit >= 2
  {
    if limit >= 2 {
      var before := ExpiryBeforeIncr(limit);
      var s := Run(limit, Initial(), before);
      var fill, _ := FillUp(limit, s, 0, 0, 2);
      RunConcat(limit, Initial(), before, fill);
      assert Stuck(limit, Run(limit, Initial(), before + fill));
    } else {
      forall events
        ensures !Stuck(limit, Run(limit, Initial(), events))
      {
        SmallLimitExpires(limit, events);
      }
    }
  }
}
