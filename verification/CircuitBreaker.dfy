/** The circuit breaker, with time as an input, and what holds over every run of it. */
module CircuitBreaking {

  datatype State = Closed | Open | HalfOpen

  /** The value of a breaker: its state, its failure count and its two time stamps. */
  datatype Breaker = Breaker(state: State, failures: nat, lastFailure: real, lastChange: real)

  datatype Settings = Settings(threshold: nat, recovery: real)

  function Fresh(now: real): Breaker {
    Breaker(Closed, 0, 0.0, now)
  }

  /** Reading the state: an open breaker whose recovery time has passed becomes half-open. */
  function Checked(cfg: Settings, b: Breaker, now: real): Breaker {
    if b.state == Open && now - b.lastChange >= cfg.recovery then b.(state := HalfOpen, lastChange := now) else b
  }

  function Succeeded(b: Breaker, now: real): Breaker {
    if b.state == HalfOpen then b.(failures := 0, state := Closed, lastChange := now) else b.(failures := 0)
  }

  function Failed(cfg: Settings, b: Breaker, now: real): Breaker {
    var b' := b.(failures := b.failures + 1, lastFailure := now);
    if b.state == HalfOpen || b'.failures >= cfg.threshold then b'.(state := Open, lastChange := now) else b'
  }

  class CircuitBreaker {
    const failureThreshold: nat
    const recoveryTimeout: real
    var state: State
    var failureCount: nat
    var lastFailureTime: real
    var lastStateChange: real

    function Config(): Settings {
      Settings(failureThreshold, recoveryTimeout)
    }

    function Value(): Breaker
      reads this
    {
      Breaker(state, failureCount, lastFailureTime, lastStateChange)
    }

    constructor (threshold: nat, recovery: real, now: real)
      ensures Value() == Fresh(now) && Config() == Settings(threshold, recovery)
    {
      failureThreshold, recoveryTimeout := threshold, recovery;
      state, failureCount, lastFailureTime, lastStateChange := Closed, 0, 0.0, now;
    }

    method Transition(now: real)
      modifies this
      ensures Value() == Checked(Config(), old(Value()), now)
    {
      if state == Open {
        var elapsed := now - lastStateChange;
        if elapsed >= recoveryTimeout {
          state := HalfOpen;
          lastStateChange := now;
        }
      }
    }

    method IsOpen(now: real) returns (open: bool)
      modifies this
      ensures Value() == Checked(Config(), old(Value()), now)
      ensures open <==> Value().state == Open
    {
      Transition(now);
      open := state == Open;
    }

    method RecordSuccess(now: real)
      modifies this
      ensures Value() == Succeeded(old(Value()), now)
    {
      failureCount := 0;
      if state == HalfOpen {
        state := Closed;
        lastStateChange := now;
      }
    }

    method RecordFailure(now: real)
      modifies this
      ensures Value() == Failed(Config(), old(Value()), now)
    {
      failureCount := failureCount + 1;
      lastFailureTime := now;
      if state == HalfOpen {
        state := Open;
        lastStateChange := now;
      } else if failureCount >= failureThreshold {
        state := Open;
        lastStateChange := now;
      }
    }

    method Reset(now: real)
      modifies this
      ensures Value() == Fresh(now)
    {
      state := Closed;
      failureCount := 0;
      lastFailureTime := 0.0;
      lastStateChange := now;
    }
  }

  // ----- Runs -----

  datatype Event = Check(now: real) | Success(now: real) | Failure(now: real) | ManualReset(now: real)

  function After(cfg: Settings, b: Breaker, e: Event): Breaker {
    match e
    case Check(now) => Checked(cfg, b, now)
    case Success(now) => Succeeded(b, now)
    case Failure(now) => Failed(cfg, b, now)
    case ManualReset(now) => Fresh(now)
  }

  function Run(cfg: Settings, b: Breaker, events: seq<Event>): Breaker {
    if events == [] then b else After(cfg, Run(cfg, b, events[..|events| - 1]), events[|events| - 1])
  }

  /** The failures recorded since the last success or manual reset. */
  function FailuresSince(events: seq<Event>): nat {
    if events == [] then 0
    else
      var before := FailuresSince(events[..|events| - 1]);
      match events[|events| - 1]
      case Check(_) => before
      case Success(_) => 0
      case Failure(_) => before + 1
      case ManualReset(_) => 0
  }

  /** In every run of a new breaker, the count is the failures since the last success or
      reset, and a closed breaker is below its threshold. */
  lemma {:induction false} CountIsExact(cfg: Settings, start: real, events: seq<Event>)
    requires cfg.threshold >= 1
    ensures var b := Run(cfg, Fresh(start), events);
            b.failures == FailuresSince(events) && (b.state == Closed ==> b.failures < cfg.threshold)
  {
    if events != [] {
      CountIsExact(cfg, start, events[..|events| - 1]);
    }
  }

  /** A closed breaker opens exactly at the failure that completes threshold failures without
      a success or a reset between them. */
  lemma OpensAtThreshold(cfg: Settings, start: real, events: seq<Event>, e: Event)
    requires cfg.threshold >= 1 && Run(cfg, Fresh(start), events).state == Closed
    ensures Run(cfg, Fresh(start), events + [e]).state == Open <==>
            e.Failure? && FailuresSince(events + [e]) == cfg.threshold
  {
    CountIsExact(cfg, start, events);
    assert (events + [e])[..|events|] == events;
  }

  /** The events are in time order, start at from and do not reach until. */
  ghost predicate Within(events: seq<Event>, from: real, until: real) {
    && (forall i :: 0 <= i < |events| ==> from <= events[i].now < until)
    && (forall i, j :: 0 <= i < j < |events| ==> events[i].now <= events[j].now)
  }

  /** Whatever is recorded late by requests already under way, an open breaker lets nothing
      through before its recovery time has passed, unless it is reset by hand. */
  lemma {:induction false} StaysOpen(cfg: Settings, b: Breaker, events: seq<Event>)
    requires b.state == Open && Within(events, b.lastChange, b.lastChange + cfg.recovery)
    requires forall i :: 0 <= i < |events| ==> !events[i].ManualReset?
    ensures var b' := Run(cfg, b, events);
            && b'.state == Open
            && b.lastChange <= b'.lastChange
            && (events != [] ==> b'.lastChange <= events[|events| - 1].now)
            && (events == [] ==> b' == b)
  {
    if events != [] {
      var before := events[..|events| - 1];
      assert forall i :: 0 <= i < |before| ==> before[i] == events[i];
      StaysOpen(cfg, b, before);
    }
  }

  lemma RunSnoc(cfg: Settings, b: Breaker, events: seq<Event>, e: Event)
    ensures Run(cfg, b, events + [e]) == After(cfg, Run(cfg, b, events), e)
  {
    assert (events + [e])[..|events|] == events;
  }

  lemma {:induction false} RunConcat(cfg: Settings, b: Breaker, events: seq<Event>, later: seq<Event>)
    ensures Run(cfg, b, events + later) == Run(cfg, Run(cfg, b, events), later)
  {
    if later == [] {
      assert events + later == events;
    } else {
      assert (events + later)[..|events + later| - 1] == events + later[..|later| - 1];
      RunConcat(cfg, b, events, later[..|later| - 1]);
    }
  }

  /** The failure at time now opens the breaker. */
  ghost predicate OpensAt(cfg: Settings, b: Breaker, before: seq<Event>, now: real) {
    Run(cfg, b, before).state != Open && Run(cfg, b, before + [Failure(now)]).state == Open
  }

  /** A breaker that opens, from closed or half-open, counts its recovery time from the failure that
      opened it. */
  lemma RecoveryStartsAtOpening(cfg: Settings, b: Breaker, before: seq<Event>, now: real, t: real)
    requires OpensAt(cfg, b, before, now)
    ensures Run(cfg, b, before + [Failure(now)] + [Check(t)]).state == Open <==> t - now < cfg.recovery
  {
    RunSnoc(cfg, b, before, Failure(now));
    RunSnoc(cfg, b, before + [Failure(now)], Check(t));
  }

  /** From its opening on it lets nothing through for the whole recovery time, whatever requests that
      were under way record meanwhile, unless it is reset by hand. */
  lemma {:induction false} NothingPassesUntilRecovery(cfg: Settings, b: Breaker, before: seq<Event>, now: real, later: seq<Event>, t: real)
    requires OpensAt(cfg, b, before, now) && Within(later + [Check(t)], now, now + cfg.recovery)
    requires forall i :: 0 <= i < |later| ==> !later[i].ManualReset?
    ensures Run(cfg, b, before + [Failure(now)] + (later + [Check(t)])).state == Open
  {
    var tripped := Run(cfg, b, before + [Failure(now)]);
    RunSnoc(cfg, b, before, Failure(now));
    RunConcat(cfg, b, before + [Failure(now)], later + [Check(t)]);
    StaysOpen(cfg, tripped, later + [Check(t)]);
  }

  /** A late failure on an open breaker starts the recovery time anew exactly when the failures since
      the last success have reached the threshold again. */
  lemma LateFailureRestartsIff(cfg: Settings, b: Breaker, late: real, t: real)
    requires b.state == Open
    ensures Run(cfg, b, [Failure(late)] + [Check(t)]).state == Open <==>
            t - (if b.failures + 1 >= cfg.threshold then late else b.lastChange) < cfg.recovery
  {
    assert [Failure(late)][..0] == [];
    RunSnoc(cfg, b, [Failure(late)], Check(t));
  }

  /** The time of the last failure since the last manual reset, 0 when there is none. */
  function LastFailure(events: seq<Event>): real {
    if events == [] then 0.0
    else
      match events[|events| - 1]
      case Failure(now) => now
      case ManualReset(_) => 0.0
      case _ => LastFailure(events[..|events| - 1])
  }

  lemma {:induction false} LastFailureIsKept(cfg: Settings, start: real, events: seq<Event>)
    ensures Run(cfg, Fresh(start), events).lastFailure == LastFailure(events)
  {
    if events != [] {
      LastFailureIsKept(cfg, start, events[..|events| - 1]);
    }
  }

  // ----- Half-open -----

  ghost predicate ChecksOnly(events: seq<Event>) {
    forall i :: 0 <= i < |events| ==> events[i].Check?
  }

  /** A request is refused exactly while the breaker is open and its recovery time has not passed. */
  lemma RefusedIff(cfg: Settings, b: Breaker, now: real)
    ensures Run(cfg, b, [Check(now)]).state == Open <==> b.state == Open && now - b.lastChange < cfg.recovery
  {
    assert [Check(now)][..0] == [];
  }

  /** A half-open breaker lets every arriving request through: any number of checks leave it as
      it is. */
  lemma {:induction false} HalfOpenAdmitsAll(cfg: Settings, b: Breaker, checks: seq<Event>)
    requires b.state == HalfOpen && ChecksOnly(checks)
    ensures Run(cfg, b, checks) == b
  {
    if checks != [] {
      HalfOpenAdmitsAll(cfg, b, checks[..|checks| - 1]);
      assert checks[|checks| - 1].Check?;
    }
  }

  /** The first outcome recorded on a half-open breaker decides, whoever records it: a success
      closes the breaker and a failure opens it. */
  lemma FirstOutcomeDecides(cfg: Settings, b: Breaker, checks: seq<Event>, e: Event)
    requires b.state == HalfOpen && ChecksOnly(checks) && (e.Success? || e.Failure?)
    ensures var s := Run(cfg, b, checks + [e]).state;
            && (s == Closed <==> e.Success?)
            && (s == Open <==> e.Failure?)
  {
    HalfOpenAdmitsAll(cfg, b, checks);
    assert (checks + [e])[..|checks|] == checks;
  }

  /** Whatever the probe's outcome, it decides the state: a success closes, a failure opens. */
  ghost predicate OutcomeDecides(cfg: Settings, b: Breaker, between: seq<Event>, end: real) {
    && Run(cfg, b, between + [Success(end)]).state == Closed
    && Run(cfg, b, between + [Failure(end)]).state == Open
  }

  /** The outcome of the request that found the breaker half-open does not always decide. It does
      exactly when the breaker is still half-open when the outcome comes, or has been closed
      meanwhile and one more failure reaches the threshold. */
  lemma {:induction false} OutcomeDecidesIff(cfg: Settings, b: Breaker, between: seq<Event>, end: real)
    ensures var now := Run(cfg, b, between);
            OutcomeDecides(cfg, b, between, end) <==>
            now.state == HalfOpen || (now.state == Closed && now.failures + 1 >= cfg.threshold)
  {
    assert (between + [Success(end)])[..|between|] == between;
    assert (between + [Failure(end)])[..|between|] == between;
  }

  /** So one late outcome of another request is enough to overrule the probe: after a late failure
      its success leaves the breaker open, and after a late success its failure leaves it closed,
      unless the threshold is 1. */
  lemma LateOutcomeOverrules(cfg: Settings, b: Breaker, probe: real, late: real, end: real)
    requires cfg.threshold >= 1 && b.state == Open && probe - b.lastChange >= cfg.recovery
    ensures Run(cfg, b, [Check(probe), Failure(late), Success(end)]).state == Open
    ensures Run(cfg, b, [Check(probe), Success(late), Failure(end)]).state == Closed <==> cfg.threshold >= 2
  {
    RunTwoMore(cfg, b, Check(probe), Failure(late), Success(end));
    RunTwoMore(cfg, b, Check(probe), Success(late), Failure(end));
  }

  lemma RunTwoMore(cfg: Settings, b: Breaker, e: Event, f: Event, g: Event)
    ensures Run(cfg, b, [e]) == After(cfg, b, e)
    ensures Run(cfg, b, [e, f, g]) == After(cfg, After(cfg, Run(cfg, b, [e]), f), g)
  {
    assert [e][..0] == [];
    assert [e] + [f] == [e, f] && [e, f] + [g] == [e, f, g];
    RunSnoc(cfg, b, [e], f);
    RunSnoc(cfg, b, [e, f], g);
  }
}
