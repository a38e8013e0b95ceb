/** Many chat requests interleaved at their awaits over the two shared breakers. A step is what
    one request does between two awaits. */
module RouterRuns {
  import opened CircuitBreaking
  import opened RetryLoop

  /** Where a request is. Ended(served or refused), Aborted when an exception outside the
      adapter's hierarchy or a cancellation ended it. */
  datatype Phase =
    | Calling(attempts: nat, timeouts: nat)
    | Sleeping(attempts: nat, timeouts: nat)
    | FallingBack
    | Rejected
    | Ended(byFallback: bool, ok: bool)
    | Aborted(duringFallback: bool)

  /** passed: the breaker let the request through to its own adapter. */
  datatype Request = Request(isClaude: bool, mayFallBack: bool, passed: bool, phase: Phase)

  /** One outcome recorded on a breaker, by a request or as a manual reset. */
  datatype Entry = Entry(id: nat, ok: bool) | Cleared

  datatype Side = Side(breaker: Breaker, log: seq<Entry>)

  datatype System = System(requests: map<nat, Request>, claude: Side, local: Side)

  datatype Step =
    | Arrive(id: nat, isClaude: bool, lowSensitivity: bool, now: real)
    | Return(id: nat, outcome: Outcome, now: real)
    | Wake(id: nat)
    | FallbackReturn(id: nat, outcome: Outcome, now: real)
    | Cancel(id: nat)
    | ResetBreaker(isClaude: bool, now: real)

  datatype Config = Config(settings: Settings, policy: Policy)

  function Own(s: System, isClaude: bool): Side {
    if isClaude then s.claude else s.local
  }

  function WithOwn(s: System, isClaude: bool, side: Side): System {
    if isClaude then s.(claude := side) else s.(local := side)
  }

  function Put(s: System, id: nat, r: Request): System {
    s.(requests := s.requests[id := r])
  }

  function Record(cfg: Config, side: Side, id: nat, ok: bool, now: real): Side {
    Side(if ok then Succeeded(side.breaker, now) else Failed(cfg.settings, side.breaker, now), side.log + [Entry(id, ok)])
  }

  /** A request arrives, reads its breaker, and calls its adapter, asks the local model or is refused. */
  function Arrived(cfg: Config, s: System, id: nat, isClaude: bool, lowSensitivity: bool, now: real): System {
    var side := Own(s, isClaude);
    var seen := side.(breaker := Checked(cfg.settings, side.breaker, now));
    var mayFallBack := isClaude && lowSensitivity;
    var open := seen.breaker.state == Open;
    var phase := if !open then Calling(1, 0) else if mayFallBack then FallingBack else Rejected;
    Put(WithOwn(s, isClaude, seen), id, Request(isClaude, mayFallBack, !open, phase))
  }

  /** Request id records an outcome on its own breaker and goes on to a phase. */
  function OwnRecorded(cfg: Config, s: System, id: nat, ok: bool, now: real, phase: Phase): System
    requires id in s.requests
  {
    var r := s.requests[id];
    Put(WithOwn(s, r.isClaude, Record(cfg, Own(s, r.isClaude), id, ok, now)), id, r.(phase := phase))
  }

  /** An adapter call of request id comes to an outcome. */
  function Returned(cfg: Config, s: System, id: nat, o: Outcome, now: real): System
    requires id in s.requests && s.requests[id].phase.Calling? && s.requests[id].phase.attempts >= 1
  {
    var r := s.requests[id];
    var n, t := r.phase.attempts, r.phase.timeouts;
    match Decide(cfg.policy, o, n, t)
    case Done => OwnRecorded(cfg, s, id, true, now, Ended(false, true))
    case GiveUp(_, canFallBack) =>
      OwnRecorded(cfg, s, id, false, now, if canFallBack && r.mayFallBack then FallingBack else Ended(false, false))
    case Retry(_) => Put(s, id, r.(phase := Sleeping(n, Timeouts(o, t))))
    case Escape => Put(s, id, r.(phase := Aborted(false)))
  }

  /** A step that is not possible in the current state changes nothing. */
  function Next(cfg: Config, s: System, step: Step): System {
    match step
    case Arrive(id, isClaude, low, now) =>
      if id in s.requests then s else Arrived(cfg, s, id, isClaude, low, now)
    case Return(id, o, now) =>
      if id in s.requests && s.requests[id].phase.Calling? && s.requests[id].phase.attempts >= 1 then Returned(cfg, s, id, o, now) else s
    case Wake(id) =>
      if id in s.requests && s.requests[id].phase.Sleeping? then
        var p := s.requests[id].phase;
        Put(s, id, s.requests[id].(phase := Calling(p.attempts + 1, p.timeouts)))
      else s
    case FallbackReturn(id, o, now) =>
      if id in s.requests && s.requests[id].phase.FallingBack? then
        var ok := o == Response;
        Put(s.(local := Record(cfg, s.local, id, ok, now)), id, s.requests[id].(phase := Ended(true, ok)))
      else s
    case Cancel(id) =>
      if id in s.requests && (s.requests[id].phase.Calling? || s.requests[id].phase.Sleeping? || s.requests[id].phase.FallingBack?) then
        Put(s, id, s.requests[id].(phase := Aborted(s.requests[id].phase.FallingBack?)))
      else s
    case ResetBreaker(isClaude, now) =>
      var side := Own(s, isClaude);
      WithOwn(s, isClaude, Side(Fresh(now), side.log + [Cleared]))
  }

  function Initial(start: real): System {
    System(map[], Side(Fresh(start), []), Side(Fresh(start), []))
  }

  function RunSteps(cfg: Config, start: real, steps: seq<Step>): System {
    if steps == [] then Initial(start)
    else Next(cfg, RunSteps(cfg, start, steps[..|steps| - 1]), steps[|steps| - 1])
  }

  // ----- What each request has recorded -----

  /** How many outcomes request id has recorded in a log. */
  function Count(log: seq<Entry>, id: nat): nat {
    if log == [] then 0
    else
      var last := log[|log| - 1];
      Count(log[..|log| - 1], id) + if last.Entry? && last.id == id then 1 else 0
  }

  lemma CountSnoc(log: seq<Entry>, e: Entry, id: nat)
    ensures Count(log + [e], id) == Count(log, id) + if e.Entry? && e.id == id then 1 else 0
  {
    assert (log + [e])[..|log|] == log;
  }

  /** The request has passed its breaker and its own call is over: it got a response, or the
      loop gave up on a time-out or an adapter error. */
  predicate OwnCallOver(r: Request) {
    r.passed && (r.phase.Ended? || r.phase.FallingBack? || (r.phase.Aborted? && r.phase.duringFallback))
  }

  function OwnRecords(r: Request): nat {
    if OwnCallOver(r) then 1 else 0
  }

  function FallbackRecords(r: Request): nat {
    if r.phase.Ended? && r.phase.byFallback then 1 else 0
  }

  /** What was recorded is how the call ended: the own call of a request that fell back after
      passing its breaker failed, an ended one ended as recorded. */
  ghost predicate RecordsTruth(s: System, id: nat, r: Request) {
    && (r.phase.Ended? && !r.phase.byFallback ==> Entry(id, r.phase.ok) in Own(s, r.isClaude).log)
    && (r.phase.Ended? && r.phase.byFallback ==> Entry(id, r.phase.ok) in Own(s, !r.isClaude).log)
    && (OwnCallOver(r) && !(r.phase.Ended? && !r.phase.byFallback) ==> Entry(id, false) in Own(s, r.isClaude).log)
  }

  ghost predicate RequestRecords(s: System, id: nat) {
    if id !in s.requests then Count(s.claude.log, id) == 0 && Count(s.local.log, id) == 0
    else
      var r := s.requests[id];
      && Count(Own(s, r.isClaude).log, id) == OwnRecords(r)
      && Count(Own(s, !r.isClaude).log, id) == FallbackRecords(r)
      && RecordsTruth(s, id, r)
      && (!r.isClaude ==> !r.mayFallBack && !r.phase.FallingBack? && FallbackRecords(r) == 0)
  }

  /** The bounds a request keeps to while it is under way. */
  ghost predicate WithinLimits(cfg: Config, r: Request) {
    && (r.phase.Calling? ==> r.phase.attempts >= 1 && Looping(cfg.policy, r.phase.attempts - 1, r.phase.timeouts))
    && (r.phase.Sleeping? ==> r.phase.attempts >= 1 && Looping(cfg.policy, r.phase.attempts, r.phase.timeouts))
    && (r.phase.Calling? || r.phase.Sleeping? ==> r.passed)
  }

  ghost predicate Consistent(cfg: Config, s: System) {
    && (forall id :: RequestRecords(s, id))
    && (forall id :: id in s.requests ==> WithinLimits(cfg, s.requests[id]))
  }

  /** At most one outcome of request id is added to the log. */
  ghost predicate Extends(log: seq<Entry>, log': seq<Entry>, id: nat) {
    log' == log || log' == log + [Entry(id, true)] || log' == log + [Entry(id, false)]
  }

  lemma CountExtends(log: seq<Entry>, log': seq<Entry>, id: nat, other: nat)
    requires Extends(log, log', id)
    ensures Count(log', other) == Count(log, other) || (other == id && Count(log', other) == Count(log, other) + 1)
    ensures other == id && log' != log ==> Count(log', other) == Count(log, other) + 1
  {
    CountSnoc(log, Entry(id, true), other);
    CountSnoc(log, Entry(id, false), other);
  }

  /** A step that concerns one request leaves the others as they are. */
  lemma OnlyOneChanges(cfg: Config, s: System, s': System, id: nat)
    requires Consistent(cfg, s) && id in s'.requests && s'.requests == s.requests[id := s'.requests[id]]
    requires Extends(s.claude.log, s'.claude.log, id) && Extends(s.local.log, s'.local.log, id)
    requires RequestRecords(s', id) && WithinLimits(cfg, s'.requests[id])
    ensures Consistent(cfg, s')
  {
    forall other
      ensures RequestRecords(s', other)
      ensures other in s'.requests ==> WithinLimits(cfg, s'.requests[other])
    {
      assert RequestRecords(s, other);
      CountExtends(s.claude.log, s'.claude.log, id, other);
      CountExtends(s.local.log, s'.local.log, id, other);
    }
  }

  lemma ArriveKeepsConsistent(cfg: Config, s: System, id: nat, isClaude: bool, low: bool, now: real)
    requires Consistent(cfg, s) && id !in s.requests
    ensures Consistent(cfg, Arrived(cfg, s, id, isClaude, low, now))
  {
    assert RequestRecords(s, id);
    OnlyOneChanges(cfg, s, Arrived(cfg, s, id, isClaude, low, now), id);
  }

  lemma OwnRecordKeepsConsistent(cfg: Config, s: System, id: nat, ok: bool, now: real, phase: Phase)
    requires Consistent(cfg, s) && id in s.requests && s.requests[id].phase.Calling?
    requires (phase == FallingBack && s.requests[id].mayFallBack && !ok) || phase == Ended(false, ok)
    ensures Consistent(cfg, OwnRecorded(cfg, s, id, ok, now, phase))
  {
    var r, s' := s.requests[id], OwnRecorded(cfg, s, id, ok, now, phase);
    assert RequestRecords(s, id) && WithinLimits(cfg, r);
    CountExtends(Own(s, r.isClaude).log, Own(s', r.isClaude).log, id, id);
    assert Own(s', !r.isClaude) == Own(s, !r.isClaude);
    OnlyOneChanges(cfg, s, s', id);
  }

  lemma ReturnKeepsConsistent(cfg: Config, s: System, id: nat, o: Outcome, now: real)
    requires Consistent(cfg, s) && id in s.requests && s.requests[id].phase.Calling?
    requires s.requests[id].phase.attempts >= 1
    ensures Consistent(cfg, Returned(cfg, s, id, o, now))
  {
    var r, s' := s.requests[id], Returned(cfg, s, id, o, now);
    match Decide(cfg.policy, o, r.phase.attempts, r.phase.timeouts)
    case Done => OwnRecordKeepsConsistent(cfg, s, id, true, now, Ended(false, true));
    case GiveUp(_, canFallBack) =>
      OwnRecordKeepsConsistent(cfg, s, id, false, now, if canFallBack && r.mayFallBack then FallingBack else Ended(false, false));
    case Retry(_) =>
      assert RequestRecords(s, id) && WithinLimits(cfg, r);
      RetryKeepsLooping(cfg.policy, o, r.phase.attempts - 1, r.phase.timeouts);
      OnlyOneChanges(cfg, s, s', id);
    case Escape =>
      assert RequestRecords(s, id) && WithinLimits(cfg, r);
      OnlyOneChanges(cfg, s, s', id);
  }

  lemma FallbackKeepsConsistent(cfg: Config, s: System, id: nat, o: Outcome, now: real)
    requires Consistent(cfg, s) && id in s.requests && s.requests[id].phase.FallingBack?
    ensures Consistent(cfg, Next(cfg, s, FallbackReturn(id, o, now)))
  {
    var s' := Next(cfg, s, FallbackReturn(id, o, now));
    assert RequestRecords(s, id);
    CountExtends(s.local.log, s'.local.log, id, id);
    OnlyOneChanges(cfg, s, s', id);
  }

  lemma ResetKeepsConsistent(cfg: Config, s: System, isClaude: bool, now: real)
    requires Consistent(cfg, s)
    ensures Consistent(cfg, Next(cfg, s, ResetBreaker(isClaude, now)))
  {
    var s' := Next(cfg, s, ResetBreaker(isClaude, now));
    forall id
      ensures RequestRecords(s', id)
    {
      assert RequestRecords(s, id);
      CountSnoc(Own(s, isClaude).log, Cleared, id);
    }
  }

  lemma StepKeepsConsistent(cfg: Config, s: System, step: Step)
    requires Consistent(cfg, s)
    ensures Consistent(cfg, Next(cfg, s, step))
  {
    var s' := Next(cfg, s, step);
    if s' != s {
      match step
      case Arrive(id, isClaude, low, now) => ArriveKeepsConsistent(cfg, s, id, isClaude, low, now);
      case Return(id, o, now) => ReturnKeepsConsistent(cfg, s, id, o, now);
      case Wake(id) => assert RequestRecords(s, id); OnlyOneChanges(cfg, s, s', id);
      case FallbackReturn(id, o, now) => FallbackKeepsConsistent(cfg, s, id, o, now);
      case Cancel(id) => assert RequestRecords(s, id); OnlyOneChanges(cfg, s, s', id);
      case ResetBreaker(isClaude, now) => ResetKeepsConsistent(cfg, s, isClaude, now);
    }
  }

  /** In every interleaving of requests, a request whose own call is over has recorded exactly
      one outcome on its own breaker, the true one, and any other request none; the fallback records one outcome
      on the local breaker when it ends, and nothing else is recorded there for it. */
  lemma {:induction false} EachRequestRecordsOnce(cfg: Config, start: real, steps: seq<Step>)
    ensures Consistent(cfg, RunSteps(cfg, start, steps))
  {
    if steps != [] {
      EachRequestRecordsOnce(cfg, start, steps[..|steps| - 1]);
      StepKeepsConsistent(cfg, RunSteps(cfg, start, steps[..|steps| - 1]), steps[|steps| - 1]);
    }
  }

  // ----- The breakers -----

  /** The failures at the end of a log, since the last success or manual reset. */
  function Trailing(log: seq<Entry>): nat {
    if log == [] then 0
    else
      var last := log[|log| - 1];
      if last.Entry? && !last.ok then Trailing(log[..|log| - 1]) + 1 else 0
  }

  ghost predicate Tracks(cfg: Config, side: Side) {
    side.breaker.failures == Trailing(side.log) && (side.breaker.state == Closed ==> side.breaker.failures < cfg.settings.threshold)
  }

  /** What a step does to one breaker: nothing, a check, a recorded outcome, or a reset. */
  ghost predicate SideStep(cfg: Config, side: Side, side': Side) {
    || side' == side
    || (exists now :: side' == side.(breaker := Checked(cfg.settings, side.breaker, now)))
    || (exists id, ok, now :: side' == Record(cfg, side, id, ok, now))
    || (exists now :: side' == Side(Fresh(now), side.log + [Cleared]))
  }

  lemma StepSides(cfg: Config, s: System, step: Step, isClaude: bool)
    ensures SideStep(cfg, Own(s, isClaude), Own(Next(cfg, s, step), isClaude))
  {
  }

  lemma TrailingSnoc(log: seq<Entry>, e: Entry)
    ensures Trailing(log + [e]) == if e.Entry? && !e.ok then Trailing(log) + 1 else 0
  {
    assert (log + [e])[..|log|] == log;
  }

  lemma RecordTracks(cfg: Config, side: Side, id: nat, ok: bool, now: real)
    requires cfg.settings.threshold >= 1 && Tracks(cfg, side)
    ensures var side' := Record(cfg, side, id, ok, now);
            && Tracks(cfg, side')
            && (side.breaker.state == Closed && side'.breaker.state == Open ==> Trailing(side'.log) == cfg.settings.threshold)
  {
    TrailingSnoc(side.log, Entry(id, ok));
  }

  lemma SideStepTracks(cfg: Config, side: Side, side': Side)
    requires cfg.settings.threshold >= 1 && Tracks(cfg, side) && SideStep(cfg, side, side')
    ensures Tracks(cfg, side')
    ensures side.breaker.state == Closed && side'.breaker.state == Open ==> Trailing(side'.log) == cfg.settings.threshold
  {
    if id, ok, now :| side' == Record(cfg, side, id, ok, now) {
      RecordTracks(cfg, side, id, ok, now);
    } else if now :| side' == Side(Fresh(now), side.log + [Cleared]) {
      TrailingSnoc(side.log, Cleared);
    }
  }

  /** In every interleaving, each breaker counts the failures recorded on it since the last
      success or manual reset, and is below its threshold while closed. */
  lemma {:induction false} BreakersTrackLogs(cfg: Config, start: real, steps: seq<Step>, isClaude: bool)
    requires cfg.settings.threshold >= 1
    ensures Tracks(cfg, Own(RunSteps(cfg, start, steps), isClaude))
  {
    if steps != [] {
      var s, step := RunSteps(cfg, start, steps[..|steps| - 1]), steps[|steps| - 1];
      BreakersTrackLogs(cfg, start, steps[..|steps| - 1], isClaude);
      StepSides(cfg, s, step, isClaude);
      SideStepTracks(cfg, Own(s, isClaude), Own(Next(cfg, s, step), isClaude));
    }
  }

  lemma {:induction false} TrailingAreFailures(log: seq<Entry>)
    ensures Trailing(log) <= |log|
    ensures forall i :: |log| - Trailing(log) <= i < |log| ==> log[i].Entry? && !log[i].ok
  {
    if log != [] {
      TrailingAreFailures(log[..|log| - 1]);
    }
  }

  lemma {:induction false} CountsTwice(log: seq<Entry>, i: nat, j: nat)
    requires i < j < |log| && log[i].Entry? && log[j].Entry? && log[i].id == log[j].id
    ensures Count(log, log[i].id) >= 2
  {
    if j == |log| - 1 {
      CountsOnce(log[..j], i);
    } else {
      CountsTwice(log[..|log| - 1], i, j);
    }
  }

  lemma {:induction false} CountsOnce(log: seq<Entry>, i: nat)
    requires i < |log| && log[i].Entry?
    ensures Count(log, log[i].id) >= 1
  {
    if i < |log| - 1 {
      CountsOnce(log[..|log| - 1], i);
    }
  }

  lemma AtMostOneEntry(cfg: Config, s: System, log: seq<Entry>, i: nat, j: nat)
    requires Consistent(cfg, s) && (log == s.claude.log || log == s.local.log)
    requires i < j < |log| && log[i].Entry? && log[j].Entry?
    ensures log[i].id != log[j].id
  {
    assert RequestRecords(s, log[i].id);
    if log[i].id == log[j].id {
      CountsTwice(log, i, j);
    }
  }

  /** The log ends with exactly n failures in a row, of n different requests. */
  ghost predicate EndsWithFailedRequests(log: seq<Entry>, n: nat) {
    && n <= |log|
    && (forall i :: |log| - n <= i < |log| ==> log[i].Entry? && !log[i].ok)
    && (forall i, j :: |log| - n <= i < j < |log| ==> log[i].id != log[j].id)
    && (|log| > n ==> log[|log| - n - 1] == Cleared || log[|log| - n - 1].ok)
  }

  /** In every interleaving, a step takes a breaker from closed to open only by recording the
      failure that completes exactly threshold failures in a row, and these belong to threshold
      different requests: it counts failed requests, not failed attempts. */
  lemma OpensAfterFailedRequests(cfg: Config, start: real, steps: seq<Step>, step: Step, isClaude: bool)
    requires cfg.settings.threshold >= 1
    requires Own(RunSteps(cfg, start, steps), isClaude).breaker.state == Closed
    requires Own(RunSteps(cfg, start, steps + [step]), isClaude).breaker.state == Open
    ensures EndsWithFailedRequests(Own(RunSteps(cfg, start, steps + [step]), isClaude).log, cfg.settings.threshold)
  {
    var s, s' := RunSteps(cfg, start, steps), RunSteps(cfg, start, steps + [step]);
    assert s' == Next(cfg, s, step) by {
      assert (steps + [step])[..|steps|] == steps;
    }
    BreakersTrackLogs(cfg, start, steps, isClaude);
    StepSides(cfg, s, step, isClaude);
    SideStepTracks(cfg, Own(s, isClaude), Own(s', isClaude));
    EachRequestRecordsOnce(cfg, start, steps + [step]);
    FailedRequestsDiffer(cfg, s', isClaude);
  }

  lemma FailedRequestsDiffer(cfg: Config, s: System, isClaude: bool)
    requires Consistent(cfg, s)
    ensures EndsWithFailedRequests(Own(s, isClaude).log, Trailing(Own(s, isClaude).log))
  {
    var log := Own(s, isClaude).log;
    var n := Trailing(log);
    TrailingAreFailures(log);
    TrailingStops(log);
    forall i, j | |log| - n <= i < j < |log|
      ensures log[i].id != log[j].id
    {
      AtMostOneEntry(cfg, s, log, i, j);
    }
  }

  lemma {:induction false} TrailingStops(log: seq<Entry>)
    ensures Trailing(log) < |log| ==>
              var e := log[|log| - Trailing(log) - 1]; e == Cleared || e.ok
  {
    if log != [] && Trailing(log) > 0 {
      TrailingStops(log[..|log| - 1]);
    }
  }

  // ----- Half-open -----

  /** What one step does while a breaker is half-open, in any interleaving: requests that arrive
      for it are let through, and the first outcome recorded on it decides, whichever request
      records it. */
  lemma HalfOpenStep(cfg: Config, s: System, step: Step, isClaude: bool)
    requires Own(s, isClaude).breaker.state == HalfOpen
    ensures var side, side' := Own(s, isClaude), Own(Next(cfg, s, step), isClaude);
            && (side'.log == side.log ==> side' == side)
            && (step.Arrive? && step.isClaude == isClaude && step.id !in s.requests ==>
                  Next(cfg, s, step).requests[step.id].phase == Calling(1, 0))
            && (forall id, ok :: side'.log == side.log + [Entry(id, ok)] ==>
                  side'.breaker.state == if ok then Closed else Open)
  {
    var side, side' := Own(s, isClaude), Own(Next(cfg, s, step), isClaude);
    StepSides(cfg, s, step, isClaude);
    forall id, ok | side'.log == side.log + [Entry(id, ok)]
      ensures side'.breaker.state == if ok then Closed else Open
    {
      assert side'.log[|side.log|] == Entry(id, ok);
    }
    assert |side.log + [Cleared]| == |side.log| + 1;
  }

  // ----- The probe's outcome can be overruled -----

  lemma RunStepsSnoc(cfg: Config, start: real, steps: seq<Step>, step: Step)
    ensures RunSteps(cfg, start, steps + [step]) == Next(cfg, RunSteps(cfg, start, steps), step)
  {
    assert (steps + [step])[..|steps|] == steps;
  }

  /** Request id is waiting for its first call to the model behind the first breaker. */
  predicate JustCalled(s: System, id: nat) {
    id in s.requests && s.requests[id] == Request(true, false, true, Calling(1, 0))
  }

  /** Two time-outs in a row end a request, whatever the retry policy is. */
  lemma TimesOut(cfg: Config, start: real, steps: seq<Step>, id: nat, now: real) returns (steps': seq<Step>)
    requires JustCalled(RunSteps(cfg, start, steps), id)
    ensures steps <= steps'
    ensures var s, s' := RunSteps(cfg, start, steps), RunSteps(cfg, start, steps');
            && s'.claude.breaker == Failed(cfg.settings, s.claude.breaker, now)
            && id in s'.requests && s'.requests[id].phase == Ended(false, false)
            && forall other :: other != id && JustCalled(s, other) ==> JustCalled(s', other)
    ensures forall other :: other !in RunSteps(cfg, start, steps).requests ==> other == id || other !in RunSteps(cfg, start, steps').requests
  {
    var s1 := steps + [Return(id, TimedOut, now)];
    RunStepsSnoc(cfg, start, steps, Return(id, TimedOut, now));
    assert Decide(cfg.policy, TimedOut, 1, 0) == Retry(cfg.policy.linear);
    var s2 := s1 + [Wake(id)];
    RunStepsSnoc(cfg, start, s1, Wake(id));
    assert Decide(cfg.policy, TimedOut, 2, 1) == GiveUp(504, false);
    steps' := s2 + [Return(id, TimedOut, now)];
    RunStepsSnoc(cfg, start, s2, Return(id, TimedOut, now));
  }

  lemma Arrives(cfg: Config, start: real, steps: seq<Step>, id: nat, now: real) returns (steps': seq<Step>)
    requires id !in RunSteps(cfg, start, steps).requests
    ensures steps' == steps + [Arrive(id, true, false, now)]
    ensures var s, s' := RunSteps(cfg, start, steps), RunSteps(cfg, start, steps');
            && s'.claude.breaker == Checked(cfg.settings, s.claude.breaker, now)
            && (s'.claude.breaker.state != Open ==> JustCalled(s', id))
            && (forall other :: other != id && JustCalled(s, other) ==> JustCalled(s', other))
            && (forall other :: other != id && other !in s.requests ==> other !in s'.requests)
  {
    steps' := steps + [Arrive(id, true, false, now)];
    RunStepsSnoc(cfg, start, steps, Arrive(id, true, false, now));
  }

  /** Request 0 is under way while k other requests fail one after the other at time 0. */
  lemma {:induction false} FailInARow(cfg: Config, k: nat) returns (steps: seq<Step>)
    requires k <= cfg.settings.threshold && cfg.settings.threshold >= 1
    ensures var s := RunSteps(cfg, 0.0, steps);
            && s.claude.breaker.failures == k && s.claude.breaker.lastChange == 0.0
            && s.claude.breaker.state == (if k < cfg.settings.threshold then Closed else Open)
            && JustCalled(s, 0)
            && forall id :: id == 1 || id >= k + 2 ==> id !in s.requests
  {
    if k == 0 {
      steps := Arrives(cfg, 0.0, [], 0, 0.0);
    } else {
      var before := FailInARow(cfg, k - 1);
      var arrived := Arrives(cfg, 0.0, before, k + 1, 0.0);
      steps := TimesOut(cfg, 0.0, arrived, k + 1, 0.0);
    }
  }

  /** It happens in the router, whatever the threshold, the recovery time and the retry policy are:
      there is a run in which request 1 finds the breaker half-open and gets its response, and yet
      leaves the breaker open, because request 0 was still under way and failed first. */
  lemma ProbeIsOverruled(cfg: Config) returns (before: seq<Step>, late: seq<Step>, last: Step)
    requires cfg.settings.threshold >= 1
    ensures RunSteps(cfg, 0.0, before).claude.breaker.state == HalfOpen && JustCalled(RunSteps(cfg, 0.0, before), 1)
    ensures before <= late && last == Return(1, Response, cfg.settings.recovery)
    ensures var s := RunSteps(cfg, 0.0, late + [last]);
            && 1 in s.requests && s.requests[1].phase == Ended(false, true)
            && s.claude.breaker.state == Open
  {
    var steps := FailInARow(cfg, cfg.settings.threshold);
    before := Arrives(cfg, 0.0, steps, 1, cfg.settings.recovery);
    late := TimesOut(cfg, 0.0, before, 0, cfg.settings.recovery);
    last := Return(1, Response, cfg.settings.recovery);
    RunStepsSnoc(cfg, 0.0, late, last);
  }
}
