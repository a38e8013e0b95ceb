/** Each request in an interleaving goes the course that the retry loop gives it on its own. */
module RequestCourse {
  import opened RetryLoop
  import opened RouterRuns

  /** Request id is waiting for its adapter, so that a return step concerns it. */
  predicate IsCalling(s: System, id: nat) {
    id in s.requests && s.requests[id].phase.Calling? && s.requests[id].phase.attempts >= 1
  }

  /** The outcomes that the adapter calls of request id have come to, in order. */
  function OutcomesOf(cfg: Config, start: real, steps: seq<Step>, id: nat): seq<Outcome> {
    if steps == [] then []
    else
      var before, step := steps[..|steps| - 1], steps[|steps| - 1];
      if step.Return? && step.id == id && IsCalling(RunSteps(cfg, start, before), id) then
        OutcomesOf(cfg, start, before, id) + [step.outcome]
      else OutcomesOf(cfg, start, before, id)
  }

  /** The n-th call comes to adapter(n), as far as calls have been made. */
  ghost predicate Agrees(outcomes: seq<Outcome>, adapter: nat -> Outcome) {
    forall i: nat :: i < |outcomes| ==> outcomes[i] == adapter(i + 1)
  }

  ghost predicate NoneEnds(p: Policy, adapter: nat -> Outcome, n: nat) {
    forall m: nat :: 1 <= m <= n ==> !EndsAt(p, adapter, m)
  }

  /** Call n is the first that ends the loop. */
  ghost predicate EndsFirst(p: Policy, adapter: nat -> Outcome, n: nat) {
    n >= 1 && EndsAt(p, adapter, n) && NoneEnds(p, adapter, n - 1)
  }

  /** The local model is asked: the breaker refused the request, or its last call ended in a rate limit
      or another adapter error. */
  ghost predicate AsksLocal(p: Policy, r: Request, adapter: nat -> Outcome, n: nat) {
    && r.mayFallBack
    && (if r.passed then EndsFirst(p, adapter, n) && (adapter(n).RateLimit? || IsOtherError(adapter(n))) else n == 0)
  }

  /** Where a request stands after n of its calls have come out. */
  ghost predicate OnCourse(p: Policy, r: Request, adapter: nat -> Outcome, n: nat) {
    match r.phase
    case Calling(attempts, timeouts) =>
      r.passed && attempts == n + 1 && NoneEnds(p, adapter, n) && CountsTimeouts(adapter, n, timeouts)
    case Sleeping(attempts, timeouts) =>
      r.passed && attempts == n >= 1 && NoneEnds(p, adapter, n) && CountsTimeouts(adapter, n, timeouts)
    case FallingBack => AsksLocal(p, r, adapter, n)
    case Rejected => !r.passed && !r.mayFallBack && n == 0
    case Ended(byFallback, ok) =>
      if byFallback then AsksLocal(p, r, adapter, n)
      else
        && r.passed && EndsFirst(p, adapter, n) && !adapter(n).Unexpected? && !AsksLocal(p, r, adapter, n)
        && (ok <==> adapter(n).Response?)
    case Aborted(duringFallback) =>
      if duringFallback then AsksLocal(p, r, adapter, n)
      else r.passed && (NoneEnds(p, adapter, n) || (EndsFirst(p, adapter, n) && adapter(n).Unexpected?))
  }

  lemma NoneEndsNext(p: Policy, adapter: nat -> Outcome, n: nat)
    requires NoneEnds(p, adapter, n)
    ensures EndsAt(p, adapter, n + 1) ==> EndsFirst(p, adapter, n + 1)
    ensures !EndsAt(p, adapter, n + 1) ==> NoneEnds(p, adapter, n + 1)
  {
  }

  lemma ReturnKeepsCourse(cfg: Config, s: System, id: nat, now: real, adapter: nat -> Outcome, n: nat)
    requires IsCalling(s, id) && OnCourse(cfg.policy, s.requests[id], adapter, n)
    ensures var s' := Returned(cfg, s, id, adapter(n + 1), now);
            id in s'.requests && OnCourse(cfg.policy, s'.requests[id], adapter, n + 1)
  {
    var t := s.requests[id].phase.timeouts;
    DecidesIff(cfg.policy, adapter, n, t);
    NoneEndsNext(cfg.policy, adapter, n);
    if !EndsAt(cfg.policy, adapter, n + 1) {
      TimeoutsCounted(adapter, n, t);
    }
  }

  lemma NoTimeoutsYet(adapter: nat -> Outcome)
    ensures CountsTimeouts(adapter, 0, 0)
  {
  }

  lemma StepKeepsCourse(cfg: Config, s: System, step: Step, id: nat, adapter: nat -> Outcome, n: nat)
    requires id in s.requests ==> OnCourse(cfg.policy, s.requests[id], adapter, n)
    requires id !in s.requests ==> n == 0
    requires step.Return? && step.id == id && IsCalling(s, id) ==> step.outcome == adapter(n + 1)
    ensures var s' := Next(cfg, s, step);
            var n' := if step.Return? && step.id == id && IsCalling(s, id) then n + 1 else n;
            if id in s'.requests then OnCourse(cfg.policy, s'.requests[id], adapter, n') else n' == 0
  {
    if step.Return? && step.id == id && IsCalling(s, id) {
      ReturnKeepsCourse(cfg, s, id, step.now, adapter, n);
    } else if step.Arrive? {
      NoTimeoutsYet(adapter);
    }
  }

  /** In every interleaving each request is where the retry loop on its own would be after the same
      outcomes: it goes on while no call has ended the loop, stops at the first that does, asks the
      local model exactly when it may and the breaker or that call sends it there, and otherwise ends
      as that call came out. */
  lemma {:induction false} RequestsKeepCourse(cfg: Config, start: real, steps: seq<Step>, id: nat, adapter: nat -> Outcome)
    requires Agrees(OutcomesOf(cfg, start, steps, id), adapter)
    ensures var s, n := RunSteps(cfg, start, steps), |OutcomesOf(cfg, start, steps, id)|;
            if id in s.requests then OnCourse(cfg.policy, s.requests[id], adapter, n) else n == 0
  {
    if steps != [] {
      var before, step := steps[..|steps| - 1], steps[|steps| - 1];
      var os := OutcomesOf(cfg, start, before, id);
      AgreesBefore(cfg, start, steps, id, adapter);
      RequestsKeepCourse(cfg, start, before, id, adapter);
      StepKeepsCourse(cfg, RunSteps(cfg, start, before), step, id, adapter, |os|);
    }
  }

  lemma AgreesBefore(cfg: Config, start: real, steps: seq<Step>, id: nat, adapter: nat -> Outcome)
    requires steps != [] && Agrees(OutcomesOf(cfg, start, steps, id), adapter)
    ensures var before, step := steps[..|steps| - 1], steps[|steps| - 1];
            var os := OutcomesOf(cfg, start, before, id);
            && Agrees(os, adapter)
            && (step.Return? && step.id == id && IsCalling(RunSteps(cfg, start, before), id) ==> step.outcome == adapter(|os| + 1))
  {
    var all := OutcomesOf(cfg, start, steps, id);
    var os := OutcomesOf(cfg, start, steps[..|steps| - 1], id);
    forall i: nat | i < |os|
      ensures os[i] == adapter(i + 1)
    {
      assert all[i] == os[i];
    }
    assert |all| == |os| + 1 ==> all[|os|] == adapter(|os| + 1);
  }

  /** A request whose own calls are over has made exactly the calls of the retry loop on its own, and
      has recorded and answered what that loop ends with. */
  lemma EndedAsLoop(cfg: Config, start: real, steps: seq<Step>, id: nat, adapter: nat -> Outcome)
    requires Agrees(OutcomesOf(cfg, start, steps, id), adapter)
    requires id in RunSteps(cfg, start, steps).requests && OwnCallOver(RunSteps(cfg, start, steps).requests[id])
    ensures var r, loop := RunSteps(cfg, start, steps).requests[id], Loop(cfg.policy, adapter, 0, 0, 0.0);
            && |OutcomesOf(cfg, start, steps, id)| == loop.calls
            && (loop.verdict.Done? <==> r.phase == Ended(false, true))
            && (r.phase.FallingBack? || (r.phase.Ended? && r.phase.byFallback) ==> loop.verdict.GiveUp? && loop.verdict.canFallBack && r.mayFallBack)
            && (r.phase == Ended(false, false) ==> loop.verdict.GiveUp? && !(loop.verdict.canFallBack && r.mayFallBack))
  {
    RequestsKeepCourse(cfg, start, steps, id, adapter);
    LoopEndsAtFirst(cfg.policy, adapter);
    OneFirst(cfg.policy, adapter, |OutcomesOf(cfg, start, steps, id)|, Loop(cfg.policy, adapter, 0, 0, 0.0).calls);
  }

  lemma OneFirst(p: Policy, adapter: nat -> Outcome, n: nat, calls: nat)
    requires calls >= 1 && EndsAt(p, adapter, calls) && forall m: nat :: 1 <= m < calls ==> !EndsAt(p, adapter, m)
    ensures EndsFirst(p, adapter, n) ==> n == calls
  {
  }

  lemma StepKeepsArrival(cfg: Config, s: System, step: Step, id: nat)
    requires id in Next(cfg, s, step).requests
    ensures var r' := Next(cfg, s, step).requests[id];
            if id in s.requests then r'.isClaude == s.requests[id].isClaude && r'.mayFallBack == s.requests[id].mayFallBack
            else step.Arrive? && step.id == id && r'.isClaude == step.isClaude && r'.mayFallBack == (step.isClaude && step.lowSensitivity)
  {
  }

  /** Only a request to Claude of low sensitivity may be sent to the local model. */
  lemma {:induction false} MayFallBackIff(cfg: Config, start: real, steps: seq<Step>, id: nat) returns (i: nat)
    requires id in RunSteps(cfg, start, steps).requests
    ensures i < |steps| && steps[i].Arrive? && steps[i].id == id
    ensures var r := RunSteps(cfg, start, steps).requests[id];
            r.isClaude == steps[i].isClaude && (r.mayFallBack <==> steps[i].isClaude && steps[i].lowSensitivity)
  {
    i := |steps| - 1;
    var before := RunSteps(cfg, start, steps[..i]);
    StepKeepsArrival(cfg, before, steps[i], id);
    if id in before.requests {
      i := MayFallBackIff(cfg, start, steps[..i], id);
    }
  }
}
