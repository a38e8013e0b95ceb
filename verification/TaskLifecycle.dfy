/** The orchestration service's tasks: create, cancel and retry requests interleaved with the
    background agent runs they start. A step runs from one await to the next. */
module TaskLifecycle {

  datatype Status = Pending | Running | Completed | Failed | Cancelled

  /** The status table: which changes are allowed. */
  predicate Allowed(current: Status, target: Status) {
    match current
    case Pending => target.Running? || target.Cancelled?
    case Running => target.Completed? || target.Failed? || target.Cancelled?
    case Failed => target.Running?
    case Completed => false
    case Cancelled => false
  }

  /** No change is allowed from a terminal status. */
  predicate IsTerminal(s: Status) {
    s.Completed? || s.Cancelled?
  }

  /** A background run of a task: scheduled, waiting for the agent loop, or waiting for the
      forced output after the overall time-out. */
  datatype Phase = Scheduled | InLoop | Forcing

  /** How the agent loop ends for its runner. */
  datatype LoopEnd = Normal(fatal: bool) | TimedOut | Exception

  /** Live runs are a sequence of (task, phase): nothing in the service itself rules out two
      runs of one task. */
  datatype Live = Live(task: nat, phase: Phase)

  datatype Service = Service(status: map<nat, Status>, outputs: set<nat>, runs: seq<Live>)

  datatype Event =
    | Create(task: nat)
    | Cancel(task: nat)
    | Retry(task: nat)
    | Start(run: nat)
    | LoopReturns(run: nat, end: LoopEnd)
    | ForcedReturns(run: nat, fatal: bool)

  function SetStatus(s: Service, task: nat, st: Status): Service {
    s.(status := s.status[task := st])
  }

  function Drop(runs: seq<Live>, i: nat): seq<Live>
    requires i < |runs|
  {
    runs[..i] + runs[i + 1..]
  }

  /** The end of _run_agent: the output is stored and the final status is written without
      looking at the current one. */
  function Finish(s: Service, i: nat, fatal: bool): Service
    requires i < |s.runs|
  {
    var task := s.runs[i].task;
    SetStatus(s.(outputs := s.outputs + {task}, runs := Drop(s.runs, i)), task, if fatal then Failed else Completed)
  }

  function Next(s: Service, e: Event): Service {
    match e
    case Create(task) =>
      if task in s.status then s
      else SetStatus(s, task, Pending).(runs := s.runs + [Live(task, Scheduled)])
    case Cancel(task) =>
      if task in s.status && Allowed(s.status[task], Cancelled) then SetStatus(s, task, Cancelled) else s
    case Retry(task) =>
      if task in s.status && s.status[task].Failed? then
        SetStatus(s, task, Running).(runs := s.runs + [Live(task, Scheduled)])
      else s
    case Start(i) =>
      if i < |s.runs| && s.runs[i].phase.Scheduled? && s.runs[i].task in s.status then
        var task := s.runs[i].task;
        if s.status[task].Running? then s.(runs := s.runs[i := Live(task, InLoop)])
        else if Allowed(s.status[task], Running) then SetStatus(s, task, Running).(runs := s.runs[i := Live(task, InLoop)])
        else s.(runs := Drop(s.runs, i))
      else s
    case LoopReturns(i, end) =>
      if i < |s.runs| && s.runs[i].phase.InLoop? then
        match end
        case Normal(fatal) => Finish(s, i, fatal)
        case TimedOut => s.(runs := s.runs[i := Live(s.runs[i].task, Forcing)])
        case Exception => SetStatus(s.(runs := Drop(s.runs, i)), s.runs[i].task, Failed)
      else s
    case ForcedReturns(i, fatal) =>
      if i < |s.runs| && s.runs[i].phase.Forcing? then Finish(s, i, fatal) else s
  }

  function Initial(): Service {
    Service(map[], {}, [])
  }

  function Run(s: Service, events: seq<Event>): Service {
    if events == [] then s else Next(Run(s, events[..|events| - 1]), events[|events| - 1])
  }

  // ----- The service as it is written -----

  /** What a request is answered with. */
  datatype Answer = Ok | NotFound | Conflict

  class Orchestrator {
    var status: map<nat, Status>
    var outputs: set<nat>
    var runs: seq<Live>

    function Value(): Service
      reads this
    {
      Service(status, outputs, runs)
    }

    constructor ()
      ensures Value() == Initial()
    {
      status, outputs, runs := map[], {}, [];
    }

    method CreateTask(task: nat)
      requires task !in status
      modifies this
      ensures Value() == Next(old(Value()), Create(task))
    {
      status := status[task := Pending];
      runs := runs + [Live(task, Scheduled)];
    }

    method CancelTask(task: nat) returns (a: Answer)
      modifies this
      ensures Value() == Next(old(Value()), Cancel(task))
      ensures a == if task !in old(status) then NotFound else if Allowed(old(status)[task], Cancelled) then Ok else Conflict
    {
      if task !in status {
        return NotFound;
      }
      if !Allowed(status[task], Cancelled) {
        return Conflict;
      }
      status := status[task := Cancelled];
      a := Ok;
    }

    method RetryTask(task: nat) returns (a: Answer)
      modifies this
      ensures Value() == Next(old(Value()), Retry(task))
      ensures a == if task !in old(status) then NotFound else if old(status)[task].Failed? then Ok else Conflict
    {
      if task !in status {
        return NotFound;
      }
      if !status[task].Failed? {
        return Conflict;
      }
      status := status[task := Running];
      runs := runs + [Live(task, Scheduled)];
      a := Ok;
    }

    /** _run_agent up to the await of the agent loop. */
    method StartRun(i: nat)
      requires i < |runs| && runs[i].phase.Scheduled? && runs[i].task in status
      modifies this
      ensures Value() == Next(old(Value()), Start(i))
    {
      var task := runs[i].task;
      var current := status[task];
      if !current.Running? {
        if !Allowed(current, Running) {
          runs := runs[..i] + runs[i + 1..];
          return;
        }
        status := status[task := Running];
      }
      runs := runs[i := Live(task, InLoop)];
    }

    /** _run_agent after the agent loop. */
    method EndLoop(i: nat, end: LoopEnd)
      requires i < |runs| && runs[i].phase.InLoop?
      modifies this
      ensures Value() == Next(old(Value()), LoopReturns(i, end))
    {
      match end {
        case Normal(fatal) => StoreAndFinish(i, fatal);
        case TimedOut => runs := runs[i := Live(runs[i].task, Forcing)];
        case Exception =>
          status := status[runs[i].task := Failed];
          runs := runs[..i] + runs[i + 1..];
      }
    }

    /** _run_agent after the forced output. */
    method EndForced(i: nat, fatal: bool)
      requires i < |runs| && runs[i].phase.Forcing?
      modifies this
      ensures Value() == Next(old(Value()), ForcedReturns(i, fatal))
    {
      StoreAndFinish(i, fatal);
    }

    method StoreAndFinish(i: nat, fatal: bool)
      requires i < |runs|
      modifies this
      ensures Value() == Finish(old(Value()), i, fatal)
    {
      var task := runs[i].task;
      outputs := outputs + {task};
      if fatal {
        status := status[task := Failed];
      } else {
        status := status[task := Completed];
      }
      runs := runs[..i] + runs[i + 1..];
    }
  }

  // ----- Every run -----

  /** The live runs of a task. */
  function RunsOf(runs: seq<Live>, task: nat): seq<Phase> {
    if runs == [] then []
    else if runs[|runs| - 1].task == task then RunsOf(runs[..|runs| - 1], task) + [runs[|runs| - 1].phase]
    else RunsOf(runs[..|runs| - 1], task)
  }

  lemma {:induction false} RunsOfUpdate(runs: seq<Live>, i: nat, phase: Phase, task: nat)
    requires i < |runs|
    ensures var r := RunsOf(runs[i := Live(runs[i].task, phase)], task);
            if runs[i].task == task then |r| == |RunsOf(runs, task)| && (|r| == 1 ==> r == [phase])
            else r == RunsOf(runs, task)
  {
    var runs' := runs[i := Live(runs[i].task, phase)];
    if i < |runs| - 1 {
      RunsOfUpdate(runs[..|runs| - 1], i, phase, task);
      assert runs'[..|runs| - 1] == runs[..|runs| - 1][i := Live(runs[i].task, phase)];
      if runs[i].task == task {
        RunIsListed(runs[..|runs| - 1], i);
      }
    } else {
      assert runs'[..i] == runs[..i];
    }
  }

  lemma {:induction false} RunIsListed(runs: seq<Live>, i: nat)
    requires i < |runs|
    ensures |RunsOf(runs, runs[i].task)| >= 1
    ensures |RunsOf(runs, runs[i].task)| == 1 ==> RunsOf(runs, runs[i].task) == [runs[i].phase]
  {
    if i < |runs| - 1 {
      RunIsListed(runs[..|runs| - 1], i);
    }
  }

  lemma {:induction false} RunsOfDrop(runs: seq<Live>, i: nat, task: nat)
    requires i < |runs|
    ensures |RunsOf(Drop(runs, i), task)| == |RunsOf(runs, task)| - if runs[i].task == task then 1 else 0
    ensures runs[i].task != task ==> RunsOf(Drop(runs, i), task) == RunsOf(runs, task)
  {
    var d := Drop(runs, i);
    if i < |runs| - 1 {
      RunsOfDrop(runs[..|runs| - 1], i, task);
      assert d[..|d| - 1] == Drop(runs[..|runs| - 1], i);
    } else {
      assert d == runs[..|runs| - 1];
    }
  }

  lemma RunsOfSnoc(runs: seq<Live>, r: Live, task: nat)
    ensures RunsOf(runs + [r], task) == if r.task == task then RunsOf(runs, task) + [r.phase] else RunsOf(runs, task)
  {
    assert (runs + [r])[..|runs|] == runs;
  }

  /** What is true of a task: at most one live run, none once it failed or completed, only an
      unstarted one while it is pending, exactly one while it runs, and a stored output once
      it completed. */
  ghost predicate TaskOk(s: Service, task: nat) {
    var runs := RunsOf(s.runs, task);
    if task !in s.status then runs == []
    else
      match s.status[task]
      case Pending => runs == [Scheduled]
      case Running => |runs| == 1
      case Completed => runs == [] && task in s.outputs
      case Failed => runs == []
      case Cancelled => |runs| <= 1
  }

  ghost predicate Invariant(s: Service) {
    forall task :: TaskOk(s, task)
  }

  /** The task an event is about. */
  function Subject(s: Service, e: Event): nat {
    match e
    case Create(task) => task
    case Cancel(task) => task
    case Retry(task) => task
    case Start(i) => if i < |s.runs| then s.runs[i].task else 0
    case LoopReturns(i, _) => if i < |s.runs| then s.runs[i].task else 0
    case ForcedReturns(i, _) => if i < |s.runs| then s.runs[i].task else 0
  }

  lemma OtherRuns(runs: seq<Live>, i: nat, phase: Phase, task: nat)
    requires i < |runs| && runs[i].task != task
    ensures RunsOf(Drop(runs, i), task) == RunsOf(runs, task)
    ensures RunsOf(runs[i := Live(runs[i].task, phase)], task) == RunsOf(runs, task)
  {
    RunsOfDrop(runs, i, task);
    RunsOfUpdate(runs, i, phase, task);
  }

  lemma RequestKeepsOtherRuns(s: Service, e: Event, task: nat)
    requires (e.Create? || e.Cancel? || e.Retry?) && task != Subject(s, e)
    ensures RunsOf(Next(s, e).runs, task) == RunsOf(s.runs, task)
  {
    RunsOfSnoc(s.runs, Live(Subject(s, e), Scheduled), task);
  }

  /** An event about run i leaves the live runs, drops that one, or takes it to its next phase. */
  lemma RunsAfterRun(s: Service, e: Event, i: nat, next: Phase)
    requires i < |s.runs| && (e == Start(i) || (e.LoopReturns? && e.run == i) || (e.ForcedReturns? && e.run == i))
    requires next == if e.Start? then InLoop else Forcing
    ensures Next(s, e).runs in [s.runs, Drop(s.runs, i), s.runs[i := Live(s.runs[i].task, next)]]
  {
  }

  lemma RunKeepsOtherRuns(s: Service, e: Event, i: nat, task: nat)
    requires i < |s.runs| && s.runs[i].task != task
    requires e == Start(i) || (e.LoopReturns? && e.run == i) || (e.ForcedReturns? && e.run == i)
    ensures RunsOf(Next(s, e).runs, task) == RunsOf(s.runs, task)
  {
    var next := if e.Start? then InLoop else Forcing;
    RunsAfterRun(s, e, i, next);
    OtherRuns(s.runs, i, next, task);
  }

  /** An event leaves the live runs of every other task alone. */
  lemma OtherRunsStay(s: Service, e: Event, task: nat)
    requires task != Subject(s, e)
    ensures RunsOf(Next(s, e).runs, task) == RunsOf(s.runs, task)
  {
    if e.Create? || e.Cancel? || e.Retry? {
      RequestKeepsOtherRuns(s, e, task);
    } else if e.run < |s.runs| {
      RunKeepsOtherRuns(s, e, e.run, task);
    }
  }

  /** An event leaves the status and the output of every other task alone. */
  lemma OthersStay(s: Service, e: Event, task: nat)
    requires task != Subject(s, e)
    ensures var s' := Next(s, e);
            && (task in s'.status <==> task in s.status)
            && (task in s.status ==> s'.status[task] == s.status[task])
            && (task in s'.outputs <==> task in s.outputs)
  {
  }

  /** A run that ends leaves its task with none; one that goes on leaves it with just that one. */
  lemma SubjectRuns(runs: seq<Live>, i: nat, phase: Phase)
    requires i < |runs| && |RunsOf(runs, runs[i].task)| <= 1
    ensures RunsOf(runs, runs[i].task) == [runs[i].phase]
    ensures RunsOf(Drop(runs, i), runs[i].task) == []
    ensures RunsOf(runs[i := Live(runs[i].task, phase)], runs[i].task) == [phase]
  {
    RunIsListed(runs, i);
    RunsOfDrop(runs, i, runs[i].task);
    RunsOfUpdate(runs, i, phase, runs[i].task);
  }

  lemma RequestKeepsSubject(s: Service, e: Event)
    requires Invariant(s) && (e.Create? || e.Cancel? || e.Retry?)
    ensures TaskOk(Next(s, e), Subject(s, e))
  {
    var task := Subject(s, e);
    assert TaskOk(s, task);
    RunsOfSnoc(s.runs, Live(task, Scheduled), task);
  }

  lemma StartKeepsSubject(s: Service, i: nat)
    requires Invariant(s) && i < |s.runs|
    ensures TaskOk(Next(s, Start(i)), s.runs[i].task)
  {
    assert TaskOk(s, s.runs[i].task);
    SubjectRuns(s.runs, i, InLoop);
  }

  lemma ReturnKeepsSubject(s: Service, i: nat, end: LoopEnd)
    requires Invariant(s) && i < |s.runs|
    ensures TaskOk(Next(s, LoopReturns(i, end)), s.runs[i].task)
  {
    assert TaskOk(s, s.runs[i].task);
    SubjectRuns(s.runs, i, Forcing);
  }

  lemma ForcedKeepsSubject(s: Service, i: nat, fatal: bool)
    requires Invariant(s) && i < |s.runs|
    ensures TaskOk(Next(s, ForcedReturns(i, fatal)), s.runs[i].task)
  {
    assert TaskOk(s, s.runs[i].task);
    SubjectRuns(s.runs, i, Forcing);
  }

  lemma SubjectStaysOk(s: Service, e: Event)
    requires Invariant(s)
    ensures TaskOk(Next(s, e), Subject(s, e))
  {
    assert TaskOk(s, Subject(s, e));
    match e
    case Start(i) => if i < |s.runs| { StartKeepsSubject(s, i); }
    case LoopReturns(i, end) => if i < |s.runs| { ReturnKeepsSubject(s, i, end); }
    case ForcedReturns(i, fatal) => if i < |s.runs| { ForcedKeepsSubject(s, i, fatal); }
    case _ => RequestKeepsSubject(s, e);
  }

  lemma StepKeepsInvariant(s: Service, e: Event)
    requires Invariant(s)
    ensures Invariant(Next(s, e))
  {
    forall task
      ensures TaskOk(Next(s, e), task)
    {
      assert TaskOk(s, task);
      if task == Subject(s, e) {
        SubjectStaysOk(s, e);
      } else {
        OtherRunsStay(s, e, task);
        OthersStay(s, e, task);
      }
    }
  }

  /** In every interleaving of requests and agent steps, each task has at most one live run, a
      failed or completed task has none, and a completed task has its output stored. */
  lemma {:induction false} EveryRunKeepsInvariant(events: seq<Event>)
    ensures Invariant(Run(Initial(), events))
  {
    if events != [] {
      EveryRunKeepsInvariant(events[..|events| - 1]);
      StepKeepsInvariant(Run(Initial(), events[..|events| - 1]), events[|events| - 1]);
    }
  }

  /** No run of the task is past its start. */
  ghost predicate NotStarted(s: Service, task: nat) {
    RunsOf(s.runs, task) == [] || RunsOf(s.runs, task) == [Scheduled]
  }

  predicate IsCancelled(s: Service, task: nat) {
    task in s.status && s.status[task].Cancelled?
  }

  lemma StepKeepsCancelled(s: Service, e: Event, task: nat)
    requires Invariant(s) && IsCancelled(s, task) && NotStarted(s, task)
    ensures IsCancelled(Next(s, e), task) && NotStarted(Next(s, e), task)
  {
    if task != Subject(s, e) {
      OtherRunsStay(s, e, task);
      OthersStay(s, e, task);
    } else {
      match e
      case Start(i) =>
        if i < |s.runs| {
          RunIsListed(s.runs, i);
          RunsOfDrop(s.runs, i, task);
        }
      case LoopReturns(i, _) => if i < |s.runs| { RunIsListed(s.runs, i); }
      case ForcedReturns(i, _) => if i < |s.runs| { RunIsListed(s.runs, i); }
      case _ =>
    }
  }

  lemma {:induction false} StaysCancelled(s: Service, events: seq<Event>, task: nat)
    requires Invariant(s) && IsCancelled(s, task) && NotStarted(s, task)
    ensures var s' := Run(s, events);
            Invariant(s') && IsCancelled(s', task) && NotStarted(s', task)
  {
    if events != [] {
      StaysCancelled(s, events[..|events| - 1], task);
      StepKeepsCancelled(Run(s, events[..|events| - 1]), events[|events| - 1], task);
      StepKeepsInvariant(Run(s, events[..|events| - 1]), events[|events| - 1]);
    }
  }

  lemma {:induction false} FindRun(runs: seq<Live>, task: nat) returns (i: nat)
    requires RunsOf(runs, task) != []
    ensures i < |runs| && runs[i].task == task
  {
    if runs[|runs| - 1].task == task {
      i := |runs| - 1;
    } else {
      i := FindRun(runs[..|runs| - 1], task);
    }
  }

  /** A started run overwrites a cancellation when it ends. */
  lemma StartedRunOverwrites(s: Service, task: nat) returns (e: Event)
    requires Invariant(s) && IsCancelled(s, task) && !NotStarted(s, task)
    ensures !IsCancelled(Run(s, [e]), task)
  {
    assert TaskOk(s, task);
    var i := FindRun(s.runs, task);
    RunIsListed(s.runs, i);
    e := if s.runs[i].phase.InLoop? then LoopReturns(i, Normal(false)) else ForcedReturns(i, false);
    assert [e][..0] == [];
    assert Run(s, [e]) == Next(s, e);
  }

  ghost predicate CancelledForever(s: Service, task: nat) {
    forall events :: IsCancelled(Run(s, events), task)
  }

  /** A cancelled task stays cancelled in every continuation exactly when its agent had not
      started: one that had overwrites the status when it ends. */
  lemma CancelIsFinalIffNotStarted(s: Service, task: nat)
    requires Invariant(s) && IsCancelled(s, task)
    ensures CancelledForever(s, task) <==> NotStarted(s, task)
  {
    if NotStarted(s, task) {
      forall events
        ensures IsCancelled(Run(s, events), task)
      {
        StaysCancelled(s, events, task);
      }
    } else {
      var e := StartedRunOverwrites(s, task);
      assert !IsCancelled(Run(s, [e]), task);
    }
  }

  /** Every change of status is one the table allows, except that an agent run that ends after
      its task was cancelled overwrites the cancellation. */
  lemma ChangesFollowTable(s: Service, e: Event, task: nat)
    requires Invariant(s) && task in s.status && task in Next(s, e).status
    requires Next(s, e).status[task] != s.status[task]
    ensures !Allowed(s.status[task], Next(s, e).status[task]) <==>
            s.status[task].Cancelled? && (e.LoopReturns? || e.ForcedReturns?)
    ensures s.status[task].Cancelled? ==> !NotStarted(s, task)
  {
    assert TaskOk(s, task);
    if task != Subject(s, e) {
      OtherRunsStay(s, e, task);
      OthersStay(s, e, task);
    } else if e.LoopReturns? || e.ForcedReturns? {
      RunIsListed(s.runs, e.run);
    }
  }

  // ----- Which event makes which change -----

  /** Event e is about live run i, which is in this phase of this task. */
  predicate IsRun(s: Service, i: nat, task: nat, phase: Phase) {
    i < |s.runs| && s.runs[i] == Live(task, phase)
  }

  /** The agent of the task returns, from its loop or from the forced output, fatally or not. */
  predicate Returns(s: Service, e: Event, task: nat, fatal: bool) {
    || (e.LoopReturns? && e.end == Normal(fatal) && IsRun(s, e.run, task, InLoop))
    || (e.ForcedReturns? && e.fatal == fatal && IsRun(s, e.run, task, Forcing))
  }

  /** The agent loop of the task ends with an exception. */
  predicate Breaks(s: Service, e: Event, task: nat) {
    e.LoopReturns? && e.end == Exception && IsRun(s, e.run, task, InLoop)
  }

  /** The task gets the status with event e. */
  predicate Gets(s: Service, e: Event, task: nat, st: Status) {
    var s' := Next(s, e);
    task in s'.status && s'.status[task] == st && (task in s.status ==> s.status[task] != st)
  }

  /** The live run of a task is the one the event is about. */
  lemma OnlyRun(s: Service, i: nat)
    requires Invariant(s) && i < |s.runs|
    ensures s.runs[i].task in s.status && RunsOf(s.runs, s.runs[i].task) == [s.runs[i].phase]
    ensures !s.status[s.runs[i].task].Completed? && !s.status[s.runs[i].task].Failed?
    ensures s.status[s.runs[i].task].Pending? ==> s.runs[i].phase.Scheduled?
  {
    assert TaskOk(s, s.runs[i].task);
    RunIsListed(s.runs, i);
  }

  predicate AboutRun(s: Service, e: Event) {
    (e.Start? || e.LoopReturns? || e.ForcedReturns?) && e.run < |s.runs|
  }

  lemma CompletedIff(s: Service, e: Event, task: nat)
    requires Invariant(s)
    ensures Gets(s, e, task, Completed) <==> Returns(s, e, task, false)
  {
    if AboutRun(s, e) {
      OnlyRun(s, e.run);
    }
  }

  lemma FailedIff(s: Service, e: Event, task: nat)
    requires Invariant(s)
    ensures Gets(s, e, task, Failed) <==> Returns(s, e, task, true) || Breaks(s, e, task)
  {
    if AboutRun(s, e) {
      OnlyRun(s, e.run);
    }
  }

  /** In every run a task is completed exactly when its agent returns without a fatal error, and failed
      exactly when it returns with one or its loop breaks off, cancelled meanwhile or not. */
  lemma FinalStatusIff(events: seq<Event>, e: Event, task: nat)
    ensures var s := Run(Initial(), events);
            && (Gets(s, e, task, Completed) <==> Returns(s, e, task, false))
            && (Gets(s, e, task, Failed) <==> Returns(s, e, task, true) || Breaks(s, e, task))
  {
    EveryRunKeepsInvariant(events);
    CompletedIff(Run(Initial(), events), e, task);
    FailedIff(Run(Initial(), events), e, task);
  }

  predicate HasStatus(s: Service, task: nat, st: Status) {
    task in s.status && s.status[task] == st
  }

  predicate StartsPending(s: Service, e: Event, task: nat) {
    e.Start? && IsRun(s, e.run, task, Scheduled) && HasStatus(s, task, Pending)
  }

  lemma RunningIff(s: Service, e: Event, task: nat)
    requires Invariant(s)
    ensures Gets(s, e, task, Running) <==> (e == Retry(task) && HasStatus(s, task, Failed)) || StartsPending(s, e, task)
  {
    if AboutRun(s, e) {
      OnlyRun(s, e.run);
    }
  }

  lemma PendingIff(s: Service, e: Event, task: nat)
    ensures Gets(s, e, task, Pending) <==> e == Create(task) && task !in s.status
  {
  }

  lemma CancelledIff(s: Service, e: Event, task: nat)
    ensures Gets(s, e, task, Cancelled) <==>
            e == Cancel(task) && (HasStatus(s, task, Pending) || HasStatus(s, task, Running))
  {
  }

  /** The other changes: a task is new exactly when it is created, runs exactly when its scheduled agent
      starts while it is pending or when it is retried after it failed, and is cancelled exactly by
      a cancel while it is pending or running. */
  lemma OtherStatusIff(events: seq<Event>, e: Event, task: nat)
    ensures var s := Run(Initial(), events);
            && (Gets(s, e, task, Pending) <==> e == Create(task) && task !in s.status)
            && (Gets(s, e, task, Running) <==> (e == Retry(task) && HasStatus(s, task, Failed)) || StartsPending(s, e, task))
            && (Gets(s, e, task, Cancelled) <==>
                  e == Cancel(task) && (HasStatus(s, task, Pending) || HasStatus(s, task, Running)))
  {
    EveryRunKeepsInvariant(events);
    PendingIff(Run(Initial(), events), e, task);
    RunningIff(Run(Initial(), events), e, task);
    CancelledIff(Run(Initial(), events), e, task);
  }

  /** An output is stored exactly when the agent of the task returns, whatever the status then is. */
  lemma OutputIff(s: Service, e: Event, task: nat)
    ensures task in Next(s, e).outputs <==> task in s.outputs || Returns(s, e, task, false) || Returns(s, e, task, true)
  {
  }

  predicate Schedules(s: Service, e: Event, task: nat) {
    (e == Create(task) && task !in s.status) || (e == Retry(task) && HasStatus(s, task, Failed))
  }

  predicate Overruns(s: Service, e: Event, task: nat) {
    e.LoopReturns? && e.end == TimedOut && IsRun(s, e.run, task, InLoop)
  }

  /** The live run of a task after an event: a request schedules one, a start takes it into the loop
      unless the task was cancelled, a time-out into the forced output, and any other end ends it. */
  function LiveAfter(s: Service, e: Event, task: nat): seq<Phase> {
    if Schedules(s, e, task) then [Scheduled]
    else if e.Start? && IsRun(s, e.run, task, Scheduled) then if IsCancelled(s, task) then [] else [InLoop]
    else if Overruns(s, e, task) then [Forcing]
    else if Returns(s, e, task, false) || Returns(s, e, task, true) || Breaks(s, e, task) then []
    else RunsOf(s.runs, task)
  }

  lemma RunsAfterRequest(s: Service, e: Event)
    requires e.Create? || e.Cancel? || e.Retry?
    ensures Next(s, e).runs == if Schedules(s, e, Subject(s, e)) then s.runs + [Live(Subject(s, e), Scheduled)] else s.runs
  {
  }

  lemma FirstRun(runs: seq<Live>, r: Live)
    requires RunsOf(runs, r.task) == []
    ensures RunsOf(runs + [r], r.task) == [r.phase]
  {
    RunsOfSnoc(runs, r, r.task);
  }

  lemma LiveAfterRequest(s: Service, e: Event, task: nat)
    requires Invariant(s) && (e.Create? || e.Cancel? || e.Retry?)
    ensures RunsOf(Next(s, e).runs, task) == LiveAfter(s, e, task)
  {
    RunsAfterRequest(s, e);
    if !Schedules(s, e, Subject(s, e)) {
    } else if task == Subject(s, e) {
      NoneBefore(s, e, task);
      FirstRun(s.runs, Live(task, Scheduled));
    } else {
      RunsOfSnoc(s.runs, Live(Subject(s, e), Scheduled), task);
    }
  }

  lemma NoneBefore(s: Service, e: Event, task: nat)
    requires Invariant(s)
    ensures Schedules(s, e, task) ==> RunsOf(s.runs, task) == []
  {
    assert TaskOk(s, task);
  }

  lemma LiveAfterStart(s: Service, i: nat)
    requires Invariant(s) && i < |s.runs|
    ensures RunsOf(Next(s, Start(i)).runs, s.runs[i].task) == LiveAfter(s, Start(i), s.runs[i].task)
  {
    OnlyRun(s, i);
    SubjectRuns(s.runs, i, InLoop);
  }

  lemma LiveAfterLoop(s: Service, i: nat, end: LoopEnd)
    requires Invariant(s) && i < |s.runs|
    ensures RunsOf(Next(s, LoopReturns(i, end)).runs, s.runs[i].task) == LiveAfter(s, LoopReturns(i, end), s.runs[i].task)
  {
    OnlyRun(s, i);
    SubjectRuns(s.runs, i, Forcing);
  }

  lemma LiveAfterForced(s: Service, i: nat, fatal: bool)
    requires Invariant(s) && i < |s.runs|
    ensures RunsOf(Next(s, ForcedReturns(i, fatal)).runs, s.runs[i].task) == LiveAfter(s, ForcedReturns(i, fatal), s.runs[i].task)
  {
    OnlyRun(s, i);
    SubjectRuns(s.runs, i, Forcing);
  }

  lemma LiveElsewhere(s: Service, e: Event, task: nat)
    requires (e.Start? || e.LoopReturns? || e.ForcedReturns?) && (e.run < |s.runs| ==> s.runs[e.run].task != task)
    ensures LiveAfter(s, e, task) == RunsOf(s.runs, task)
  {
  }

  lemma LiveRunMoves(s: Service, e: Event, task: nat)
    requires Invariant(s)
    ensures RunsOf(Next(s, e).runs, task) == LiveAfter(s, e, task)
  {
    if e.Create? || e.Cancel? || e.Retry? {
      LiveAfterRequest(s, e, task);
    } else if e.run >= |s.runs| {
      LiveElsewhere(s, e, task);
    } else if s.runs[e.run].task != task {
      LiveElsewhere(s, e, task);
      OtherRunsStay(s, e, task);
    } else {
      match e
      case Start(i) => LiveAfterStart(s, i);
      case LoopReturns(i, end) => LiveAfterLoop(s, i, end);
      case ForcedReturns(i, fatal) => LiveAfterForced(s, i, fatal);
    }
  }

  /** In every run the live runs of the tasks move on like this and in no other way. */
  lemma LiveRunsMove(events: seq<Event>, e: Event, task: nat)
    ensures var s := Run(Initial(), events);
            RunsOf(Next(s, e).runs, task) == LiveAfter(s, e, task)
  {
    EveryRunKeepsInvariant(events);
    LiveRunMoves(Run(Initial(), events), e, task);
  }

  /** Some run changes the status of a task from one to another. */
  ghost predicate Happens(current: Status, target: Status) {
    exists events, e, task: nat :: Changes(Run(Initial(), events), e, task, current, target)
  }

  predicate Changes(s: Service, e: Event, task: nat, current: Status, target: Status) {
    HasStatus(s, task, current) && HasStatus(Next(s, e), task, target)
  }

  lemma RunSnoc(s: Service, events: seq<Event>, e: Event)
    ensures Run(s, events + [e]) == Next(Run(s, events), e)
  {
    assert (events + [e])[..|events|] == events;
  }

  /** A run that takes task 0 to a status from which changes are allowed, its agent being run 0. */
  lemma RunTo(current: Status) returns (events: seq<Event>)
    requires !IsTerminal(current)
    ensures var s := Run(Initial(), events);
            && HasStatus(s, 0, current)
            && s.runs == if current.Pending? then [Live(0, Scheduled)] else if current.Running? then [Live(0, InLoop)] else []
  {
    events := [Create(0)];
    assert events[..0] == [];
    assert Run(Initial(), events).runs == [Live(0, Scheduled)];
    if !current.Pending? {
      RunSnoc(Initial(), events, Start(0));
      events := events + [Start(0)];
    }
    if current.Failed? {
      RunSnoc(Initial(), events, LoopReturns(0, Exception));
      events := events + [LoopReturns(0, Exception)];
    }
  }

  /** Apart from overwritten cancellations, the table allows exactly the changes that happen. */
  lemma AllowedIffHappens(current: Status, target: Status)
    requires current != target && !current.Cancelled?
    ensures Allowed(current, target) <==> Happens(current, target)
  {
    if Allowed(current, target) {
      var events := RunTo(current);
      var e :=
        if target.Running? then if current.Pending? then Start(0) else Retry(0)
        else if target.Cancelled? then Cancel(0)
        else LoopReturns(0, Normal(target.Failed?));
      assert Changes(Run(Initial(), events), e, 0, current, target);
    }
    forall events, e, task: nat | Changes(Run(Initial(), events), e, task, current, target)
      ensures Allowed(current, target)
    {
      EveryRunKeepsInvariant(events);
      ChangesFollowTable(Run(Initial(), events), e, task);
    }
  }

  /** is_terminal agrees with the table: a status is terminal when no change from it is allowed. */
  lemma TerminalIsStuck(s: Status)
    ensures IsTerminal(s) <==> forall t :: !Allowed(s, t)
  {
    assert s.Pending? ==> Allowed(s, Running);
    assert s.Running? ==> Allowed(s, Failed);
    assert s.Failed? ==> Allowed(s, Running);
  }
}
