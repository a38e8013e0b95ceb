/** The agent loop: plan, run a tool, observe, until the model finishes, fails twice or the
    iterations are used up; then the output is formatted if it has not been. */
module AgentLoop {
  import opened Options
  import opened FirstSeen

  datatype Chunk = Chunk(id: string, documentId: string, content: string, score: real)

  datatype Section = Section(title: string, content: string, wordCount: nat)

  datatype Citation = Citation(refId: string, confidence: string, sentence: string)

  datatype ToolCall = ToolCall(toolName: string, success: bool)

  datatype FatalError = CallsFailed | OutputUnparseable

  /** The agent's state at one moment, with the runner's count of parse failures, and how many
      outputs the output service has made for the run's format_output calls. */
  datatype Snapshot = Snapshot(
    chunks: seq<Chunk>, sections: seq<Section>, citations: map<string, Citation>, remaining: seq<string>,
    iteration: nat, history: seq<ToolCall>, fatal: Option<FatalError>, failures: nat, delivered: nat)

  // ----- What the state's methods do -----

  function Ids(chunks: seq<Chunk>): (r: seq<string>)
    ensures |r| == |chunks| && forall i :: 0 <= i < |chunks| ==> r[i] == chunks[i].id
  {
    seq(|chunks|, i requires 0 <= i < |chunks| => chunks[i].id)
  }

  function WithChunk(have: seq<Chunk>, c: Chunk): seq<Chunk> {
    if c.id != "" && c.id !in Ids(have) then have + [c] else have
  }

  function WithChunks(have: seq<Chunk>, found: seq<Chunk>): seq<Chunk> {
    if found == [] then have else WithChunk(WithChunks(have, found[..|found| - 1]), found[|found| - 1])
  }

  /** list.remove: the first occurrence goes, if there is one. */
  function RemoveFirst(titles: seq<string>, title: string): seq<string> {
    if titles == [] then []
    else if titles[0] == title then titles[1..]
    else [titles[0]] + RemoveFirst(titles[1..], title)
  }

  function WithCitation(citations: map<string, Citation>, c: Citation): map<string, Citation> {
    if c.refId == "" then citations else citations[c.refId := c]
  }

  function WithCitations(citations: map<string, Citation>, found: seq<Citation>): map<string, Citation> {
    if found == [] then citations
    else WithCitation(WithCitations(citations, found[..|found| - 1]), found[|found| - 1])
  }

  /** How often a title is to do. */
  function Count(titles: seq<string>, title: string): nat {
    if titles == [] then 0 else Count(titles[1..], title) + if titles[0] == title then 1 else 0
  }

  /** How often a section with the title has been generated. */
  function Generated(sections: seq<Section>, title: string): nat {
    if sections == [] then 0
    else Generated(sections[..|sections| - 1], title) + if sections[|sections| - 1].title == title then 1 else 0
  }

  // ----- What comes from outside -----

  /** How a tool changes the state. */
  datatype Effect = FoundChunks(chunks: seq<Chunk>) | WroteSection(section: Section) | CheckedCitations(citations: seq<Citation>)

  /** How an attempt at a tool ends. delivered tells whether a format_output that returned got its
      output made: when the output service answers with an error the tool returns as well. */
  datatype Ending = Returned(delivered: bool) | TimedOut | Raised

  datatype Attempt = Attempt(effects: seq<Effect>, ending: Ending)

  /** What the language model answers to a plan request. */
  datatype PlanReply = HttpFailure | NoChoices | ToolRequest(name: string) | SaysFinish | Unparseable

  /** The answers of one run: by iteration, and for tools also by attempt. */
  datatype World = World(reply: nat -> PlanReply, attempt: (nat, nat) -> Attempt)

  datatype Action = Finish | NoAction | Call(name: string)

  const FORMAT_OUTPUT := "format_output"
  const MAX_RETRIES: nat := 1

  // ----- The loop as a function -----

  function Apply(s: Snapshot, effect: Effect): Snapshot {
    match effect
    case FoundChunks(chunks) => s.(chunks := WithChunks(s.chunks, chunks))
    case WroteSection(section) =>
      s.(sections := s.sections + [section], remaining := RemoveFirst(s.remaining, section.title))
    case CheckedCitations(citations) => s.(citations := WithCitations(s.citations, citations))
  }

  function ApplyAll(s: Snapshot, effects: seq<Effect>): (r: Snapshot)
    ensures r.iteration == s.iteration && r.fatal == s.fatal && r.failures == s.failures
    ensures r.history == s.history && r.delivered == s.delivered
  {
    if effects == [] then s else Apply(ApplyAll(s, effects[..|effects| - 1]), effects[|effects| - 1])
  }

  /** The outputs made by an attempt at a tool. */
  function Outputs(name: string, ending: Ending): nat {
    if name == FORMAT_OUTPUT && ending == Returned(true) then 1 else 0
  }

  /** The attempts from the k-th on: the first that returns is recorded as a success, and when
      none does the failure is recorded after the last. */
  function RunTool(s: Snapshot, name: string, attempt: nat -> Attempt, k: nat): (r: Snapshot)
    requires k <= MAX_RETRIES
    ensures r.iteration == s.iteration && r.fatal == s.fatal && r.failures == s.failures
    decreases MAX_RETRIES - k
  {
    var s' := ApplyAll(s, attempt(k).effects);
    if attempt(k).ending.Returned? then
      s'.(history := s'.history + [ToolCall(name, true)], delivered := s'.delivered + Outputs(name, attempt(k).ending))
    else if k == MAX_RETRIES then s'.(history := s'.history + [ToolCall(name, false)])
    else RunTool(s', name, attempt, k + 1)
  }

  predicate Fails(reply: PlanReply) {
    reply.HttpFailure? || reply.Unparseable?
  }

  function Plan(s: Snapshot, reply: PlanReply): (Snapshot, Action) {
    match reply
    case NoChoices => (s, NoAction)
    case ToolRequest(name) => (s, Call(name))
    case SaysFinish => (s, Finish)
    case _ =>
      var s' := s.(failures := s.failures + 1);
      if s'.failures >= 2 then
        (s'.(fatal := Some(if reply.HttpFailure? then CallsFailed else OutputUnparseable)), Finish)
      else (s', NoAction)
  }

  /** The attempts of iteration n. */
  function Attempts(world: World, n: nat): nat -> Attempt {
    (k: nat) => world.attempt(n, k)
  }

  /** The rest of an iteration after planning, and whether it leaves the loop. */
  function Act(planned: Snapshot, action: Action, world: World, tools: set<string>): (r: (Snapshot, bool))
    ensures r.0.iteration == planned.iteration
  {
    if action.Finish? || planned.fatal.Some? then (planned, true)
    else if action.NoAction? || action.name !in tools then (planned, false)
    else (RunTool(planned, action.name, Attempts(world, planned.iteration), 0), false)
  }

  /** One iteration. */
  function Iterate(s: Snapshot, world: World, tools: set<string>): (r: (Snapshot, bool))
    ensures r.0.iteration == s.iteration + 1
  {
    var (planned, action) := Plan(s.(iteration := s.iteration + 1), world.reply(s.iteration + 1));
    Act(planned, action, world, tools)
  }

  function Loop(s: Snapshot, world: World, tools: set<string>, maxIter: int): (r: Snapshot)
    ensures s.iteration <= r.iteration && (s.iteration <= maxIter ==> r.iteration <= maxIter)
    decreases maxIter - s.iteration
  {
    if s.iteration >= maxIter then s
    else
      var (s', stop) := Iterate(s, world, tools);
      if stop then s' else Loop(s', world, tools, maxIter)
  }

  predicate Finished(history: seq<ToolCall>) {
    ToolCall(FORMAT_OUTPUT, true) in history
  }

  /** settings.agent_max_iterations or 5 */
  function MaxIterations(setting: int): int {
    if setting == 0 then 5 else setting
  }

  /** What a forced format_output sends. */
  datatype FormatRequest = FormatRequest(sections: seq<Section>, citations: map<string, Citation>)

  function Request(s: Snapshot): FormatRequest {
    FormatRequest(s.sections, s.citations)
  }

  /** A forced format_output leaves no record, so at the last iteration it is forced again. */
  function ForcedCount(s: Snapshot, maxIter: int): nat {
    if Finished(s.history) then 0 else if s.iteration >= maxIter then 2 else 1
  }

  // ----- The classes -----

  class AgentState {
    var retrievedChunks: seq<Chunk>
    var generatedSections: seq<Section>
    var citations: map<string, Citation>
    var remainingSections: seq<string>
    var iteration: nat
    var toolCallHistory: seq<ToolCall>
    var fatalError: Option<FatalError>

    constructor (remaining: seq<string>)
      ensures retrievedChunks == [] && generatedSections == [] && citations == map[] && remainingSections == remaining
      ensures iteration == 0 && toolCallHistory == [] && fatalError.None?
    {
      retrievedChunks, generatedSections, citations, remainingSections := [], [], map[], remaining;
      iteration, toolCallHistory, fatalError := 0, [], None;
    }

    method AddChunks(chunks: seq<Chunk>)
      modifies `retrievedChunks
      ensures retrievedChunks == WithChunks(old(retrievedChunks), chunks)
    {
      var existingIds := set c | c in retrievedChunks :: c.id;
      for i := 0 to |chunks|
        invariant retrievedChunks == WithChunks(old(retrievedChunks), chunks[..i])
        invariant forall id :: id in existingIds <==> id in Ids(retrievedChunks)
      {
        assert chunks[..i + 1][..i] == chunks[..i];
        var cid := chunks[i].id;
        if cid != "" && cid !in existingIds {
          existingIds := existingIds + {cid};
          IdsSnoc(retrievedChunks, chunks[i]);
          retrievedChunks := retrievedChunks + [chunks[i]];
        }
      }
      assert chunks[..|chunks|] == chunks;
    }

    method AddSection(section: Section)
      modifies `generatedSections, `remainingSections
      ensures generatedSections == old(generatedSections) + [section]
      ensures remainingSections == RemoveFirst(old(remainingSections), section.title)
    {
      generatedSections := generatedSections + [section];
      if section.title in remainingSections {
        remainingSections := RemoveFirst(remainingSections, section.title);
      } else {
        NothingToRemove(remainingSections, section.title);
      }
    }

    method UpdateCitations(verified: seq<Citation>)
      modifies `citations
      ensures citations == WithCitations(old(citations), verified)
    {
      for i := 0 to |verified|
        invariant citations == WithCitations(old(citations), verified[..i])
      {
        assert verified[..i + 1][..i] == verified[..i];
        if verified[i].refId != "" {
          citations := citations[verified[i].refId := verified[i]];
        }
      }
      assert verified[..|verified|] == verified;
    }

    method IncrementIteration()
      modifies `iteration
      ensures iteration == old(iteration) + 1
    {
      iteration := iteration + 1;
    }
  }

  lemma IdsSnoc(chunks: seq<Chunk>, c: Chunk)
    ensures Ids(chunks + [c]) == Ids(chunks) + [c.id]
  {
  }

  lemma {:induction false} NothingToRemove(titles: seq<string>, title: string)
    requires title !in titles
    ensures RemoveFirst(titles, title) == titles
  {
    if titles != [] {
      NothingToRemove(titles[1..], title);
      assert [titles[0]] + titles[1..] == titles;
    }
  }

  class AgentLoopRunner {
    const state: AgentState
    const tools: set<string>
    var parseFailureCount: nat
    var delivered: nat

    constructor (state: AgentState, tools: set<string>)
      ensures this.state == state && this.tools == tools && parseFailureCount == 0 && delivered == 0
    {
      this.state, this.tools, parseFailureCount, delivered := state, tools, 0, 0;
    }

    ghost function Now(): Snapshot
      reads this, state
    {
      Snapshot(state.retrievedChunks, state.generatedSections, state.citations, state.remainingSections,
               state.iteration, state.toolCallHistory, state.fatalError, parseFailureCount, delivered)
    }

    /** The planning step, once the model has answered. */
    method PlanStep(reply: PlanReply) returns (action: Action)
      modifies this, state
      ensures (Now(), action) == Plan(old(Now()), reply)
    {
      match reply {
        case HttpFailure =>
          parseFailureCount := parseFailureCount + 1;
          if parseFailureCount >= 2 {
            state.fatalError := Some(CallsFailed);
          }
          action := if parseFailureCount >= 2 then Finish else NoAction;
        case NoChoices => action := NoAction;
        case ToolRequest(name) => action := Call(name);
        case SaysFinish => action := Finish;
        case Unparseable =>
          parseFailureCount := parseFailureCount + 1;
          if parseFailureCount >= 2 {
            state.fatalError := Some(OutputUnparseable);
            return Finish;
          }
          action := NoAction;
      }
    }

    /** A tool at work on the state. */
    method Perform(effects: seq<Effect>)
      modifies state
      ensures Now() == ApplyAll(old(Now()), effects)
    {
      for i := 0 to |effects|
        invariant Now() == ApplyAll(old(Now()), effects[..i])
      {
        assert effects[..i + 1][..i] == effects[..i];
        match effects[i] {
          case FoundChunks(chunks) => state.AddChunks(chunks);
          case WroteSection(section) => state.AddSection(section);
          case CheckedCitations(citations) => state.UpdateCitations(citations);
        }
      }
      assert effects[..|effects|] == effects;
    }

    method RunWithTimeoutAndRetry(name: string, attempt: nat -> Attempt)
      modifies this`delivered, state
      ensures Now() == RunTool(old(Now()), name, attempt, 0)
    {
      for k := 0 to MAX_RETRIES + 1
        invariant k <= MAX_RETRIES
        invariant RunTool(Now(), name, attempt, k) == RunTool(old(Now()), name, attempt, 0)
      {
        Perform(attempt(k).effects);
        if attempt(k).ending.Returned? {
          delivered := delivered + Outputs(name, attempt(k).ending);
          state.toolCallHistory := state.toolCallHistory + [ToolCall(name, true)];
          return;
        }
        if k >= MAX_RETRIES {
          break;
        }
      }
      state.toolCallHistory := state.toolCallHistory + [ToolCall(name, false)];
    }

    method ForceFormatOutput() returns (request: FormatRequest)
      ensures request == Request(Now())
    {
      request := FormatRequest(state.generatedSections, state.citations);
    }

    /** The body of the loop; stop is its break. */
    method OneIteration(world: World) returns (stop: bool)
      modifies this, state
      ensures (Now(), stop) == Iterate(old(Now()), world, tools)
    {
      state.IncrementIteration();
      var action := PlanStep(world.reply(state.iteration));
      if action.Finish? || state.fatalError.Some? {
        return true;
      }
      if action.NoAction? || action.name !in tools {
        return false;
      }
      RunWithTimeoutAndRetry(action.name, Attempts(world, state.iteration));
      return false;
    }

    /** The two checks after the loop. */
    method FormatIfNeeded(maxIter: int) returns (forced: seq<FormatRequest>)
      ensures |forced| == ForcedCount(Now(), maxIter)
      ensures forall i :: 0 <= i < |forced| ==> forced[i] == Request(Now())
    {
      forced := [];
      if state.iteration >= maxIter && !Finished(state.toolCallHistory) {
        var request := ForceFormatOutput();
        forced := [request];
      }
      if !Finished(state.toolCallHistory) {
        var request := ForceFormatOutput();
        forced := forced + [request];
      }
    }

    method Run(setting: int, world: World) returns (forced: seq<FormatRequest>)
      modifies this, state
      ensures Now() == Loop(old(Now()), world, tools, MaxIterations(setting))
      ensures |forced| == ForcedCount(Now(), MaxIterations(setting))
      ensures forall i :: 0 <= i < |forced| ==> forced[i] == Request(Now())
    {
      var maxIter := MaxIterations(setting);
      ghost var expected := Loop(Now(), world, tools, maxIter);
      var stop := false;
      while state.iteration < maxIter && !stop
        invariant expected == if stop then Now() else Loop(Now(), world, tools, maxIter)
        decreases maxIter - state.iteration
      {
        stop := OneIteration(world);
      }
      forced := FormatIfNeeded(maxIter);
    }
  }

  // ----- What every run keeps -----

  function Start(initial: seq<string>): Snapshot {
    Snapshot([], [], map[], initial, 0, [], None, 0, 0)
  }

  ghost predicate OwnIds(citations: map<string, Citation>) {
    forall id :: id in citations ==> id != "" && citations[id].refId == id
  }

  /** A title is still to do as often as it was at the start, less the times it has been generated. */
  ghost predicate Balanced(remaining: seq<string>, initial: seq<string>, sections: seq<Section>) {
    forall t :: Count(remaining, t) == Less(Count(initial, t), Generated(sections, t))
  }

  function Less(a: nat, b: nat): nat {
    if a > b then a - b else 0
  }

  /** Chunk ids are distinct, titles are accounted for, and there is at most one record an
      iteration. */
  ghost predicate Inv(s: Snapshot, initial: seq<string>) {
    && Distinct(Ids(s.chunks)) && "" !in Ids(s.chunks)
    && Balanced(s.remaining, initial, s.sections)
    && OwnIds(s.citations)
    && |s.history| <= s.iteration
    && s.failures <= 2 && (s.fatal.Some? <==> s.failures == 2)
  }

  /** What was retrieved, written or recorded stays. */
  ghost predicate Grows(s: Snapshot, t: Snapshot) {
    s.chunks <= t.chunks && s.sections <= t.sections && s.history <= t.history && s.citations.Keys <= t.citations.Keys
  }

  lemma {:induction false} ChunksStayDistinct(have: seq<Chunk>, found: seq<Chunk>)
    requires Distinct(Ids(have)) && "" !in Ids(have)
    ensures Distinct(Ids(WithChunks(have, found))) && "" !in Ids(WithChunks(have, found))
    ensures have <= WithChunks(have, found)
  {
    if found != [] {
      var front := found[..|found| - 1];
      ChunksStayDistinct(have, front);
      IdsSnoc(WithChunks(have, front), found[|found| - 1]);
    }
  }

  /** Every chunk found with an id is in the state afterwards, and nothing else is added. */
  lemma {:induction false} ChunksAreKept(have: seq<Chunk>, found: seq<Chunk>, id: string)
    ensures id in Ids(WithChunks(have, found)) <==> id in Ids(have) || (id != "" && id in Ids(found))
  {
    if found != [] {
      var front, last := found[..|found| - 1], found[|found| - 1];
      ChunksAreKept(have, front, id);
      ChunksAreKept(have, front, last.id);
      IdsSnoc(WithChunks(have, front), last);
      IdsSnoc(front, last);
      assert found == front + [last];
    }
  }

  lemma {:induction false} RemovedOnce(titles: seq<string>, title: string, t: string)
    ensures Count(RemoveFirst(titles, title), t) == Less(Count(titles, t), if t == title then 1 else 0)
  {
    if titles != [] && titles[0] != title {
      RemovedOnce(titles[1..], title, t);
      assert RemoveFirst(titles, title)[1..] == RemoveFirst(titles[1..], title);
    }
  }

  lemma {:induction false} CitationsKeepIds(citations: map<string, Citation>, found: seq<Citation>)
    requires OwnIds(citations)
    ensures OwnIds(WithCitations(citations, found)) && citations.Keys <= WithCitations(citations, found).Keys
  {
    if found != [] {
      CitationsKeepIds(citations, found[..|found| - 1]);
    }
  }

  /** Of several verdicts on one reference the last stays. */
  lemma {:induction false} LastVerdictStays(citations: map<string, Citation>, found: seq<Citation>, k: nat)
    requires k < |found| && found[k].refId != ""
    requires forall j :: k < j < |found| ==> found[j].refId != found[k].refId
    ensures found[k].refId in WithCitations(citations, found) && WithCitations(citations, found)[found[k].refId] == found[k]
  {
    if k < |found| - 1 {
      LastVerdictStays(citations, found[..|found| - 1], k);
    }
  }

  lemma SectionKeepsBalance(remaining: seq<string>, initial: seq<string>, sections: seq<Section>, section: Section)
    requires Balanced(remaining, initial, sections)
    ensures Balanced(RemoveFirst(remaining, section.title), initial, sections + [section])
  {
    assert (sections + [section])[..|sections|] == sections;
    forall t
      ensures Count(RemoveFirst(remaining, section.title), t) == Less(Count(initial, t), Generated(sections + [section], t))
    {
      RemovedOnce(remaining, section.title, t);
    }
  }

  lemma {:induction false} CountedIsListed(titles: seq<string>, t: string)
    ensures Count(titles, t) > 0 <==> t in titles
  {
    if titles != [] {
      CountedIsListed(titles[1..], t);
      assert titles == [titles[0]] + titles[1..];
    }
  }

  lemma ApplyKeepsInv(s: Snapshot, effect: Effect, initial: seq<string>)
    requires Inv(s, initial)
    ensures Inv(Apply(s, effect), initial) && Grows(s, Apply(s, effect))
  {
    match effect
    case FoundChunks(chunks) => ChunksStayDistinct(s.chunks, chunks);
    case WroteSection(section) => SectionKeepsBalance(s.remaining, initial, s.sections, section);
    case CheckedCitations(citations) => CitationsKeepIds(s.citations, citations);
  }

  lemma {:induction false} ApplyAllKeepsInv(s: Snapshot, effects: seq<Effect>, initial: seq<string>)
    requires Inv(s, initial)
    ensures Inv(ApplyAll(s, effects), initial) && Grows(s, ApplyAll(s, effects))
  {
    if effects != [] {
      var front := effects[..|effects| - 1];
      ApplyAllKeepsInv(s, front, initial);
      ApplyKeepsInv(ApplyAll(s, front), effects[|effects| - 1], initial);
    }
  }

  /** A tool call adds one record, of its own name. */
  lemma {:induction false} RunToolKeepsInv(s: Snapshot, name: string, attempt: nat -> Attempt, k: nat, initial: seq<string>)
    requires Inv(s, initial) && |s.history| < s.iteration && k <= MAX_RETRIES
    ensures Inv(RunTool(s, name, attempt, k), initial) && Grows(s, RunTool(s, name, attempt, k))
    decreases MAX_RETRIES - k
  {
    ApplyAllKeepsInv(s, attempt(k).effects, initial);
    if !attempt(k).ending.Returned? && k < MAX_RETRIES {
      RunToolKeepsInv(ApplyAll(s, attempt(k).effects), name, attempt, k + 1, initial);
    }
  }

  lemma PlanKeepsInv(s: Snapshot, n: nat, reply: PlanReply, initial: seq<string>)
    requires Inv(s, initial) && s.fatal.None? && s.iteration < n
    ensures var planned := Plan(s.(iteration := n), reply).0;
            Inv(planned, initial) && Grows(s, planned) && |planned.history| < n == planned.iteration
  {
  }

  lemma ActKeepsInv(planned: Snapshot, action: Action, world: World, tools: set<string>, initial: seq<string>)
    requires Inv(planned, initial) && |planned.history| < planned.iteration
    ensures var r := Act(planned, action, world, tools).0;
            Inv(r, initial) && Grows(planned, r) && r.fatal == planned.fatal
  {
    if !action.Finish? && planned.fatal.None? && !action.NoAction? && action.name in tools {
      RunToolKeepsInv(planned, action.name, Attempts(world, planned.iteration), 0, initial);
    }
  }

  lemma GrowsOn(s: Snapshot, t: Snapshot, u: Snapshot)
    requires Grows(s, t) && Grows(t, u)
    ensures Grows(s, u)
  {
  }

  lemma IterateKeepsInv(s: Snapshot, world: World, tools: set<string>, initial: seq<string>)
    requires Inv(s, initial) && s.fatal.None?
    ensures var r := Iterate(s, world, tools);
            Inv(r.0, initial) && Grows(s, r.0) && (!r.1 ==> r.0.fatal.None?)
  {
    var n := s.iteration + 1;
    PlanKeepsInv(s, n, world.reply(n), initial);
    var (planned, action) := Plan(s.(iteration := n), world.reply(n));
    ActKeepsInv(planned, action, world, tools, initial);
    GrowsOn(s, planned, Act(planned, action, world, tools).0);
  }

  lemma {:induction false} LoopKeepsInv(s: Snapshot, world: World, tools: set<string>, maxIter: int, initial: seq<string>)
    requires Inv(s, initial) && s.fatal.None?
    ensures Inv(Loop(s, world, tools, maxIter), initial) && Grows(s, Loop(s, world, tools, maxIter))
    decreases maxIter - s.iteration
  {
    if s.iteration < maxIter {
      IterateKeepsInv(s, world, tools, initial);
      var (s', stop) := Iterate(s, world, tools);
      if !stop {
        LoopKeepsInv(s', world, tools, maxIter, initial);
      }
    }
  }

  /** Every run ends within its iterations, with at most one record an iteration, distinct chunk
      ids, and every initial section title either generated or still to do, as often as it was
      given. */
  lemma EveryRunKeepsInvariant(initial: seq<string>, world: World, tools: set<string>, setting: int)
    ensures var maxIter, final := MaxIterations(setting), Loop(Start(initial), world, tools, MaxIterations(setting));
            && Inv(final, initial)
            && (maxIter >= 0 ==> final.iteration <= maxIter)
            && forall t :: t in initial ==> t in final.remaining || Generated(final.sections, t) > 0
  {
    StartIsFine(initial);
    LoopKeepsInv(Start(initial), world, tools, MaxIterations(setting), initial);
    var final := Loop(Start(initial), world, tools, MaxIterations(setting));
    forall t | t in initial
      ensures t in final.remaining || Generated(final.sections, t) > 0
    {
      CountedIsListed(initial, t);
      CountedIsListed(final.remaining, t);
    }
  }

  lemma StartIsFine(initial: seq<string>)
    ensures Inv(Start(initial), initial)
  {
    assert forall t :: Generated([], t) == 0;
  }

  // ----- Where a run ends -----

  /** The failed plan requests among the first n. */
  function Failures(reply: nat -> PlanReply, n: nat): nat {
    if n == 0 then 0 else Failures(reply, n - 1) + if Fails(reply(n)) then 1 else 0
  }

  /** The model's answers end the run at iteration n, if not before. */
  predicate Ends(reply: nat -> PlanReply, n: nat) {
    reply(n).SaysFinish? || Failures(reply, n) >= 2
  }

  /** The answers before iteration n end no run, so a run with enough iterations gets to n. */
  ghost predicate Reaches(reply: nat -> PlanReply, n: nat) {
    forall m: nat :: 1 <= m < n ==> !Ends(reply, m)
  }

  /** The last iteration of a run, from the answers alone: the first after n that ends it. */
  function LastIteration(reply: nat -> PlanReply, n: nat, maxIter: int): nat
    decreases maxIter - n
  {
    if n >= maxIter then n
    else if Ends(reply, n + 1) then n + 1
    else LastIteration(reply, n + 1, maxIter)
  }

  /** It is the last one reached, and either the limit or one that ends the run. */
  lemma {:induction false} LastIsReached(reply: nat -> PlanReply, n: nat, maxIter: int)
    requires Reaches(reply, n + 1) && n <= maxIter
    ensures var last := LastIteration(reply, n, maxIter);
            n <= last <= maxIter && Reaches(reply, last) && (last < maxIter ==> last > n && Ends(reply, last))
    ensures var last := LastIteration(reply, n, maxIter);
            forall m: nat :: n < m <= maxIter && Reaches(reply, m) ==> m <= last
    decreases maxIter - n
  {
    if n < maxIter && !Ends(reply, n + 1) {
      assert Reaches(reply, n + 2);
      LastIsReached(reply, n + 1, maxIter);
    }
  }

  /** The state counts the failed answers so far, and is fatal exactly from the second one on. */
  ghost predicate Counts(s: Snapshot, reply: nat -> PlanReply) {
    s.failures == Failures(reply, s.iteration) && (s.fatal.Some? <==> s.failures >= 2)
  }

  /** An iteration leaves the loop exactly when its answer ends the run. */
  lemma IterateEnds(s: Snapshot, world: World, tools: set<string>)
    requires Counts(s, world.reply) && s.fatal.None?
    ensures Counts(Iterate(s, world, tools).0, world.reply)
    ensures Iterate(s, world, tools).1 <==> Ends(world.reply, s.iteration + 1)
    ensures !Iterate(s, world, tools).1 ==> Iterate(s, world, tools).0.fatal.None?
  {
  }

  lemma LoopRound(s: Snapshot, world: World, tools: set<string>, maxIter: int)
    requires s.iteration < maxIter
    ensures var r := Iterate(s, world, tools);
            Loop(s, world, tools, maxIter) == if r.1 then r.0 else Loop(r.0, world, tools, maxIter)
  {
  }

  lemma {:induction false} LoopEndsAtLast(s: Snapshot, world: World, tools: set<string>, maxIter: int)
    requires Counts(s, world.reply) && s.fatal.None?
    ensures Counts(Loop(s, world, tools, maxIter), world.reply)
    ensures Loop(s, world, tools, maxIter).iteration == LastIteration(world.reply, s.iteration, maxIter)
    decreases maxIter - s.iteration
  {
    if s.iteration < maxIter {
      IterateEnds(s, world, tools);
      LoopRound(s, world, tools, maxIter);
      if !Iterate(s, world, tools).1 {
        LoopEndsAtLast(Iterate(s, world, tools).0, world, tools, maxIter);
      }
    }
  }

  /** The last iteration of a run depends on the model's answers and the limit alone. */
  lemma RunEndsAtLast(initial: seq<string>, world: World, tools: set<string>, maxIter: int)
    ensures Loop(Start(initial), world, tools, maxIter).iteration == LastIteration(world.reply, 0, maxIter)
  {
    LoopEndsAtLast(Start(initial), world, tools, maxIter);
  }

  // ----- When a run is fatal -----

  lemma {:induction false} FailuresGrow(reply: nat -> PlanReply, m: nat, n: nat)
    requires m <= n
    ensures Failures(reply, m) <= Failures(reply, n)
  {
    if m < n {
      FailuresGrow(reply, m, n - 1);
    }
  }

  /** Two of the first n answers failed, and none of those before n said finish. */
  ghost predicate TwoFailed(reply: nat -> PlanReply, n: nat) {
    Failures(reply, n) >= 2 && forall m: nat :: 1 <= m < n ==> !reply(m).SaysFinish?
  }

  /** A run is fatal exactly when within the limit two answers failed, in a row or not, before the
      model said finish. */
  lemma FatalIffTwoFailures(initial: seq<string>, world: World, tools: set<string>, maxIter: int)
    ensures Loop(Start(initial), world, tools, maxIter).fatal.Some?
       <==> exists n: nat :: n <= maxIter && TwoFailed(world.reply, n)
  {
    LoopEndsAtLast(Start(initial), world, tools, maxIter);
    if maxIter >= 0 {
      var reply, last := world.reply, LastIteration(world.reply, 0, maxIter);
      LastIsReached(reply, 0, maxIter);
      if Failures(reply, last) >= 2 {
        forall m: nat | 1 <= m < last
          ensures !reply(m).SaysFinish?
        {
          assert !Ends(reply, m);
        }
        assert TwoFailed(reply, last);
      }
      forall n: nat | n <= maxIter && TwoFailed(reply, n)
        ensures Failures(reply, last) >= 2
      {
        TwoFailedIsFatal(reply, n, maxIter);
      }
    }
  }

  lemma TwoFailedIsFatal(reply: nat -> PlanReply, n: nat, maxIter: int)
    requires n <= maxIter && TwoFailed(reply, n)
    ensures Failures(reply, LastIteration(reply, 0, maxIter)) >= 2
  {
    var last := LastIteration(reply, 0, maxIter);
    LastIsReached(reply, 0, maxIter);
    if last >= n {
      FailuresGrow(reply, n, last);
    } else {
      assert Ends(reply, last) && !reply(last).SaysFinish?;
    }
  }

  /** The rule as documented: two failures in a row, the second at iteration n. */
  predicate TwoInARow(reply: nat -> PlanReply, n: nat) {
    n >= 2 && Fails(reply(n - 1)) && Fails(reply(n))
  }

  /** Two failures in a row within a run always end it there as fatal. Of two failures further
      apart, the second ends the run as well, although they are not in a row. */
  lemma {:induction false} SecondFailureIsFatal(initial: seq<string>, world: World, tools: set<string>, maxIter: int, i: nat, j: nat)
    requires 1 <= i < j <= maxIter && Fails(world.reply(i)) && Fails(world.reply(j))
    requires forall m: nat :: 1 <= m < j && m != i ==> !Fails(world.reply(m)) && !world.reply(m).SaysFinish?
    ensures var final := Loop(Start(initial), world, tools, maxIter);
            && final.fatal == Some(if world.reply(j).HttpFailure? then CallsFailed else OutputUnparseable)
            && final.iteration == j
            && (TwoInARow(world.reply, j) <==> j == i + 1)
  {
    OneFailureSoFar(world.reply, i, j - 1);
    LoopEndsAtLast(Start(initial), world, tools, maxIter);
    LastIsReached(world.reply, 0, maxIter);
    forall m: nat | 1 <= m < j
      ensures !Ends(world.reply, m)
    {
      FailuresGrow(world.reply, m, j - 1);
    }
    assert Reaches(world.reply, j) && Ends(world.reply, j);
    FatalNamesLast(Start(initial), world, tools, maxIter);
  }

  lemma {:induction false} OneFailureSoFar(reply: nat -> PlanReply, i: nat, n: nat)
    requires 1 <= i && Fails(reply(i)) && forall m: nat :: 1 <= m <= n && m != i ==> !Fails(reply(m))
    ensures Failures(reply, n) == if i <= n then 1 else 0
  {
    if n > 0 {
      OneFailureSoFar(reply, i, n - 1);
    }
  }

  lemma {:induction false} FatalNamesLast(s: Snapshot, world: World, tools: set<string>, maxIter: int)
    requires s.fatal.None?
    ensures var r := Loop(s, world, tools, maxIter);
            r.fatal.Some? ==> r.fatal.value == if world.reply(r.iteration).HttpFailure? then CallsFailed else OutputUnparseable
    decreases maxIter - s.iteration
  {
    if s.iteration < maxIter {
      var (s', stop) := Iterate(s, world, tools);
      if !stop {
        FatalNamesLast(s', world, tools, maxIter);
      }
    }
  }

  // ----- What has been formatted when a run returns -----

  /** Iteration n calls format_output and some attempt returns. */
  ghost predicate FormatsAt(world: World, tools: set<string>, n: nat) {
    && world.reply(n) == ToolRequest(FORMAT_OUTPUT) && FORMAT_OUTPUT in tools
    && exists k: nat :: k <= MAX_RETRIES && world.attempt(n, k).ending.Returned?
  }

  /** Iteration n calls format_output and the first attempt that returns gets the output made. */
  ghost predicate DeliversAt(world: World, tools: set<string>, n: nat) {
    && world.reply(n) == ToolRequest(FORMAT_OUTPUT) && FORMAT_OUTPUT in tools
    && exists k: nat :: k <= MAX_RETRIES && FirstReturn(Attempts(world, n), 0, k) && world.attempt(n, k).ending == Returned(true)
  }

  /** Of the attempts from the k-th on, number j is the first that returns. */
  predicate FirstReturn(attempt: nat -> Attempt, k: nat, j: nat) {
    k <= j && attempt(j).ending.Returned? && forall i: nat :: k <= i < j ==> !attempt(i).ending.Returned?
  }

  lemma {:induction false} RunToolRecords(s: Snapshot, name: string, attempt: nat -> Attempt, k: nat)
    requires k <= MAX_RETRIES
    ensures RunTool(s, name, attempt, k).history
         == s.history + [ToolCall(name, exists j: nat :: k <= j <= MAX_RETRIES && attempt(j).ending.Returned?)]
    decreases MAX_RETRIES - k
  {
    if attempt(k).ending.Returned? {
    } else if k < MAX_RETRIES {
      RunToolRecords(ApplyAll(s, attempt(k).effects), name, attempt, k + 1);
      assert forall j: nat :: k <= j <= MAX_RETRIES && attempt(j).ending.Returned? ==> k + 1 <= j;
    }
  }

  /** A tool call makes an output exactly when it is format_output and the first attempt that
      returns has been answered with one. */
  lemma {:induction false} RunToolDelivers(s: Snapshot, name: string, attempt: nat -> Attempt, k: nat)
    requires k <= MAX_RETRIES
    ensures RunTool(s, name, attempt, k).delivered == s.delivered +
              if name == FORMAT_OUTPUT && exists j: nat :: j <= MAX_RETRIES && FirstReturn(attempt, k, j) && attempt(j).ending == Returned(true)
              then 1 else 0
    decreases MAX_RETRIES - k
  {
    if attempt(k).ending.Returned? {
      assert FirstReturn(attempt, k, k);
      assert forall j: nat :: FirstReturn(attempt, k, j) ==> j == k;
    } else if k < MAX_RETRIES {
      RunToolDelivers(ApplyAll(s, attempt(k).effects), name, attempt, k + 1);
      assert forall j: nat :: FirstReturn(attempt, k, j) <==> FirstReturn(attempt, k + 1, j);
    }
  }

  lemma IterateFinishes(s: Snapshot, world: World, tools: set<string>)
    requires s.fatal.None?
    ensures Finished(Iterate(s, world, tools).0.history) <==> Finished(s.history) || FormatsAt(world, tools, s.iteration + 1)
  {
    var n := s.iteration + 1;
    var (planned, action) := Plan(s.(iteration := n), world.reply(n));
    if action.Call? && action.name in tools {
      RunToolRecords(planned, action.name, Attempts(world, n), 0);
      assert forall j: nat :: Attempts(world, n)(j) == world.attempt(n, j);
    }
  }

  lemma IterateDelivers(s: Snapshot, world: World, tools: set<string>)
    requires s.fatal.None?
    ensures Iterate(s, world, tools).0.delivered > 0 <==> s.delivered > 0 || DeliversAt(world, tools, s.iteration + 1)
  {
    var n := s.iteration + 1;
    var (planned, action) := Plan(s.(iteration := n), world.reply(n));
    if action.Call? && action.name in tools {
      RunToolDelivers(planned, action.name, Attempts(world, n), 0);
      assert forall j: nat :: Attempts(world, n)(j) == world.attempt(n, j);
    }
  }

  lemma {:induction false} LoopFinishes(s: Snapshot, world: World, tools: set<string>, maxIter: int)
    requires s.fatal.None?
    ensures var r := Loop(s, world, tools, maxIter);
            Finished(r.history) <==> Finished(s.history) || exists n: nat :: s.iteration < n <= r.iteration && FormatsAt(world, tools, n)
    decreases maxIter - s.iteration
  {
    if s.iteration < maxIter {
      IterateFinishes(s, world, tools);
      var (s', stop) := Iterate(s, world, tools);
      if !stop {
        LoopFinishes(s', world, tools, maxIter);
      }
    }
  }

  lemma {:induction false} LoopDelivers(s: Snapshot, world: World, tools: set<string>, maxIter: int)
    requires s.fatal.None?
    ensures var r := Loop(s, world, tools, maxIter);
            r.delivered > 0 <==> s.delivered > 0 || exists n: nat :: s.iteration < n <= r.iteration && DeliversAt(world, tools, n)
    decreases maxIter - s.iteration
  {
    if s.iteration < maxIter {
      IterateDelivers(s, world, tools);
      var (s', stop) := Iterate(s, world, tools);
      if !stop {
        LoopDelivers(s', world, tools, maxIter);
      }
    }
  }

  /** A run gets to an iteration within the limit that formats its output. */
  ghost predicate SomeFormats(world: World, tools: set<string>, maxIter: int) {
    exists n: nat :: 1 <= n <= maxIter && Reaches(world.reply, n) && FormatsAt(world, tools, n)
  }

  /** A run gets to an iteration within the limit whose output is made. */
  ghost predicate SomeDelivers(world: World, tools: set<string>, maxIter: int) {
    exists n: nat :: 1 <= n <= maxIter && Reaches(world.reply, n) && DeliversAt(world, tools, n)
  }

  /** An iteration that is reached lies before the last one. */
  lemma ReachedIff(reply: nat -> PlanReply, n: nat, maxIter: int)
    requires 1 <= n
    ensures n <= maxIter && Reaches(reply, n) <==> n <= LastIteration(reply, 0, maxIter)
  {
    if maxIter >= 0 {
      LastIsReached(reply, 0, maxIter);
      if n <= LastIteration(reply, 0, maxIter) {
        assert forall m: nat :: 1 <= m < n ==> !Ends(reply, m);
      }
    }
  }

  /** A run returns without forcing format_output exactly when it gets to an iteration that calls
      the tool and has an attempt return. Otherwise the tool is forced, and twice exactly when
      the run uses up its iterations. */
  lemma ForcedIffNotFormatted(initial: seq<string>, world: World, tools: set<string>, maxIter: int)
    ensures var forced := ForcedCount(Loop(Start(initial), world, tools, maxIter), maxIter);
            && (forced == 0 <==> SomeFormats(world, tools, maxIter))
            && (forced == 2 <==> !SomeFormats(world, tools, maxIter) && (maxIter >= 1 ==> Reaches(world.reply, maxIter)))
  {
    RunEndsAtLast(initial, world, tools, maxIter);
    LoopFinishes(Start(initial), world, tools, maxIter);
    forall n: nat | 1 <= n
      ensures n <= maxIter && Reaches(world.reply, n) <==> n <= LastIteration(world.reply, 0, maxIter)
    {
      ReachedIff(world.reply, n, maxIter);
    }
  }

  lemma DeliveredIff(initial: seq<string>, world: World, tools: set<string>, maxIter: int)
    ensures Loop(Start(initial), world, tools, maxIter).delivered > 0 <==> SomeDelivers(world, tools, maxIter)
  {
    RunEndsAtLast(initial, world, tools, maxIter);
    LoopDelivers(Start(initial), world, tools, maxIter);
    forall n: nat | 1 <= n
      ensures n <= maxIter && Reaches(world.reply, n) <==> n <= LastIteration(world.reply, 0, maxIter)
    {
      ReachedIff(world.reply, n, maxIter);
    }
  }

  /** An error of the output service counts as formatted: a run returns with no output made and
      none forced exactly when it gets to an iteration that formats and to none that delivers. */
  lemma ErrorCountsAsFormatted(initial: seq<string>, world: World, tools: set<string>, maxIter: int)
    ensures var final := Loop(Start(initial), world, tools, maxIter);
            final.delivered == 0 && ForcedCount(final, maxIter) == 0
            <==> SomeFormats(world, tools, maxIter) && !SomeDelivers(world, tools, maxIter)
  {
    ForcedIffNotFormatted(initial, world, tools, maxIter);
    DeliveredIff(initial, world, tools, maxIter);
  }

  /** That happens: whenever the model asks for format_output at some iteration of a run that then
      says finish, and the output service answers that call with an error. */
  lemma OutputIsLost(initial: seq<string>, world: World, tools: set<string>, maxIter: int, n: nat)
    requires 1 <= n < maxIter && FORMAT_OUTPUT in tools
    requires forall m: nat :: 1 <= m < n ==> world.reply(m).NoChoices?
    requires world.reply(n) == ToolRequest(FORMAT_OUTPUT) && world.reply(n + 1) == SaysFinish
    requires world.attempt(n, 0).ending == Returned(false)
    ensures var final := Loop(Start(initial), world, tools, maxIter);
            final.delivered == 0 && ForcedCount(final, maxIter) == 0
  {
    forall m: nat | 1 <= m <= n
      ensures !Ends(world.reply, m)
    {
      NoFailures(world.reply, m);
    }
    assert Reaches(world.reply, n) && FormatsAt(world, tools, n);
    forall m: nat | 1 <= m && Reaches(world.reply, m)
      ensures !DeliversAt(world, tools, m)
    {
      if m > n + 1 {
        assert Ends(world.reply, n + 1);
      }
      assert FirstReturn(Attempts(world, n), 0, 0);
    }
    ErrorCountsAsFormatted(initial, world, tools, maxIter);
  }

  lemma {:induction false} NoFailures(reply: nat -> PlanReply, n: nat)
    requires forall m: nat :: 1 <= m <= n ==> !Fails(reply(m))
    ensures Failures(reply, n) == 0
  {
    if n > 0 {
      NoFailures(reply, n - 1);
    }
  }
}
