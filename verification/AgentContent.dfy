/** What a finished agent run holds: the chunks, sections and citations that the tool attempts of the
    iterations it reaches brought in, and nothing else. */
module AgentContent {
  import opened AgentLoop
  import opened FirstSeen
  import opened Options
  import opened Text

  // ----- The effects of a run, from the answers alone -----

  /** The effects of the attempts from the k-th on: attempts are made until one returns. */
  function AttemptEffects(attempt: nat -> Attempt, k: nat): seq<Effect>
    decreases MAX_RETRIES - k
  {
    if k >= MAX_RETRIES || attempt(k).ending.Returned? then attempt(k).effects
    else attempt(k).effects + AttemptEffects(attempt, k + 1)
  }

  /** Only a tool that exists is run. */
  predicate CallsTool(world: World, tools: set<string>, n: nat) {
    world.reply(n).ToolRequest? && world.reply(n).name in tools
  }

  function IterationEffects(world: World, tools: set<string>, n: nat): seq<Effect> {
    if CallsTool(world, tools, n) then AttemptEffects(Attempts(world, n), 0) else []
  }

  /** The effects of the iterations after a, up to b. */
  function EffectsBetween(world: World, tools: set<string>, a: nat, b: nat): seq<Effect>
    decreases b - a
  {
    if a >= b then [] else IterationEffects(world, tools, a + 1) + EffectsBetween(world, tools, a + 1, b)
  }

  function ChunksOf(e: Effect): seq<Chunk> {
    if e.FoundChunks? then e.chunks else []
  }

  function SectionsOf(e: Effect): seq<Section> {
    if e.WroteSection? then [e.section] else []
  }

  function CitationsOf(e: Effect): seq<Citation> {
    if e.CheckedCitations? then e.citations else []
  }

  /** What the effects bring in of one kind, in order. */
  function Collect<T>(f: Effect -> seq<T>, effects: seq<Effect>): seq<T> {
    if effects == [] then [] else Collect(f, effects[..|effects| - 1]) + f(effects[|effects| - 1])
  }

  lemma {:induction false} CollectConcat<T>(f: Effect -> seq<T>, a: seq<Effect>, b: seq<Effect>)
    ensures Collect(f, a + b) == Collect(f, a) + Collect(f, b)
  {
    if b == [] {
      assert a + b == a;
    } else {
      assert (a + b)[..|a + b| - 1] == a + b[..|b| - 1];
      CollectConcat(f, a, b[..|b| - 1]);
    }
  }

  // ----- Bringing it into the state -----

  lemma {:induction false} ChunksConcat(have: seq<Chunk>, a: seq<Chunk>, b: seq<Chunk>)
    ensures WithChunks(have, a + b) == WithChunks(WithChunks(have, a), b)
  {
    if b == [] {
      assert a + b == a;
    } else {
      assert (a + b)[..|a + b| - 1] == a + b[..|b| - 1];
      ChunksConcat(have, a, b[..|b| - 1]);
    }
  }

  lemma {:induction false} CitationsConcat(have: map<string, Citation>, a: seq<Citation>, b: seq<Citation>)
    ensures WithCitations(have, a + b) == WithCitations(WithCitations(have, a), b)
  {
    if b == [] {
      assert a + b == a;
    } else {
      assert (a + b)[..|a + b| - 1] == a + b[..|b| - 1];
      CitationsConcat(have, a, b[..|b| - 1]);
    }
  }

  /** State t holds what s held and what the effects brought in. */
  ghost predicate Brought(s: Snapshot, effects: seq<Effect>, t: Snapshot) {
    && t.chunks == WithChunks(s.chunks, Collect(ChunksOf, effects))
    && t.sections == s.sections + Collect(SectionsOf, effects)
    && t.citations == WithCitations(s.citations, Collect(CitationsOf, effects))
  }

  lemma BroughtNothing(s: Snapshot, t: Snapshot)
    requires t.chunks == s.chunks && t.sections == s.sections && t.citations == s.citations
    ensures Brought(s, [], t)
  {
  }

  lemma BroughtBoth(s: Snapshot, a: seq<Effect>, t: Snapshot, b: seq<Effect>, u: Snapshot)
    requires Brought(s, a, t) && Brought(t, b, u)
    ensures Brought(s, a + b, u)
  {
    CollectConcat(ChunksOf, a, b);
    CollectConcat(SectionsOf, a, b);
    CollectConcat(CitationsOf, a, b);
    ChunksConcat(s.chunks, Collect(ChunksOf, a), Collect(ChunksOf, b));
    CitationsConcat(s.citations, Collect(CitationsOf, a), Collect(CitationsOf, b));
  }

  lemma CollectOne<T>(f: Effect -> seq<T>, e: Effect)
    ensures Collect(f, [e]) == f(e)
  {
    assert [e][..0] == [];
  }

  lemma ApplyBrings(s: Snapshot, e: Effect)
    ensures Brought(s, [e], Apply(s, e))
  {
    CollectOne(ChunksOf, e);
    CollectOne(SectionsOf, e);
    CollectOne(CitationsOf, e);
  }

  lemma {:induction false} ApplyAllBrings(s: Snapshot, effects: seq<Effect>)
    ensures Brought(s, effects, ApplyAll(s, effects))
  {
    if effects == [] {
      BroughtNothing(s, s);
    } else {
      var front, last := effects[..|effects| - 1], effects[|effects| - 1];
      ApplyAllBrings(s, front);
      ApplyBrings(ApplyAll(s, front), last);
      BroughtBoth(s, front, ApplyAll(s, front), [last], ApplyAll(s, effects));
      assert front + [last] == effects;
    }
  }

  lemma SameContent(s: Snapshot, effects: seq<Effect>, t: Snapshot, u: Snapshot)
    requires Brought(s, effects, t) && u.chunks == t.chunks && u.sections == t.sections && u.citations == t.citations
    ensures Brought(s, effects, u)
  {
  }

  lemma {:induction false} RunToolBrings(s: Snapshot, name: string, attempt: nat -> Attempt, k: nat)
    requires k <= MAX_RETRIES
    ensures Brought(s, AttemptEffects(attempt, k), RunTool(s, name, attempt, k))
    decreases MAX_RETRIES - k
  {
    var s' := ApplyAll(s, attempt(k).effects);
    ApplyAllBrings(s, attempt(k).effects);
    if k < MAX_RETRIES && !attempt(k).ending.Returned? {
      RunToolBrings(s', name, attempt, k + 1);
      BroughtBoth(s, attempt(k).effects, s', AttemptEffects(attempt, k + 1), RunTool(s, name, attempt, k));
    } else {
      SameContent(s, attempt(k).effects, s', RunTool(s, name, attempt, k));
    }
  }

  lemma IterateBrings(s: Snapshot, world: World, tools: set<string>)
    requires s.fatal.None?
    ensures Brought(s, IterationEffects(world, tools, s.iteration + 1), Iterate(s, world, tools).0)
  {
    var n := s.iteration + 1;
    var planned := Plan(s.(iteration := n), world.reply(n)).0;
    BroughtNothing(s, planned);
    if CallsTool(world, tools, n) {
      RunToolBrings(planned, world.reply(n).name, Attempts(world, n), 0);
      assert Iterate(s, world, tools).0 == RunTool(planned, world.reply(n).name, Attempts(world, n), 0);
    }
  }

  lemma FirstThenRest(s: Snapshot, world: World, tools: set<string>, t: Snapshot, last: nat, u: Snapshot)
    requires s.iteration < last && Brought(s, IterationEffects(world, tools, s.iteration + 1), t)
    requires Brought(t, EffectsBetween(world, tools, s.iteration + 1, last), u)
    ensures Brought(s, EffectsBetween(world, tools, s.iteration, last), u)
  {
    BroughtBoth(s, IterationEffects(world, tools, s.iteration + 1), t, EffectsBetween(world, tools, s.iteration + 1, last), u);
  }

  /** One round of the loop: where the run ends, seen from the next iteration. */
  lemma Round(s: Snapshot, world: World, tools: set<string>, maxIter: int)
    requires Counts(s, world.reply) && s.fatal.None? && s.iteration < maxIter
    ensures var t, stop := Iterate(s, world, tools).0, Iterate(s, world, tools).1;
            && t.iteration == s.iteration + 1
            && Loop(s, world, tools, maxIter) == (if stop then t else Loop(t, world, tools, maxIter))
            && LastIteration(world.reply, s.iteration, maxIter)
               == (if stop then s.iteration + 1 else LastIteration(world.reply, s.iteration + 1, maxIter))
            && (!stop ==> Counts(t, world.reply) && t.fatal.None?)
  {
    IterateEnds(s, world, tools);
    LoopRound(s, world, tools, maxIter);
  }

  lemma {:induction false} LoopBrings(s: Snapshot, world: World, tools: set<string>, maxIter: int)
    requires Counts(s, world.reply) && s.fatal.None?
    ensures var last := LastIteration(world.reply, s.iteration, maxIter);
            Brought(s, EffectsBetween(world, tools, s.iteration, last), Loop(s, world, tools, maxIter))
    decreases maxIter - s.iteration
  {
    if s.iteration >= maxIter {
      BroughtNothing(s, s);
    } else {
      var t := Iterate(s, world, tools).0;
      Round(s, world, tools, maxIter);
      IterateBrings(s, world, tools);
      LastGrows(world.reply, s.iteration + 1, maxIter);
      if Iterate(s, world, tools).1 {
        BroughtNothing(t, t);
      } else {
        LoopBrings(t, world, tools, maxIter);
      }
      FirstThenRest(s, world, tools, t, LastIteration(world.reply, s.iteration, maxIter), Loop(s, world, tools, maxIter));
    }
  }

  lemma {:induction false} LastGrows(reply: nat -> PlanReply, n: nat, maxIter: int)
    ensures n <= LastIteration(reply, n, maxIter)
    decreases maxIter - n
  {
    if n < maxIter && !Ends(reply, n + 1) {
      LastGrows(reply, n + 1, maxIter);
    }
  }

  // ----- What a run holds -----

  /** Attempt k at the tool of iteration n is made: no earlier one returned. */
  ghost predicate Attempted(world: World, tools: set<string>, n: nat, k: nat) {
    CallsTool(world, tools, n) && k <= MAX_RETRIES && forall j: nat :: j < k ==> !world.attempt(n, j).ending.Returned?
  }

  /** An effect of an attempt that is made in an iteration that is reached. */
  ghost predicate Happens(world: World, tools: set<string>, maxIter: int, e: Effect) {
    exists n: nat, k: nat :: 1 <= n <= maxIter && Reaches(world.reply, n) && HappensAt(world, tools, n, k, e)
  }

  ghost predicate HappensAt(world: World, tools: set<string>, n: nat, k: nat, e: Effect) {
    Attempted(world, tools, n, k) && e in world.attempt(n, k).effects
  }

  lemma {:induction false} AttemptEffectsIff(attempt: nat -> Attempt, k: nat, e: Effect)
    requires k <= MAX_RETRIES
    ensures e in AttemptEffects(attempt, k) <==>
            exists j: nat :: k <= j <= MAX_RETRIES && e in attempt(j).effects && NoneReturns(attempt, k, j)
    decreases MAX_RETRIES - k
  {
    assert NoneReturns(attempt, k, k);
    if k < MAX_RETRIES && !attempt(k).ending.Returned? {
      AttemptEffectsIff(attempt, k + 1, e);
      assert forall j: nat :: k < j ==> (NoneReturns(attempt, k, j) <==> NoneReturns(attempt, k + 1, j));
    }
  }

  /** None of the attempts from k up to j returns. */
  predicate NoneReturns(attempt: nat -> Attempt, k: nat, j: nat) {
    forall i: nat :: k <= i < j ==> !attempt(i).ending.Returned?
  }

  lemma IterationEffectsIff(world: World, tools: set<string>, n: nat, e: Effect)
    ensures e in IterationEffects(world, tools, n) <==> exists k: nat :: HappensAt(world, tools, n, k, e)
  {
    if CallsTool(world, tools, n) {
      var attempt := Attempts(world, n);
      AttemptEffectsIff(attempt, 0, e);
      forall k: nat
        ensures HappensAt(world, tools, n, k, e) <==>
                k <= MAX_RETRIES && e in attempt(k).effects && NoneReturns(attempt, 0, k)
      {
        assert forall j: nat :: attempt(j) == world.attempt(n, j);
      }
    }
  }

  lemma {:induction false} EffectsBetweenIff(world: World, tools: set<string>, a: nat, b: nat, e: Effect)
    ensures e in EffectsBetween(world, tools, a, b) <==>
            exists n: nat, k: nat :: a < n <= b && HappensAt(world, tools, n, k, e)
    decreases b - a
  {
    if a < b {
      IterationEffectsIff(world, tools, a + 1, e);
      EffectsBetweenIff(world, tools, a + 1, b, e);
    }
  }

  lemma {:induction false} CollectIff<T>(f: Effect -> seq<T>, effects: seq<Effect>, x: T)
    ensures x in Collect(f, effects) <==> exists e :: e in effects && x in f(e)
  {
    if effects != [] {
      var front, last := effects[..|effects| - 1], effects[|effects| - 1];
      CollectIff(f, front, x);
      assert forall e :: e in effects <==> e == last || e in front;
    }
  }

  function RunEffects(world: World, tools: set<string>, maxIter: int): seq<Effect> {
    EffectsBetween(world, tools, 0, LastIteration(world.reply, 0, maxIter))
  }

  /** The effects of a run are those of the attempts made in the iterations it reaches. */
  lemma RunEffectsIff(world: World, tools: set<string>, maxIter: int, e: Effect)
    ensures e in RunEffects(world, tools, maxIter) <==> Happens(world, tools, maxIter, e)
  {
    var last := LastIteration(world.reply, 0, maxIter);
    EffectsBetweenIff(world, tools, 0, last, e);
    forall n: nat | 1 <= n
      ensures n <= last <==> n <= maxIter && Reaches(world.reply, n)
    {
      ReachedIff(world.reply, n, maxIter);
    }
  }

  /** A finished run holds the sections its attempts wrote, each as often and in the order they were
      written, and nothing else. */
  lemma SectionsOfRun(initial: seq<string>, world: World, tools: set<string>, maxIter: int)
    ensures Loop(Start(initial), world, tools, maxIter).sections == Collect(SectionsOf, RunEffects(world, tools, maxIter))
  {
    LoopBrings(Start(initial), world, tools, maxIter);
  }

  /** A chunk is in the final state exactly when it has an id and was the first found with it. */
  lemma ChunksOfRun(initial: seq<string>, world: World, tools: set<string>, maxIter: int, c: Chunk)
    ensures var found := Collect(ChunksOf, RunEffects(world, tools, maxIter));
            c in Loop(Start(initial), world, tools, maxIter).chunks <==> c.id != "" && FirstWithId(found, c)
  {
    LoopBrings(Start(initial), world, tools, maxIter);
    KeptIff(Collect(ChunksOf, RunEffects(world, tools, maxIter)), c);
  }

  ghost predicate FirstWithId(found: seq<Chunk>, c: Chunk) {
    exists k: nat :: k < |found| && found[k] == c && IdIsNew(found, k)
  }

  ghost predicate IdIsNew(found: seq<Chunk>, k: nat)
    requires k < |found|
  {
    forall j: nat :: j < k ==> found[j].id != found[k].id
  }

  lemma FirstSnoc(front: seq<Chunk>, last: Chunk, c: Chunk)
    ensures FirstWithId(front + [last], c) <==> FirstWithId(front, c) || (c == last && last.id !in Ids(front))
  {
    var found := front + [last];
    forall k: nat | k < |front|
      ensures found[k] == front[k] && (IdIsNew(found, k) <==> IdIsNew(front, k))
    {
      assert forall j: nat :: j <= k ==> found[j] == front[j];
    }
    assert found[|front|] == last && (IdIsNew(found, |front|) <==> last.id !in Ids(front)) by {
      NewIffNotListed(front, last);
    }
  }

  lemma NewIffNotListed(front: seq<Chunk>, last: Chunk)
    ensures IdIsNew(front + [last], |front|) <==> last.id !in Ids(front)
  {
    var found, ids := front + [last], Ids(front);
    if last.id in ids {
      var j: nat :| j < |ids| && ids[j] == last.id;
      assert found[j].id == last.id;
    } else {
      forall j: nat | j < |front|
        ensures found[j].id != last.id
      {
        assert ids[j] == found[j].id;
      }
    }
  }

  lemma {:induction false} KeptIff(found: seq<Chunk>, c: Chunk)
    ensures c in WithChunks([], found) <==> c.id != "" && FirstWithId(found, c)
  {
    if found != [] {
      var front, last := found[..|found| - 1], found[|found| - 1];
      KeptIff(front, c);
      ChunksAreKept([], front, last.id);
      FirstSnoc(front, last, c);
      assert front + [last] == found;
      KeptStep(WithChunks([], front), last, c);
    }
  }

  lemma KeptStep(have: seq<Chunk>, last: Chunk, c: Chunk)
    ensures c in WithChunk(have, last) <==> c in have || (c == last && last.id != "" && last.id !in Ids(have))
  {
  }

  /** A citation is in the final state exactly when it was checked under its own id, which is not
      empty, and no later check was. */
  lemma CitationsOfRun(initial: seq<string>, world: World, tools: set<string>, maxIter: int, id: string, c: Citation)
    ensures var final := Loop(Start(initial), world, tools, maxIter);
            (id in final.citations && final.citations[id] == c)
            <==> id != "" && c.refId == id && LastWithId(Collect(CitationsOf, RunEffects(world, tools, maxIter)), c)
  {
    LoopBrings(Start(initial), world, tools, maxIter);
    EnteredIff(Collect(CitationsOf, RunEffects(world, tools, maxIter)), id, c);
  }

  ghost predicate LastWithId(found: seq<Citation>, c: Citation) {
    exists k: nat :: k < |found| && found[k] == c && IdStays(found, k)
  }

  ghost predicate IdStays(found: seq<Citation>, k: nat)
    requires k < |found|
  {
    forall j: nat :: k < j < |found| ==> found[j].refId != found[k].refId
  }

  lemma {:induction false} EnteredIff(found: seq<Citation>, id: string, c: Citation)
    ensures var r := WithCitations(map[], found);
            (id in r && r[id] == c) <==> id != "" && c.refId == id && LastWithId(found, c)
  {
    if found != [] {
      var front, last := found[..|found| - 1], found[|found| - 1];
      EnteredIff(front, id, c);
      assert IdStays(found, |front|);
      forall k: nat | k < |front|
        ensures found[k] == front[k]
        ensures IdStays(found, k) <==> IdStays(front, k) && last.refId != front[k].refId
      {
        assert found[|front|] == last;
      }
    }
  }

  // ----- The record of a run -----

  /** What the calls of iterations a + 1 to b leave in the history: one entry for each call of a tool
      that exists, a success when some attempt returned. */
  ghost function RecordsBetween(world: World, tools: set<string>, a: nat, b: nat): seq<ToolCall>
    decreases b - a
  {
    if a >= b then [] else RecordOf(world, tools, a + 1) + RecordsBetween(world, tools, a + 1, b)
  }

  ghost function RecordOf(world: World, tools: set<string>, n: nat): seq<ToolCall> {
    if CallsTool(world, tools, n) then [ToolCall(world.reply(n).name, SomeReturns(world, n))] else []
  }

  ghost predicate SomeReturns(world: World, n: nat) {
    exists k: nat :: k <= MAX_RETRIES && world.attempt(n, k).ending.Returned?
  }

  lemma IterateRecords(s: Snapshot, world: World, tools: set<string>)
    requires s.fatal.None?
    ensures Iterate(s, world, tools).0.history == s.history + RecordOf(world, tools, s.iteration + 1)
  {
    var n := s.iteration + 1;
    var planned := Plan(s.(iteration := n), world.reply(n)).0;
    if CallsTool(world, tools, n) {
      RunToolRecords(planned, world.reply(n).name, Attempts(world, n), 0);
      assert forall j: nat :: Attempts(world, n)(j) == world.attempt(n, j);
      assert Iterate(s, world, tools).0 == RunTool(planned, world.reply(n).name, Attempts(world, n), 0);
    }
  }

  /** State u has the records of s and those of the iterations after it. */
  ghost predicate Recorded(s: Snapshot, world: World, tools: set<string>, last: nat, u: Snapshot) {
    u.history == s.history + RecordsBetween(world, tools, s.iteration, last)
  }

  lemma RecordedNothing(s: Snapshot, world: World, tools: set<string>)
    ensures Recorded(s, world, tools, s.iteration, s)
  {
    assert s.history + [] == s.history;
  }

  lemma RecordThenRest(s: Snapshot, world: World, tools: set<string>, t: Snapshot, last: nat, u: Snapshot)
    requires s.iteration < last && t.history == s.history + RecordOf(world, tools, s.iteration + 1)
    requires t.iteration == s.iteration + 1 && Recorded(t, world, tools, last, u)
    ensures Recorded(s, world, tools, last, u)
  {
    var n := s.iteration + 1;
    ConcatIsAssociative(s.history, RecordOf(world, tools, n), RecordsBetween(world, tools, n, last));
  }

  lemma {:induction false} LoopRecords(s: Snapshot, world: World, tools: set<string>, maxIter: int)
    requires Counts(s, world.reply) && s.fatal.None?
    ensures Recorded(s, world, tools, LastIteration(world.reply, s.iteration, maxIter), Loop(s, world, tools, maxIter))
    decreases maxIter - s.iteration
  {
    if s.iteration >= maxIter {
      RecordedNothing(s, world, tools);
    } else {
      var t := Iterate(s, world, tools).0;
      Round(s, world, tools, maxIter);
      IterateRecords(s, world, tools);
      LastGrows(world.reply, s.iteration + 1, maxIter);
      if Iterate(s, world, tools).1 {
        RecordedNothing(t, world, tools);
      } else {
        LoopRecords(t, world, tools, maxIter);
      }
      RecordThenRest(s, world, tools, t, LastIteration(world.reply, s.iteration, maxIter), Loop(s, world, tools, maxIter));
    }
  }

  /** The history of a finished run has one entry for each reached call of a tool that exists, in
      order, and no other. */
  lemma HistoryOfRun(initial: seq<string>, world: World, tools: set<string>, maxIter: int)
    ensures Loop(Start(initial), world, tools, maxIter).history
         == RecordsBetween(world, tools, 0, LastIteration(world.reply, 0, maxIter))
  {
    LoopRecords(Start(initial), world, tools, maxIter);
  }
}
