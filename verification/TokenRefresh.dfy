/** The browser client's token refresh: requests that get a 401 while a refresh is under way
    wait in a queue for its outcome. A step runs from one await to the next. */
module TokenRefresh {

  /** A call of a queued request's resolve or reject. */
  datatype Settlement = Resolved(token: string) | Rejected

  /** The module's variables and local storage ("" when a token is absent), and a record of what
      happened: the refresh calls in flight, how each finished refresh ended, and for every
      request ever queued the refresh it waited for and the settle calls made on it. */
  datatype Client = Client(
    isRefreshing: bool, failedQueue: seq<nat>, accessToken: string, refreshToken: string,
    inFlight: nat, outcomes: seq<Settlement>, waitsFor: seq<nat>, settled: seq<seq<Settlement>>)

  const INITIAL := Client(false, [], "", "", 0, [], [], [])

  datatype Event =
    | Unauthorized(retried: bool, authUrl: bool)
    | RefreshSucceeds(accessToken: string, refreshToken: string)
    | RefreshFails
    | StorageChanges(accessToken: string, refreshToken: string)

  /** One settle call is added to each request in ids. */
  function SettleEach(settled: seq<seq<Settlement>>, ids: seq<nat>, s: Settlement): (r: seq<seq<Settlement>>)
    ensures |r| == |settled|
    decreases |ids|
  {
    if ids == [] then settled
    else if ids[0] < |settled| then SettleEach(settled[ids[0] := settled[ids[0]] + [s]], ids[1..], s)
    else SettleEach(settled, ids[1..], s)
  }

  /** processQueue: rejects all on an error, resolves all with a non-empty token, and otherwise
      settles nobody; the queue is emptied in every case. */
  function ProcessQueue(c: Client, error: bool, token: string): Client {
    var settled :=
      if error then SettleEach(c.settled, c.failedQueue, Rejected)
      else if token != "" then SettleEach(c.settled, c.failedQueue, Resolved(token))
      else c.settled;
    c.(settled := settled, failedQueue := [])
  }

  function Next(c: Client, e: Event): Client {
    match e
    case Unauthorized(retried, authUrl) =>
      if retried || authUrl then c
      else if c.isRefreshing then
        c.(failedQueue := c.failedQueue + [|c.settled|], settled := c.settled + [[]], waitsFor := c.waitsFor + [|c.outcomes|])
      else if c.refreshToken == "" then ProcessQueue(c, true, "").(accessToken := "")
      else c.(isRefreshing := true, inFlight := c.inFlight + 1)
    case RefreshSucceeds(access, refresh) =>
      if c.inFlight == 0 then c
      else
        ProcessQueue(c.(accessToken := access, refreshToken := refresh), false, access)
          .(isRefreshing := false, inFlight := c.inFlight - 1, outcomes := c.outcomes + [Resolved(access)])
    case RefreshFails =>
      if c.inFlight == 0 then c
      else
        ProcessQueue(c, true, "")
          .(accessToken := "", refreshToken := "", isRefreshing := false, inFlight := c.inFlight - 1, outcomes := c.outcomes + [Rejected])
    case StorageChanges(access, refresh) => c.(accessToken := access, refreshToken := refresh)
  }

  function Run(events: seq<Event>): Client {
    if events == [] then INITIAL else Next(Run(events[..|events| - 1]), events[|events| - 1])
  }

  // ----- The client as it is written -----

  class AuthClient {
    var isRefreshing: bool
    var failedQueue: seq<nat>
    var accessToken: string
    var refreshToken: string
    var inFlight: nat
    var outcomes: seq<Settlement>
    var waitsFor: seq<nat>
    var settled: seq<seq<Settlement>>

    function Value(): Client
      reads this
    {
      Client(isRefreshing, failedQueue, accessToken, refreshToken, inFlight, outcomes, waitsFor, settled)
    }

    constructor ()
      ensures Value() == INITIAL
    {
      isRefreshing, failedQueue, accessToken, refreshToken := false, [], "", "";
      inFlight, outcomes, waitsFor, settled := 0, [], [], [];
    }

    method Settle(id: nat, s: Settlement)
      modifies this`settled
      ensures settled == SettleEach(old(settled), [id], s)
    {
      if id < |settled| {
        settled := settled[id := settled[id] + [s]];
      }
    }

    method RunQueue(error: bool, token: string)
      modifies this`settled, this`failedQueue
      ensures Value() == ProcessQueue(old(Value()), error, token)
    {
      ghost var s := if error then Rejected else Resolved(token);
      for i := 0 to |failedQueue|
        invariant failedQueue == old(failedQueue)
        invariant if error || token != "" then SettleEach(settled, failedQueue[i..], s) == SettleEach(old(settled), failedQueue, s)
                  else settled == old(settled)
      {
        assert failedQueue[i..][1..] == failedQueue[i + 1..];
        if error {
          Settle(failedQueue[i], Rejected);
        } else if token != "" {
          Settle(failedQueue[i], Resolved(token));
        }
      }
      failedQueue := [];
    }

    /** The 401 interceptor up to its first await. */
    method OnUnauthorized(retried: bool, authUrl: bool)
      modifies this
      ensures Value() == Next(old(Value()), Unauthorized(retried, authUrl))
    {
      if !retried && !authUrl {
        if isRefreshing {
          failedQueue := failedQueue + [|settled|];
          settled := settled + [[]];
          waitsFor := waitsFor + [|outcomes|];
          return;
        }
        isRefreshing := true;
        if refreshToken == "" {
          isRefreshing := false;
          RunQueue(true, "");
          accessToken := "";
          return;
        }
        inFlight := inFlight + 1;
      }
    }

    /** The interceptor after its await, when the refresh call succeeded. */
    method OnRefreshed(access: string, refresh: string)
      requires inFlight > 0
      modifies this
      ensures Value() == Next(old(Value()), RefreshSucceeds(access, refresh))
    {
      inFlight := inFlight - 1;
      outcomes := outcomes + [Resolved(access)];
      accessToken := access;
      refreshToken := refresh;
      RunQueue(false, access);
      isRefreshing := false;
    }

    /** The interceptor after its await, when the refresh call failed. */
    method OnRefreshFailed()
      requires inFlight > 0
      modifies this
      ensures Value() == Next(old(Value()), RefreshFails)
    {
      inFlight := inFlight - 1;
      outcomes := outcomes + [Rejected];
      RunQueue(true, "");
      accessToken := "";
      refreshToken := "";
      isRefreshing := false;
    }
  }

  // ----- Every run -----

  ghost predicate Distinct(ids: seq<nat>) {
    forall i, j :: 0 <= i < j < |ids| ==> ids[i] != ids[j]
  }

  /** Where request id stands: it waits in the queue, unsettled, for the refresh under way; or
      the refresh it waited for is over, and it was settled once, by that refresh's outcome,
      unless that outcome was an empty token, when it was not settled at all. */
  ghost predicate SettledByItsRefresh(c: Client, id: nat)
    requires id < |c.settled| == |c.waitsFor|
  {
    if id in c.failedQueue then c.settled[id] == [] && c.waitsFor[id] == |c.outcomes|
    else
      && c.waitsFor[id] < |c.outcomes|
      && var outcome := c.outcomes[c.waitsFor[id]];
         c.settled[id] == if outcome == Resolved("") then [] else [outcome]
  }

  ghost predicate Invariant(c: Client) {
    && c.inFlight == (if c.isRefreshing then 1 else 0)
    && (!c.isRefreshing ==> c.failedQueue == [])
    && Distinct(c.failedQueue)
    && |c.waitsFor| == |c.settled|
    && (forall i :: 0 <= i < |c.failedQueue| ==> c.failedQueue[i] < |c.settled|)
    && (forall id: nat :: id < |c.settled| ==> SettledByItsRefresh(c, id))
  }

  lemma {:induction false} SettleEachOnce(settled: seq<seq<Settlement>>, ids: seq<nat>, s: Settlement)
    requires Distinct(ids)
    ensures var r := SettleEach(settled, ids, s);
            forall id: nat :: id < |settled| ==> r[id] == if id in ids then settled[id] + [s] else settled[id]
    decreases |ids|
  {
    if ids != [] {
      assert forall id :: id in ids <==> id == ids[0] || id in ids[1..];
      if ids[0] < |settled| {
        SettleEachOnce(settled[ids[0] := settled[ids[0]] + [s]], ids[1..], s);
      } else {
        SettleEachOnce(settled, ids[1..], s);
      }
    }
  }

  lemma FinishKeepsInvariant(c: Client, e: Event)
    requires Invariant(c) && c.inFlight > 0 && (e.RefreshSucceeds? || e.RefreshFails?)
    ensures Invariant(Next(c, e))
  {
    var c' := Next(c, e);
    var outcome := if e.RefreshFails? then Rejected else Resolved(e.accessToken);
    SettleEachOnce(c.settled, c.failedQueue, outcome);
    forall id: nat | id < |c'.settled|
      ensures SettledByItsRefresh(c', id)
    {
      assert SettledByItsRefresh(c, id);
      if id in c.failedQueue {
        assert c'.outcomes[c'.waitsFor[id]] == outcome;
      } else {
        assert c'.outcomes[c'.waitsFor[id]] == c.outcomes[c.waitsFor[id]];
      }
    }
  }

  lemma StepKeepsInvariant(c: Client, e: Event)
    requires Invariant(c)
    ensures Invariant(Next(c, e))
  {
    var c' := Next(c, e);
    match e
    case Unauthorized(_, _) =>
      if c'.failedQueue != c.failedQueue {
        forall id: nat | id < |c'.settled|
          ensures SettledByItsRefresh(c', id)
        {
          if id < |c.settled| {
            assert SettledByItsRefresh(c, id);
            assert id in c'.failedQueue <==> id in c.failedQueue;
          } else {
            assert id == c'.failedQueue[|c.failedQueue|];
          }
        }
      } else {
        assert c'.settled == c.settled && c'.outcomes == c.outcomes;
        assert forall id: nat :: id < |c.settled| && SettledByItsRefresh(c, id) ==> SettledByItsRefresh(c', id);
      }
    case RefreshSucceeds(_, _) => if c.inFlight > 0 { FinishKeepsInvariant(c, e); }
    case RefreshFails => if c.inFlight > 0 { FinishKeepsInvariant(c, e); }
    case StorageChanges(_, _) =>
      assert forall id: nat :: id < |c.settled| && SettledByItsRefresh(c, id) ==> SettledByItsRefresh(c', id);
  }

  /** In every interleaving of 401 responses and refresh outcomes, at most one refresh is in
      flight, the queue is empty whenever none is, and every request that has left the queue was
      settled exactly once, all those of one refresh alike, exactly when that refresh did not
      end with an empty token. */
  lemma {:induction false} EveryRunKeepsInvariant(events: seq<Event>)
    ensures Invariant(Run(events))
  {
    if events != [] {
      EveryRunKeepsInvariant(events[..|events| - 1]);
      StepKeepsInvariant(Run(events[..|events| - 1]), events[|events| - 1]);
    }
  }

  lemma RunSnoc(events: seq<Event>, e: Event)
    ensures Run(events + [e]) == Next(Run(events), e)
  {
    assert (events + [e])[..|events|] == events;
  }

  /** In every run, a refresh starts exactly at a 401 of a request that was not retried and is no
      authentication request, while none is under way and a refresh token is stored. It ends exactly
      when its call does. */
  lemma RefreshStartsIff(events: seq<Event>, e: Event)
    ensures !Run(events).isRefreshing && Run(events + [e]).isRefreshing
       <==> e == Unauthorized(false, false) && !Run(events).isRefreshing && Run(events).refreshToken != ""
    ensures Run(events).isRefreshing && !Run(events + [e]).isRefreshing
       <==> (e.RefreshSucceeds? || e.RefreshFails?) && Run(events).isRefreshing
  {
    RunSnoc(events, e);
    EveryRunKeepsInvariant(events);
  }

  /** A request joins the queue exactly when such a 401 arrives while a refresh is under way, at its
      end; only the end of the refresh takes requests out, and then all of them. */
  lemma QueuedIff(events: seq<Event>, e: Event)
    ensures var c, c' := Run(events), Run(events + [e]);
            && (|c'.settled| > |c.settled| <==> e == Unauthorized(false, false) && c.isRefreshing)
            && c'.failedQueue ==
               (if e == Unauthorized(false, false) && c.isRefreshing then c.failedQueue + [|c.settled|]
                else if e.RefreshSucceeds? || e.RefreshFails? then []
                else c.failedQueue)
  {
    RunSnoc(events, e);
    EveryRunKeepsInvariant(events);
  }

  /** What is stored after each event of a run: after a refresh that succeeds its two tokens, after one
      that fails none, after a 401 that finds no refresh token no access token; otherwise what was
      stored before, or what someone else stored. */
  lemma StoredTokens(events: seq<Event>, e: Event)
    ensures var c, c' := Run(events), Run(events + [e]);
            && (e.RefreshSucceeds? && c.isRefreshing ==> c'.accessToken == e.accessToken && c'.refreshToken == e.refreshToken)
            && (e.RefreshFails? && c.isRefreshing ==> c'.accessToken == "" && c'.refreshToken == "")
            && (e == Unauthorized(false, false) && !c.isRefreshing && c.refreshToken == "" ==>
                  c'.accessToken == "" && c'.refreshToken == "")
            && (e.StorageChanges? ==> c'.accessToken == e.accessToken && c'.refreshToken == e.refreshToken)
            && ((c'.accessToken != c.accessToken || c'.refreshToken != c.refreshToken) ==>
                  || e.StorageChanges?
                  || (c.isRefreshing && (e.RefreshSucceeds? || e.RefreshFails?))
                  || (e == Unauthorized(false, false) && !c.isRefreshing && c.refreshToken == ""))
  {
    RunSnoc(events, e);
    EveryRunKeepsInvariant(events);
  }

  /** Refreshes end with a non-empty token or fail. */
  ghost predicate TokensNonEmpty(events: seq<Event>) {
    forall i :: 0 <= i < |events| && events[i].RefreshSucceeds? ==> events[i].accessToken != ""
  }

  lemma {:induction false} NoEmptyOutcome(events: seq<Event>)
    requires TokensNonEmpty(events)
    ensures Resolved("") !in Run(events).outcomes
  {
    if events != [] {
      assert forall i :: 0 <= i < |events| - 1 ==> events[..|events| - 1][i] == events[i];
      NoEmptyOutcome(events[..|events| - 1]);
      assert events[|events| - 1].RefreshSucceeds? ==> events[|events| - 1].accessToken != "";
    }
  }

  /** As long as refreshes hand out non-empty tokens, once no refresh is under way every request
      that was ever queued has been settled exactly once, by the refresh it waited for. */
  lemma AllSettledOnce(events: seq<Event>, id: nat)
    requires TokensNonEmpty(events) && !Run(events).isRefreshing
    requires id < |Run(events).settled|
    ensures var c := Run(events);
            |c.waitsFor| == |c.settled| && c.waitsFor[id] < |c.outcomes| && c.settled[id] == [c.outcomes[c.waitsFor[id]]]
  {
    EveryRunKeepsInvariant(events);
    NoEmptyOutcome(events);
    assert SettledByItsRefresh(Run(events), id);
  }

  lemma StepKeepsHistory(c: Client, e: Event)
    requires Invariant(c)
    ensures c.outcomes <= Next(c, e).outcomes && c.waitsFor <= Next(c, e).waitsFor
    ensures |c.settled| <= |Next(c, e).settled|
  {
  }

  /** A request whose refresh ended with an empty token is lost: it was waiting, and in no
      continuation of the run is it ever settled. */
  lemma {:induction false} EmptyTokenLosesRequest(before: seq<Event>, refresh: string, after: seq<Event>, id: nat)
    requires id in Run(before).failedQueue
    ensures var c := Run(before + [RefreshSucceeds("", refresh)] + after);
            id < |c.settled| == |c.waitsFor| && id !in c.failedQueue && c.settled[id] == []
            && c.waitsFor[id] < |c.outcomes| && c.outcomes[c.waitsFor[id]] == Resolved("")
    decreases |after|
  {
    var events := before + [RefreshSucceeds("", refresh)];
    EveryRunKeepsInvariant(before);
    EveryRunKeepsInvariant(events + after);
    if after == [] {
      assert events + after == events;
      assert events[..|events| - 1] == before;
      assert SettledByItsRefresh(Run(before), id);
      assert SettledByItsRefresh(Run(events), id);
    } else {
      var shorter := events + after[..|after| - 1];
      assert (events + after)[..|events + after| - 1] == shorter;
      EmptyTokenLosesRequest(before, refresh, after[..|after| - 1], id);
      EveryRunKeepsInvariant(shorter);
      StepKeepsHistory(Run(shorter), after[|after| - 1]);
      NotQueuedAgain(Run(shorter), after[|after| - 1], id);
      assert SettledByItsRefresh(Run(events + after), id);
    }
  }

  lemma NotQueuedAgain(c: Client, e: Event, id: nat)
    requires Invariant(c) && id < |c.settled| && id !in c.failedQueue
    ensures id !in Next(c, e).failedQueue
  {
  }
}
