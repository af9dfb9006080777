/** Whole runs of service calls, harmless or not. */
module ServiceRuns {
  import opened ZSets
  import opened MatchStore
  import opened RoomRegistry
  import opened PickAndSweep
  import opened MatchProtocol
  import opened MatchSafety
  import opened MatchOutcomes
  import opened Mirrors
  import opened ServiceSteps
  import opened ServiceAgreement
  import opened ServiceCalls
  import opened ServiceRefinement

  /** A call leads from a world with all invariants to another, and revises nothing settled. */
  lemma CallKeepsInv(w: World, b: Backend, call: Call)
    requires Inv(w) && Shows(w, b) && Fresh(b, call) && NewMatch(w, call)
    ensures Possible(w, StepsOfCall(b, call))
    ensures
      var r := After(w, StepsOfCall(b, call));
      Inv(r) && Shows(r, Served(b, call)) && Later(b.store, Served(b, call).store)
  {
    hide StoreOk, AttemptOk, ResultsOk, Later, StepsOfCall, Served, Possible, After;
    CallIsARun(w, b, call);
    RunIsSafe(w, StepsOfCall(b, call));
  }

  /** The calls can be made one after the other, each with identifiers that are new at its time. */
  ghost predicate Callable(w: World, b: Backend, calls: seq<Call>)
    requires Inv(w) && Shows(w, b)
    decreases |calls|
  {
    calls != [] ==>
      && Fresh(b, calls[0]) && NewMatch(w, calls[0])
      && (CallKeepsInv(w, b, calls[0]);
          Callable(After(w, StepsOfCall(b, calls[0])), Served(b, calls[0]), calls[1..]))
  }

  ghost function WorldAfter(w: World, b: Backend, calls: seq<Call>): World
    requires Inv(w) && Shows(w, b) && Callable(w, b, calls)
    decreases |calls|
  {
    if calls == [] then w
    else
      CallKeepsInv(w, b, calls[0]);
      WorldAfter(After(w, StepsOfCall(b, calls[0])), Served(b, calls[0]), calls[1..])
  }

  ghost function BackendAfter(w: World, b: Backend, calls: seq<Call>): Backend
    requires Inv(w) && Shows(w, b) && Callable(w, b, calls)
    decreases |calls|
  {
    if calls == [] then b
    else
      CallKeepsInv(w, b, calls[0]);
      BackendAfter(After(w, StepsOfCall(b, calls[0])), Served(b, calls[0]), calls[1..])
  }

  /** After every sequence of service calls the store and the rooms are those of a world with all invariants, and
      no ticket that had left the queue and no result has been revised. */
  lemma {:induction false} CallsKeepInv(w: World, b: Backend, calls: seq<Call>)
    requires Inv(w) && Shows(w, b) && Callable(w, b, calls)
    ensures Inv(WorldAfter(w, b, calls)) && Shows(WorldAfter(w, b, calls), BackendAfter(w, b, calls))
    ensures Later(b.store, BackendAfter(w, b, calls).store)
    decreases |calls|
  {
    hide StoreOk, AttemptOk, ResultsOk, Later, Served, StepsOfCall, After;
    if calls == [] {
      LaterReflexive(b.store);
    } else {
      var c := Served(b, calls[0]);
      CallKeepsInv(w, b, calls[0]);
      CallsKeepInv(After(w, StepsOfCall(b, calls[0])), c, calls[1..]);
      LaterTransitive(b.store, c.store, BackendAfter(w, b, calls).store);
    }
  }

  const EMPTY_BACKEND := Backend(EMPTY_STORE, EMPTY_REGISTRY, EMPTY_MIRROR)

  /** The tickets that carry the match id are two, one for each of the two distinct players of the result. */
  ghost predicate HasTwoTickets(s: Store, m: string)
    requires m in s.results
  {
    var result := s.results[m];
    && |result.players| == 2 && result.players[0] != result.players[1]
    && exists t0, t1 | t0 in s.tickets && t1 in s.tickets ::
         && s.tickets[t0].player == result.players[0] && s.tickets[t1].player == result.players[1]
         && forall id :: id in s.tickets && s.tickets[id].matchId == m <==> id == t0 || id == t1
  }

  lemma ResultHasTwoTickets(w: World, m: string)
    requires m in w.store.results && OwnsItsTickets(w, m)
    ensures HasTwoTickets(w.store, m)
  {
    var t0, t1 := w.consumed[m][0], w.consumed[m][1];
    assert w.consumed[m] == [t0, t1];
    assert t0 in w.store.tickets && t1 in w.store.tickets;
  }

  /** From an empty backend, whatever calls are made and whatever fails in them: keys and expiry index are exact, no
      server is over its capacity, and every result has exactly its two tickets. */
  lemma EverySequenceOfCalls(calls: seq<Call>)
    requires Inv(EMPTY_WORLD) && Shows(EMPTY_WORLD, EMPTY_BACKEND) && Callable(EMPTY_WORLD, EMPTY_BACKEND, calls)
    ensures
      var b := BackendAfter(EMPTY_WORLD, EMPTY_BACKEND, calls);
      StoreOk(b.store) && CapacityOk(b.rooms.info) && forall m | m in b.store.results :: HasTwoTickets(b.store, m)
  {
    var w, b := WorldAfter(EMPTY_WORLD, EMPTY_BACKEND, calls), BackendAfter(EMPTY_WORLD, EMPTY_BACKEND, calls);
    CallsKeepInv(EMPTY_WORLD, EMPTY_BACKEND, calls);
    hide StoreOk, ResultsOk, AttemptOk, OwnsItsTickets, HasTwoTickets, Callable, WorldAfter, BackendAfter;
    EachTicketConsumedOnce(w);
    forall m | m in b.store.results ensures HasTwoTickets(b.store, m) {
      ResultHasTwoTickets(w, m);
    }
  }

  lemma EmptyBackendAgrees()
    ensures Agreed(EMPTY_BACKEND)
  {
  }

  /** From an empty backend every sequence of harmless calls leaves everything in agreement. */
  lemma HarmlessCallsFromEmpty(calls: seq<Call>)
    requires HarmlessRun(EMPTY_BACKEND, calls)
    ensures Agreed(AfterCalls(EMPTY_BACKEND, calls))
  {
    EmptyBackendAgrees();
    HarmlessRunsAgree(EMPTY_BACKEND, calls);
  }

  // ---------- a sweep that fails after its first ticket ----------

  const NO_PICK := Draws("m", "r", true, 0, 0, false, None, 0, false, false, [1, 1], None)
  const FIRST_CALL := CreateCall(TicketRequest("a", 1, "", 10), CreateDraws("t1", 1, 1, NoFault, false), NO_PICK)
  const SECOND_CALL := CreateCall(TicketRequest("b", 1, "", 10), CreateDraws("t2", 1, 2, NoFault, false), NO_PICK)
  const TWO_CREATIONS: seq<Call> := [FIRST_CALL, SECOND_CALL]

  lemma CreatedOnly(b: Backend, q: TicketRequest, c: CreateDraws)
    requires Agreed(b) && Fresh(b, CreateCall(q, c, NO_PICK)) && q.player != "" && q.player !in b.store.playerTicket
        && c.fault == NoFault
    ensures Served(b, CreateCall(q, c, NO_PICK)) == Opened(b, q, c) && Harmless(b, CreateCall(q, c, NO_PICK))
  {
    hide Agreed, WithTicket;
  }

  lemma HarmlessCons(b: Backend, call: Call, rest: seq<Call>)
    requires Agreed(b) && Fresh(b, call) && Harmless(b, call) && Agreed(Served(b, call))
        && HarmlessRun(Served(b, call), rest)
    ensures HarmlessRun(b, [call] + rest) && AfterCalls(b, [call] + rest) == AfterCalls(Served(b, call), rest)
  {
    hide Agreed, Harmless, Served;
    assert ([call] + rest)[1..] == rest;
  }

  /** Any sweep that fails past its first due ticket leaves a row behind. */
  lemma StoppedSweepLeavesRow(b: Backend, now: int, limit: int, fault: Fault)
    requires Agreed(b)
    requires
      var n := |SweepIds(b.store, now, limit)|;
      SweepErrs(fault, n) && SweepReach(fault, n) > 0
    ensures
      var r := SweepOn(b, now, limit, fault);
      exists id | id in r.store.tickets && id in r.mirror.tickets ::
        r.store.tickets[id].status == TimedOut && r.mirror.tickets[id].status == Queued
  {
    hide IndexedRight, SweepIds, PoolCarriesMmr, PoolStamped, ExpiryAgrees;
    var ids := SweepIds(b.store, now, limit);
    SweepTakesFirstDue(b.store, now, limit);
    var reached := ids[..SweepReach(fault, |ids|)];
    assert reached[0] == ids[0] && ids[0] in ids && reached[0] in Ids(reached);
    var r := SweepOn(b, now, limit, fault);
    assert r.store.tickets[ids[0]].status == TimedOut && r.mirror.tickets[ids[0]].status == Queued;
  }

  lemma BothAreDue(s: Store)
    requires StoreOk(s) && s.expiry == map["t1" := 11.0, "t2" := 11.0]
    ensures |SweepIds(s, 100, 0)| == 2
  {
    hide StoreOk, SweepIds, Ranked, Sorted;
    SweepTakesFirstDue(s, 100, 0);
    assert Due(s, 100).Keys == {"t1", "t2"};
    hide Due;
    assert |Due(s, 100)| == |Due(s, 100).Keys|;
  }

  lemma BothAreCreated()
    ensures Agreed(EMPTY_BACKEND) && HarmlessRun(EMPTY_BACKEND, TWO_CREATIONS)
    ensures Agreed(AfterCalls(EMPTY_BACKEND, TWO_CREATIONS))
    ensures AfterCalls(EMPTY_BACKEND, TWO_CREATIONS)
         == Opened(Opened(EMPTY_BACKEND, FIRST_CALL.q, FIRST_CALL.c), SECOND_CALL.q, SECOND_CALL.c)
  {
    EmptyBackendAgrees();
    var b0 := EMPTY_BACKEND;
    var b1 := Opened(b0, FIRST_CALL.q, FIRST_CALL.c);
    CreatedOnly(b0, FIRST_CALL.q, FIRST_CALL.c);
    hide Agreed, Served, Harmless, CreateSucceeds;
    CallKeepsAgreementExactlyWhen(b0, FIRST_CALL);
    CreatedOnly(b1, SECOND_CALL.q, SECOND_CALL.c);
    CallKeepsAgreementExactlyWhen(b1, SECOND_CALL);
    HarmlessCons(b1, SECOND_CALL, []);
    HarmlessCons(b0, FIRST_CALL, [SECOND_CALL]);
    assert [FIRST_CALL] + ([SECOND_CALL] + []) == TWO_CREATIONS && [SECOND_CALL] + [] == [SECOND_CALL];
  }

  lemma AgreedIsOk(b: Backend)
    requires Agreed(b)
    ensures StoreOk(b.store)
  {
  }

  /** Two queued tickets are due, and the sweep fails at the second: the first has timed out in Redis, and its
      MySQL row still says queued. */
  lemma SweepLeavesMirrorBehind()
    ensures Agreed(EMPTY_BACKEND) && HarmlessRun(EMPTY_BACKEND, TWO_CREATIONS)
    ensures Agreed(AfterCalls(EMPTY_BACKEND, TWO_CREATIONS))
    ensures
      var r := SweepOn(AfterCalls(EMPTY_BACKEND, TWO_CREATIONS), 100, 0, Some(2));
      exists id | id in r.store.tickets && id in r.mirror.tickets ::
        r.store.tickets[id].status == TimedOut && r.mirror.tickets[id].status == Queued
  {
    BothAreCreated();
    hide Agreed, HarmlessRun, AfterCalls, SweepOn, SweepIds;
    var b := AfterCalls(EMPTY_BACKEND, TWO_CREATIONS);
    assert b.store.expiry == map["t1" := 11.0, "t2" := 11.0];
    AgreedIsOk(b);
    BothAreDue(b.store);
    StoppedSweepLeavesRow(b, 100, 0, Some(2));
  }
}
