/** Which service calls keep the store, the load index and the mirror in agreement: exactly those in which no
    Redis call fails at one of three places. */
module ServiceAgreement {
  import opened ZSets
  import opened MatchStore
  import opened RoomRegistry
  import opened PickAndSweep
  import opened Mirrors
  import opened ServiceSteps

  // ---------- an attempt from the pick on ----------

  function AfterPick(b: Backend, minScore: int, maxScore: int): Backend {
    b.(store := Without(b.store, PickFrom(b.store.pool, minScore, maxScore, PLAYERS_PER_ROOM)))
  }

  /** Pick two players out of a window and try to match them. */
  function PickAttempt(b: Backend, minScore: int, maxScore: int, mode: string, d: Draws): Backend
    requires StoreOk(b.store) && CapacityOk(b.rooms.info) && PLAYERS_PER_ROOM <= |d.stamps|
  {
    if d.pickFails then b
    else
      var players := PickFrom(b.store.pool, minScore, maxScore, PLAYERS_PER_ROOM);
      SmallerPoolKeepsOk(b.store, Ids(players));
      PickIsFromPool(b.store.pool, minScore, maxScore, PLAYERS_PER_ROOM);
      Attempted(AfterPick(b, minScore, maxScore), players, mode, d)
  }

  /** The attempt fails and so does a call of its requeue. */
  predicate LeavesOut(b: Backend, players: seq<string>, mode: string, d: Draws) {
    && |players| >= PLAYERS_PER_ROOM && !Completes(b, players, mode, d)
    && RequeueReach(d.requeueFault, |players|) < |players|
  }

  predicate Strands(b: Backend, minScore: int, maxScore: int, mode: string, d: Draws) {
    && !d.pickFails
    && LeavesOut(AfterPick(b, minScore, maxScore),
        PickFrom(b.store.pool, minScore, maxScore, PLAYERS_PER_ROOM), mode, d)
  }

  lemma GivenBackKeepsIndex(b: Backend, players: seq<string>, mode: string, d: Draws)
    requires IndexAgrees(b.rooms) && Placement(b, players, mode, d).Some?
    ensures
      var rooms := RoomsPlaced(b, players, mode, d);
      IndexAgrees(rooms) && IndexAgrees(GivenBack(rooms, players, OrElse(mode, DEFAULT_MODE),
          Placement(b, players, mode, d).value, d))
  {
    RoomsPlacedOk(b, players, mode, d);
    AllocatedKeeps(b.rooms, OrElse(mode, DEFAULT_MODE), d.allocatedAt, DEFAULT_HEARTBEAT_AGE, |players|);
    var sid := Placement(b, players, mode, d).value;
    ReleaseKeepsIndexExactlyWhen(RoomsPlaced(b, players, mode, d), sid, OrElse(mode, DEFAULT_MODE), |players|,
        d.releasedAt);
  }

  lemma SavingKeepsIndex(r: Registry, assignments: map<string, RoomAssignment>)
    requires IndexAgrees(r)
    ensures IndexAgrees(r.(assignments := assignments))
  {
    var w := r.(assignments := assignments);
    forall sid | sid in w.info ensures IndexedRight(w, sid) {
      assert IndexedRight(r, sid);
    }
  }

  lemma AttemptKeepsIndex(b: Backend, players: seq<string>, mode: string, d: Draws)
    requires StoreOk(b.store) && IndexAgrees(b.rooms) && |players| <= |d.stamps|
    ensures IndexAgrees(Attempted(b, players, mode, d).rooms)
  {
    hide StoreOk, CapacityOk, IndexedRight, RoomsPlaced, GivenBack, RequeuedPool, Completed, UpsertTickets;
    if |players| >= PLAYERS_PER_ROOM && Placement(b, players, mode, d).Some? {
      GivenBackKeepsIndex(b, players, mode, d);
      var rooms := RoomsPlaced(b, players, mode, d);
      SavingKeepsIndex(rooms, Attempted(b, players, mode, d).rooms.assignments);
    }
  }

  lemma AttemptKeepsMirror(b: Backend, players: seq<string>, mode: string, d: Draws)
    requires StoreOk(b.store) && CapacityOk(b.rooms.info) && MirrorAgrees(b) && |players| <= |d.stamps|
    requires d.matchId !in b.store.results
    ensures MirrorAgrees(Attempted(b, players, mode, d))
  {
    hide StoreOk, CapacityOk, RoomsPlaced, GivenBack, UpsertTickets, Completed, RequeuedPool;
    if Completes(b, players, mode, d) {
      RoomsPlacedOk(b, players, mode, d);
      var sid := Placement(b, players, mode, d).value;
      var addr := RoomsPlaced(b, players, mode, d).info[sid].addr;
      CompletedMirror(b, players, ResultOn(sid, addr, mode, d));
    }
  }

  lemma AttemptKeepsStoreOk(b: Backend, players: seq<string>, mode: string, d: Draws)
    requires StoreOk(b.store) && CapacityOk(b.rooms.info) && |players| <= |d.stamps|
    ensures StoreOk(Attempted(b, players, mode, d).store)
  {
    hide StoreOk, CapacityOk, RoomsPlaced, GivenBack, UpsertTickets, Completed, RequeuedPool;
    RequeuedPoolIs(b.store, players, d.stamps, RequeueReach(d.requeueFault, |players|));
    if Completes(b, players, mode, d) {
      RoomsPlacedOk(b, players, mode, d);
      var sid := Placement(b, players, mode, d).value;
      var addr := RoomsPlaced(b, players, mode, d).info[sid].addr;
      CompletedKeepsOk(b.store, players, ResultOn(sid, addr, mode, d));
    }
  }

  lemma AttemptKeepsStoreExactlyWhen(b: Backend, players: seq<string>, mode: string, d: Draws)
    requires AgreesExcept(b.store, Ids(players)) && Ids(players) <= b.store.playerTicket.Keys
    requires CapacityOk(b.rooms.info) && PLAYERS_PER_ROOM <= |players| <= |d.stamps|
    requires forall i, j | 0 <= i < j < |players| :: players[i] != players[j]
    ensures Agrees(Attempted(b, players, mode, d).store) <==> !LeavesOut(b, players, mode, d)
  {
    hide StoreOk, RoomsPlaced, GivenBack, UpsertTickets, Completed, RequeuedPool;
    if Completes(b, players, mode, d) {
      RoomsPlacedOk(b, players, mode, d);
      var sid := Placement(b, players, mode, d).value;
      var addr := RoomsPlaced(b, players, mode, d).info[sid].addr;
      CompletedAgrees(b.store, players, ResultOn(sid, addr, mode, d));
    } else {
      PutBackRestoresExactlyWhen(b, players, d);
    }
  }

  lemma PickedNobody(b: Backend, minScore: int, maxScore: int, mode: string, d: Draws)
    requires StoreOk(b.store) && CapacityOk(b.rooms.info) && PLAYERS_PER_ROOM <= |d.stamps| && !d.pickFails
    requires PickFrom(b.store.pool, minScore, maxScore, PLAYERS_PER_ROOM) == []
    ensures PickAttempt(b, minScore, maxScore, mode, d) == b
  {
    hide StoreOk, CapacityOk;
    assert b.store.pool - Ids([]) == b.store.pool;
  }

  /** Pick-and-match keeps every agreement unless it fails and strands a picked player. */
  lemma PickAttemptKeepsExactlyWhen(b: Backend, minScore: int, maxScore: int, mode: string, d: Draws)
    requires Agreed(b) && PLAYERS_PER_ROOM <= |d.stamps| && d.matchId !in b.store.results
    ensures Agreed(PickAttempt(b, minScore, maxScore, mode, d)) <==> !Strands(b, minScore, maxScore, mode, d)
  {
    hide StoreOk, CapacityOk, IndexedRight, Attempted, Completes, PickFrom;
    if !d.pickFails {
      var players := PickFrom(b.store.pool, minScore, maxScore, PLAYERS_PER_ROOM);
      var c := AfterPick(b, minScore, maxScore);
      PickIsFromPool(b.store.pool, minScore, maxScore, PLAYERS_PER_ROOM);
      PickHolds(b.store, {}, minScore, maxScore, PLAYERS_PER_ROOM);
      AttemptKeepsIndex(c, players, mode, d);
      AttemptKeepsMirror(c, players, mode, d);
      if players == [] {
        PickedNobody(b, minScore, maxScore, mode, d);
      } else {
        assert {} + Ids(players) == Ids(players);
        AttemptKeepsStoreExactlyWhen(c, players, mode, d);
      }
    }
  }

  // ---------- a match attempt is all or nothing ----------

  /** Equal but for when servers were last updated. */
  ghost predicate SameRooms(r: Registry, s: Registry) {
    && s == r.(info := s.info)
    && s.info.Keys == r.info.Keys
    && forall sid | sid in r.info :: s.info[sid] == r.info[sid].(updatedAt := s.info[sid].updatedAt)
  }

  /** Equal but for when waiting players were last enqueued: same members, same ratings. */
  ghost predicate SameStore(s: Store, t: Store) {
    && t == s.(pool := t.pool)
    && t.pool.Keys == s.pool.Keys
    && forall p | p in s.pool :: forall mmr: int :: Carries(s.pool[p], mmr) <==> Carries(t.pool[p], mmr)
  }

  lemma BothAgreeSameRatings(s: Store, t: Store)
    requires Agrees(s) && Agrees(t) && t == s.(pool := t.pool)
    ensures SameStore(s, t)
  {
    forall p, mmr: int | p in s.pool ensures Carries(s.pool[p], mmr) <==> Carries(t.pool[p], mmr) {
      var own := s.tickets[s.playerTicket[p]].mmr;
      assert p in t.pool && Carries(s.pool[p], own) && Carries(t.pool[p], own);
      if Carries(s.pool[p], mmr) {
        CarriesOne(s.pool[p], mmr, own);
      }
      if Carries(t.pool[p], mmr) {
        CarriesOne(t.pool[p], mmr, own);
      }
    }
  }

  lemma FailedAttemptRooms(b: Backend, players: seq<string>, mode: string, d: Draws)
    requires StoreOk(b.store) && IndexAgrees(b.rooms) && PLAYERS_PER_ROOM <= |players| <= |d.stamps|
    requires !Completes(b, players, mode, d)
    ensures SameRooms(b.rooms, Attempted(b, players, mode, d).rooms)
       <==> Placement(b, players, mode, d).None? || !d.releaseFails
  {
    hide StoreOk, RequeuedPool, Finishes;
    var placement := Placement(b, players, mode, d);
    if placement.Some? {
      RoomsPlacedOk(b, players, mode, d);
      var sid := placement.value;
      ReserveThenRelease(b.rooms, sid, |players|, d.allocatedAt, d.releasedAt);
    }
  }

  lemma FailedAttemptStore(b: Backend, players: seq<string>, mode: string, d: Draws)
    requires StoreOk(b.store) && CapacityOk(b.rooms.info) && PLAYERS_PER_ROOM <= |players| <= |d.stamps|
    requires !Completes(b, players, mode, d)
    ensures
      var r := Attempted(b, players, mode, d);
      r.store == b.store.(pool := r.store.pool) && r.mirror == b.mirror
  {
    hide StoreOk, CapacityOk, RequeuedPool, Finishes, RoomsPlaced, GivenBack;
  }

  lemma SameRatingsAgree(s: Store, t: Store)
    requires Agrees(s) && SameStore(s, t) && PoolStamped(t)
    ensures Agrees(t)
  {
    hide PoolStamped;
    assert forall id :: IsQueued(t, id) <==> IsQueued(s, id);
    forall p | p in t.pool ensures Carries(t.pool[p], t.tickets[t.playerTicket[p]].mmr) {
      assert Carries(s.pool[p], s.tickets[s.playerTicket[p]].mmr);
    }
  }

  lemma FailedAttemptPool(b: Backend, minScore: int, maxScore: int, mode: string, d: Draws)
    requires Agreed(b) && PLAYERS_PER_ROOM <= |d.stamps| && d.matchId !in b.store.results && !d.pickFails
    requires PickFrom(b.store.pool, minScore, maxScore, PLAYERS_PER_ROOM) != []
    requires !Completes(AfterPick(b, minScore, maxScore),
        PickFrom(b.store.pool, minScore, maxScore, PLAYERS_PER_ROOM), mode, d)
    ensures SameStore(b.store, PickAttempt(b, minScore, maxScore, mode, d).store)
       <==> RequeueReach(d.requeueFault, PLAYERS_PER_ROOM) == PLAYERS_PER_ROOM
  {
    hide IndexedRight, Attempted, Completes, PickFrom;
    var players := PickFrom(b.store.pool, minScore, maxScore, PLAYERS_PER_ROOM);
    var r := PickAttempt(b, minScore, maxScore, mode, d);
    PickIsFromPool(b.store.pool, minScore, maxScore, PLAYERS_PER_ROOM);
    SmallerPoolKeepsOk(b.store, Ids(players));
    FailedAttemptStore(AfterPick(b, minScore, maxScore), players, mode, d);
    PickHolds(b.store, {}, minScore, maxScore, PLAYERS_PER_ROOM);
    assert {} + Ids(players) == Ids(players);
    AttemptKeepsStoreExactlyWhen(AfterPick(b, minScore, maxScore), players, mode, d);
    if Agrees(r.store) {
      BothAgreeSameRatings(b.store, r.store);
    } else if SameStore(b.store, r.store) {
      AttemptKeepsStoreOk(AfterPick(b, minScore, maxScore), players, mode, d);
      SameRatingsAgree(b.store, r.store);
    }
  }

  /** When a picked pair does not end in a match, everything is as it was before the pick, but for enqueue and
      update times: the ticket store exactly when no requeue call fails, and the room registry exactly when no
      server had been reserved or the release worked. */
  lemma AttemptIsAllOrNothing(b: Backend, minScore: int, maxScore: int, mode: string, d: Draws)
    requires Agreed(b) && PLAYERS_PER_ROOM <= |d.stamps| && d.matchId !in b.store.results && !d.pickFails
    requires PickFrom(b.store.pool, minScore, maxScore, PLAYERS_PER_ROOM) != []
    requires !Completes(AfterPick(b, minScore, maxScore),
        PickFrom(b.store.pool, minScore, maxScore, PLAYERS_PER_ROOM), mode, d)
    ensures
      var players := PickFrom(b.store.pool, minScore, maxScore, PLAYERS_PER_ROOM);
      var r := PickAttempt(b, minScore, maxScore, mode, d);
      && r.mirror == b.mirror
      && (SameStore(b.store, r.store) <==> RequeueReach(d.requeueFault, PLAYERS_PER_ROOM) == PLAYERS_PER_ROOM)
      && (SameRooms(b.rooms, r.rooms) <==> Placement(b, players, mode, d).None? || !d.releaseFails)
  {
    hide StoreOk, IndexedRight, Attempted, Completes, SameStore, SameRooms, Choice;
    var players := PickFrom(b.store.pool, minScore, maxScore, PLAYERS_PER_ROOM);
    var c := AfterPick(b, minScore, maxScore);
    PickIsFromPool(b.store.pool, minScore, maxScore, PLAYERS_PER_ROOM);
    SmallerPoolKeepsOk(b.store, Ids(players));
    FailedAttemptRooms(c, players, mode, d);
    FailedAttemptStore(c, players, mode, d);
    FailedAttemptPool(b, minScore, maxScore, mode, d);
  }
}
