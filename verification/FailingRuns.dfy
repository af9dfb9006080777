/** Runs, each from an empty store and registry, after which a property that is stated with a condition fails. */
module FailingRuns {
  import opened ZSets
  import opened MatchStore
  import opened RoomRegistry
  import opened PickAndSweep
  import opened MatchProtocol
  import opened MatchSafety
  import opened MatchOutcomes

  ghost predicate Leads(steps: seq<Step>, w: World) {
    Possible(EMPTY_WORLD, steps) && After(EMPTY_WORLD, steps) == w && CapacityOk(w.rooms.info)
  }

  lemma {:induction false} RunAppend(w: World, steps: seq<Step>, k: Step)
    requires CapacityOk(w.rooms.info) && Possible(w, steps) && CapacityOk(After(w, steps).rooms.info)
        && Enabled(After(w, steps), k)
    ensures Possible(w, steps + [k]) && After(w, steps + [k]) == Next(After(w, steps), k)
    decreases |steps|
  {
    hide Next, Enabled;
    if steps == [] {
      assert [] + [k] == [k] && [k][1..] == [];
    } else {
      assert (steps + [k])[1..] == steps[1..] + [k];
      RunAppend(Next(w, steps[0]), steps[1..], k);
    }
  }

  lemma Extend(steps: seq<Step>, w: World, k: Step)
    requires Leads(steps, w) && Enabled(w, k)
    ensures Leads(steps + [k], Next(w, k))
  {
    RunAppend(EMPTY_WORLD, steps, k);
  }

  lemma StartsEmpty()
    ensures Leads([], EMPTY_WORLD)
  {
  }

  lemma LeadsThere(steps: seq<Step>, w: World)
    requires Leads(steps, w)
    ensures Possible(EMPTY_WORLD, steps) && After(EMPTY_WORLD, steps) == w
  {
  }

  // ---------- two players are picked ----------

  function TicketFor(id: string, player: string): Ticket {
    Ticket(id, player, 1, DEFAULT_MODE, Queued, "", "", 1, 1, 100)
  }

  const FIRST := Step.Create(TicketFor("t1", "a"), 1, NoFault)
  const SECOND := Step.Create(TicketFor("t2", "b"), 2, NoFault)
  const PICK := Step.Pick("m", 0, 10)

  const ONE_QUEUED := WithTicket(EMPTY_STORE, TicketFor("t1", "a"), 1)
  const BOTH_QUEUED := WithTicket(ONE_QUEUED, TicketFor("t2", "b"), 2)

  /** The two players, in the order in which they are picked. */
  const PAIR := PickFrom(BOTH_QUEUED.pool, 0, 10, 2)

  function PairPicked(w: World): World {
    w.(store := BOTH_QUEUED.(pool := map[]), attempts := map["m" := Attempt(PAIR, Picked)])
  }

  lemma PickOfTwo(z: ZSet, a: string, b: string)
    requires z.Keys == {a, b} && a != b
    ensures
      var r := Take(Sorted(z), 2);
      |r| == 2 && Ids(r) == {a, b}
  {
    hide Sorted, Ranked;
    TakeAreFirst(z, 2);
    var r := Take(Sorted(z), 2);
    assert |z| == |z.Keys| == 2;
    assert r[0] in z && r[1] in z && r[0] != r[1];
    assert Ids(r) == {r[0], r[1]} by {
      assert r == [r[0], r[1]];
    }
  }

  lemma PairIsBoth()
    ensures |PAIR| == 2 && PAIR[0] != PAIR[1] && Ids(PAIR) == {"a", "b"}
  {
    hide Sorted, Ranked, Composite;
    var pool := BOTH_QUEUED.pool;
    assert Qualifying(pool, 0, 10) == pool by {
      CompositeCarries(1, 1);
      CompositeCarries(1, 2);
    }
    PickOfTwo(pool, "a", "b");
    assert Ids(PAIR) == {PAIR[0], PAIR[1]} by {
      assert PAIR == [PAIR[0], PAIR[1]];
    }
  }

  lemma PickedPair(w: World)
    requires w == EMPTY_WORLD.(store := BOTH_QUEUED, rooms := w.rooms) && CapacityOk(w.rooms.info)
    ensures Enabled(w, PICK) && Next(w, PICK) == PairPicked(w)
  {
    hide PickFrom, Composite;
    PairIsBoth();
    assert BOTH_QUEUED.pool - Ids(PAIR) == map[];
  }

  lemma LeadsIsSafe(steps: seq<Step>, w: World)
    requires Leads(steps, w)
    ensures CapacityOk(w.rooms.info)
  {
  }

  lemma UntilPick(steps: seq<Step>, w: World)
    requires Leads(steps, w) && w == EMPTY_WORLD.(rooms := w.rooms)
    ensures Leads(steps + [FIRST] + [SECOND] + [PICK], PairPicked(w))
  {
    hide PickFrom, Composite, Leads;
    assert CapacityOk(w.rooms.info) by {
      LeadsIsSafe(steps, w);
    }
    Extend(steps, w, FIRST);
    var w1 := w.(store := ONE_QUEUED);
    assert Next(w, FIRST) == w1;
    Extend(steps + [FIRST], w1, SECOND);
    var w2 := w.(store := BOTH_QUEUED);
    assert Next(w1, SECOND) == w2;
    PickedPair(w2);
    Extend(steps + [FIRST] + [SECOND], w2, PICK);
  }

  // ---------- a requeue that fails ----------

  const ALLOCATE := Step.Allocate("m", DEFAULT_MODE, "r", 1, false)
  const REQUEUE := Step.Requeue("m", [3, 4], Some(0))
  const LOSING_RUN: seq<Step> := [FIRST, SECOND, PICK, ALLOCATE, REQUEUE]

  lemma PlacedNowhere(w: World)
    requires w.rooms == EMPTY_REGISTRY && w.attempts == map["m" := Attempt(PAIR, Picked)]
    ensures Enabled(w, ALLOCATE) && Next(w, ALLOCATE) == w.(attempts := map["m" := Attempt(PAIR, MustRequeue)])
  {
    hide PickFrom;
    assert Choice(w.rooms, DEFAULT_MODE, 1, DEFAULT_HEARTBEAT_AGE, |PAIR|) == None;
  }

  lemma NobodyPutBack(w: World)
    requires w.rooms == EMPTY_REGISTRY && w.attempts == map["m" := Attempt(PAIR, MustRequeue)]
    ensures Enabled(w, REQUEUE) && Next(w, REQUEUE) == w.(attempts := map[])
  {
    hide PickFrom;
    PairIsBoth();
  }

  /** Two players are picked, no server is registered, and the first call of the requeue fails: both stay
      queued, neither is in the pool, and no attempt is left to put them back. */
  lemma FailedRequeueLosesPlayers()
    ensures Possible(EMPTY_WORLD, LOSING_RUN)
    ensures
      var r := After(EMPTY_WORLD, LOSING_RUN);
      && r.attempts == map[] && IsQueued(r.store, "t1") && IsQueued(r.store, "t2") && r.store.pool == map[]
      && !NobodyLost(r)
  {
    hide PickFrom, Composite, Leads, Next, Enabled;
    StartsEmpty();
    UntilPick([], EMPTY_WORLD);
    var steps := [] + [FIRST] + [SECOND] + [PICK];
    var w := PairPicked(EMPTY_WORLD);
    PlacedNowhere(w);
    Extend(steps, w, ALLOCATE);
    var w1 := w.(attempts := map["m" := Attempt(PAIR, MustRequeue)]);
    NobodyPutBack(w1);
    Extend(steps + [ALLOCATE], w1, REQUEUE);
    var r := w1.(attempts := map[]);
    assert LOSING_RUN == steps + [ALLOCATE] + [REQUEUE];
    LeadsThere(LOSING_RUN, r);
    assert "a" in r.store.playerTicket && !Held(r, "a");
  }

  // ---------- the pair on a server ----------

  const SERVER := GameServer("s", "room", "addr", "", DEFAULT_MODE, 2, 0, "active", 1, 1)
  const REGISTER := Step.Register(SERVER, 1, NoWriteFault)
  const REGISTRY := Written(EMPTY_REGISTRY, SERVER, true, NoWriteFault)
  const TAKEN :=
    REGISTRY.(info := map["s" := SERVER.(load := 2)], loads := map[DEFAULT_MODE := map["s" := 1.0]])
  const ASSIGNMENT := RoomAssignment("m", "r", "s", "addr", DEFAULT_MODE, PAIR, "assigned", 2, 1)

  lemma UntilRegistered()
    ensures Leads([REGISTER], EMPTY_WORLD.(rooms := REGISTRY))
  {
    Extend([], EMPTY_WORLD, REGISTER);
    assert [] + [REGISTER] == [REGISTER];
  }

  lemma ServerIsChosen()
    ensures Choice(REGISTRY, DEFAULT_MODE, 1, DEFAULT_HEARTBEAT_AGE, 2) == Some("s")
  {
    assert IndexAgrees(REGISTRY) by {
      assert IndexedRight(REGISTRY, "s");
    }
    ChoiceIsLeastLoaded(REGISTRY, DEFAULT_MODE, 1, DEFAULT_HEARTBEAT_AGE, 2);
    assert Fits(REGISTRY, "s", DEFAULT_MODE, 1, DEFAULT_HEARTBEAT_AGE, 2);
  }

  function PairPlaced(w: World): World {
    w.(rooms := TAKEN, attempts := map["m" := Attempt(PAIR, Placed(ASSIGNMENT))],
        reserved := map["m" := Charge("s", 2)])
  }

  lemma StoredAlone(r: Registry, was: GameServer, ratio: real, g: GameServer, mode: string)
    requires r.info == map[g.id := was] && r.loads == map[mode := map[g.id := ratio]] && g.capacity > 0
    ensures Stored(r, g, mode) == r.(info := map[g.id := g], loads := map[mode := map[g.id := Ratio(g)]])
  {
    var s := Stored(r, g, mode);
    assert s.info == map[g.id := g];
    assert s.loads[mode] == map[g.id := Ratio(g)];
    assert s.loads == map[mode := map[g.id := Ratio(g)]];
  }

  lemma TakenIs()
    ensures Stored(REGISTRY, Taken(SERVER, 2, 1), DEFAULT_MODE) == TAKEN
  {
    hide Stored;
    StoredAlone(REGISTRY, SERVER, 0.0, Taken(SERVER, 2, 1), DEFAULT_MODE);
  }

  lemma PlacedPair(w: World)
    requires w.rooms == REGISTRY && w.attempts == map["m" := Attempt(PAIR, Picked)] && w.reserved == map[]
    ensures CapacityOk(w.rooms.info) && Enabled(w, ALLOCATE) && Next(w, ALLOCATE) == PairPlaced(w)
  {
    hide PickFrom, Choice, Sorted, FirstFit, Stored;
    PairIsBoth();
    ServerIsChosen();
    TakenIs();
  }

  const UNTIL_PLACED: seq<Step> := [REGISTER] + [FIRST] + [SECOND] + [PICK] + [ALLOCATE]

  lemma UntilPlaced()
    ensures Leads(UNTIL_PLACED, PairPlaced(PairPicked(EMPTY_WORLD.(rooms := REGISTRY))))
  {
    hide Leads, Next, PickFrom;
    UntilRegistered();
    var w := EMPTY_WORLD.(rooms := REGISTRY);
    UntilPick([REGISTER], w);
    PlacedPair(PairPicked(w));
    Extend([REGISTER] + [FIRST] + [SECOND] + [PICK], PairPicked(w), ALLOCATE);
  }

  // ---------- a server that registers again ----------

  /** The server registers again while the slots of a match in flight are taken: its load forgets them. */
  lemma ReregistrationForgetsReservations()
    ensures
      var steps := UNTIL_PLACED + [REGISTER];
      && Possible(EMPTY_WORLD, steps)
      && var r := After(EMPTY_WORLD, steps);
         r.reserved == map["m" := Charge("s", 2)] && "s" in r.rooms.info && r.rooms.info["s"].load == 0
  {
    hide PickFrom;
    UntilPlaced();
    var w := PairPlaced(PairPicked(EMPTY_WORLD.(rooms := REGISTRY)));
    Extend(UNTIL_PLACED, w, REGISTER);
  }

  const REPORT := Step.Beat("s", Heartbeat("active", Some(0)), 2, NoWriteFault)

  /** A heartbeat that reports no joined players does the same. */
  lemma HeartbeatForgetsReservations()
    ensures
      var steps := UNTIL_PLACED + [REPORT];
      && Possible(EMPTY_WORLD, steps)
      && var r := After(EMPTY_WORLD, steps);
         r.reserved == map["m" := Charge("s", 2)] && "s" in r.rooms.info && r.rooms.info["s"].load == 0
  {
    hide PickFrom;
    UntilPlaced();
    var w := PairPlaced(PairPicked(EMPTY_WORLD.(rooms := REGISTRY)));
    Extend(UNTIL_PLACED, w, REPORT);
  }

  const MOVED_SERVER := SERVER.(mode := "duel", load := 2)
  const MOVE := Step.Register(MOVED_SERVER, 1, NoWriteFault)
  const FAIL := Step.Complete("m", 2, Some(0))
  const RELEASE := Step.Release("m", 3, false)
  const MOVED_RUN: seq<Step> := UNTIL_PLACED + [MOVE] + [FAIL] + [RELEASE]
  const MOVED :=
    Registry(map["s" := MOVED_SERVER], map[DEFAULT_MODE := {"s"}, "duel" := {"s"}], map["s" := 1.0],
             map[DEFAULT_MODE := map["s" := 1.0], "duel" := map["s" := 1.0]], map[])

  lemma MovedIs()
    ensures Written(TAKEN, MOVED_SERVER, true, NoWriteFault) == MOVED
  {
    var r := Written(TAKEN, MOVED_SERVER, true, NoWriteFault);
    assert {} + {"s"} == {"s"};
    assert r.info == MOVED.info && r.members == MOVED.members && r.heartbeats == MOVED.heartbeats;
    assert r.loads == MOVED.loads;
  }

  lemma MovedServer(w: World)
    requires w.rooms == TAKEN && CapacityOk(w.rooms.info)
    ensures Next(w, MOVE) == w.(rooms := MOVED) && CapacityOk(MOVED.info)
  {
    MovedIs();
    hide Written;
  }

  lemma FailedCompletion(w: World)
    requires CapacityOk(w.rooms.info) && w.attempts == map["m" := Attempt(PAIR, Placed(ASSIGNMENT))]
    ensures Enabled(w, FAIL) && Next(w, FAIL) == w.(attempts := map["m" := Attempt(PAIR, MustRelease(ASSIGNMENT))])
  {
    hide PickFrom;
    PairIsBoth();
  }

  lemma MovedIsIndexed()
    ensures IndexAgrees(MOVED) && "s" in MOVED.info && MOVED.info["s"] == MOVED_SERVER
  {
    assert IndexedRight(MOVED, "s");
  }

  lemma ReleasedElsewhere(w: World)
    requires w.rooms == MOVED && CapacityOk(w.rooms.info)
        && w.attempts == map["m" := Attempt(PAIR, MustRelease(ASSIGNMENT))]
    ensures Enabled(w, RELEASE) && !IndexAgrees(Next(w, RELEASE).rooms)
  {
    PairIsBoth();
    MovedIsIndexed();
    hide PickFrom, Written, Released, IndexAgrees;
    ReleaseKeepsIndexExactlyWhen(MOVED, "s", DEFAULT_MODE, 2, 3);
    assert Next(w, RELEASE).rooms == Released(MOVED, "s", DEFAULT_MODE, 2, 3);
  }

  /** It registers in another mode, and the match then gives its slots back under the old one: the new mode's
      index keeps the full server, although no write failed. */
  lemma ReleaseAfterMoveMisindexes()
    ensures Possible(EMPTY_WORLD, MOVED_RUN) && !IndexAgrees(After(EMPTY_WORLD, MOVED_RUN).rooms)
  {
    UntilPlaced();
    var w := PairPlaced(PairPicked(EMPTY_WORLD.(rooms := REGISTRY)));
    hide Next, PickFrom, Written, Stored, IndexAgrees;
    MovedServer(w);
    Extend(UNTIL_PLACED, w, MOVE);
    var w1 := w.(rooms := MOVED);
    FailedCompletion(w1);
    Extend(UNTIL_PLACED + [MOVE], w1, FAIL);
    var w2 := w1.(attempts := map["m" := Attempt(PAIR, MustRelease(ASSIGNMENT))]);
    ReleasedElsewhere(w2);
    Extend(UNTIL_PLACED + [MOVE] + [FAIL], w2, RELEASE);
  }

  // ---------- a release that fails ----------

  const LOST_RELEASE := Step.Release("m", 3, true)
  const PUT_BACK := Step.Requeue("m", [5, 6], None)
  const LEAKING_RUN: seq<Step> := UNTIL_PLACED + [FAIL] + [LOST_RELEASE] + [PUT_BACK]

  lemma LostRelease(w: World)
    requires CapacityOk(w.rooms.info) && w.attempts == map["m" := Attempt(PAIR, MustRelease(ASSIGNMENT))]
    ensures Enabled(w, LOST_RELEASE) && Next(w, LOST_RELEASE) == w.(attempts := map["m" := Attempt(PAIR, MustRequeue)])
  {
    hide PickFrom;
  }

  lemma PutBack(w: World)
    requires CapacityOk(w.rooms.info) && w.attempts == map["m" := Attempt(PAIR, MustRequeue)]
    ensures Enabled(w, PUT_BACK) && Next(w, PUT_BACK) == w.(store := Next(w, PUT_BACK).store, attempts := map[])
    ensures Next(w, PUT_BACK).store.results == w.store.results
  {
    hide PickFrom, RequeuedPool;
    PairIsBoth();
  }

  /** The completion fails and so does the release: no attempt is left and no match was made, and the server's two
      slots stay taken. */
  lemma FailedReleaseLeaksSlots()
    ensures Possible(EMPTY_WORLD, LEAKING_RUN)
    ensures
      var r := After(EMPTY_WORLD, LEAKING_RUN);
      && r.attempts == map[] && r.store.results == map[] && r.reserved == map["m" := Charge("s", 2)]
      && "s" in r.rooms.info && r.rooms.info["s"].load == 2
  {
    hide PickFrom, Next, Leads, Composite;
    UntilPlaced();
    var w := PairPlaced(PairPicked(EMPTY_WORLD.(rooms := REGISTRY)));
    LeadsIsSafe(UNTIL_PLACED, w);
    FailedCompletion(w);
    Extend(UNTIL_PLACED, w, FAIL);
    var w1 := w.(attempts := map["m" := Attempt(PAIR, MustRelease(ASSIGNMENT))]);
    LostRelease(w1);
    Extend(UNTIL_PLACED + [FAIL], w1, LOST_RELEASE);
    var w2 := w.(attempts := map["m" := Attempt(PAIR, MustRequeue)]);
    PutBack(w2);
    Extend(UNTIL_PLACED + [FAIL] + [LOST_RELEASE], w2, PUT_BACK);
    LeadsThere(LEAKING_RUN, Next(w2, PUT_BACK));
  }

  // ---------- a write of a server that stops half-way ----------

  /** A registration fails at the last of its writes. */
  lemma TornRegistrationMisindexes()
    ensures
      var steps := [Step.Register(SERVER, 1, LoadFails)];
      Possible(EMPTY_WORLD, steps) && !IndexAgrees(After(EMPTY_WORLD, steps).rooms)
  {
    var k := Step.Register(SERVER, 1, LoadFails);
    var r := Next(EMPTY_WORLD, k).rooms;
    assert !IndexedRight(r, "s");
    hide Next, IndexAgrees;
    Extend([], EMPTY_WORLD, k);
    assert [] + [k] == [k];
  }

  const BEAT := Step.Beat("s", Heartbeat("", Some(1)), 2, LoadFails)

  lemma TornHeartbeat(w: World)
    requires w.rooms == REGISTRY && CapacityOk(w.rooms.info)
    ensures !IndexAgrees(Next(w, BEAT).rooms)
  {
    assert !IndexedRight(Next(w, BEAT).rooms, "s");
  }

  /** So does a heartbeat that reports a load. */
  lemma TornHeartbeatMisindexes()
    ensures
      var steps := [REGISTER] + [BEAT];
      Possible(EMPTY_WORLD, steps) && !IndexAgrees(After(EMPTY_WORLD, steps).rooms)
  {
    var w := EMPTY_WORLD.(rooms := REGISTRY);
    UntilRegistered();
    TornHeartbeat(w);
    hide Next, IndexAgrees, Written;
    Extend([REGISTER], w, BEAT);
  }

  // ---------- a pool entry without a ticket ----------

  const CANCEL := Step.Cancel("t1", 2)
  const AGAIN := Step.Create(TicketFor("t3", "a"), 3, NoFault)
  const COMPLETE := Step.Complete("m", 4, None)
  const LEFTOVER_RUN: seq<Step> := [REGISTER] + [FIRST] + [SECOND] + [PICK] + [CANCEL] + [AGAIN]
      + [ALLOCATE] + [COMPLETE]

  const CANCELLED :=
    Store(BOTH_QUEUED.tickets["t1" := TicketFor("t1", "a").(status := Cancelled, updatedAt := 2)],
          map["b" := "t2"], map[], map["t2" := 100.0], map[])

  const REQUEUED_ANEW := WithTicket(CANCELLED, TicketFor("t3", "a"), 3)

  lemma CancelledWhileHeld(w: World)
    requires w.store == BOTH_QUEUED.(pool := map[]) && CapacityOk(w.rooms.info)
    ensures Next(w, CANCEL) == w.(store := CANCELLED)
  {
    var s := Next(w, CANCEL).store;
    assert PlayersOf(w.store, {"t1"}) == {"a"};
    assert s.playerTicket == CANCELLED.playerTicket;
    assert s.expiry == CANCELLED.expiry;
    assert s.tickets == CANCELLED.tickets;
  }

  lemma CreatedAnew(w: World)
    requires w.store == CANCELLED && CapacityOk(w.rooms.info)
    ensures Enabled(w, AGAIN) && Next(w, AGAIN) == w.(store := REQUEUED_ANEW)
  {
    hide Composite;
  }

  lemma PairStillQueued(s: Store)
    requires s.playerTicket.Keys == {"a", "b"}
    ensures StillQueued(s, PAIR) == PAIR
  {
    hide PickFrom;
    PairIsBoth();
    assert PAIR[0] in Ids(PAIR) && PAIR[1] in Ids(PAIR);
    assert PAIR[..1] == [PAIR[0]] && PAIR[..1][..0] == [] && PAIR == [PAIR[0]] + [PAIR[1]];
    assert StillQueued(s, PAIR[..1]) == [PAIR[0]];
  }

  lemma CompletedLeavesEntry(w: World)
    requires w.store == REQUEUED_ANEW && w.attempts == map["m" := Attempt(PAIR, Placed(ASSIGNMENT))]
        && CapacityOk(w.rooms.info)
    ensures
      var r := Next(w, COMPLETE);
      r.attempts == map[] && r.store.pool == map["a" := Composite(1, 3)] && "a" !in r.store.playerTicket
  {
    hide PickFrom, Composite, Completed, StillQueued;
    PairIsBoth();
    StillQueuedMembers(w.store, PAIR);
    assert PAIR[0] in PAIR && PAIR[1] in PAIR && "a" in Ids(PAIR);
    assert StillQueued(w.store, PAIR) == PAIR by {
      PairStillQueued(w.store);
    }
    CompletedQueue(w.store, PAIR, ResultFor("m", ASSIGNMENT, 4));
  }

  /** While a player is held by an attempt, the player cancels and queues again; the attempt then completes the new
      ticket and leaves its pool entry. The next creation that fails at its last command removes that entry. */
  lemma LeftoverEntryIsRemoved()
    ensures Possible(EMPTY_WORLD, LEFTOVER_RUN)
    ensures
      var r := After(EMPTY_WORLD, LEFTOVER_RUN);
      && r.attempts == map[] && "a" in r.store.pool && "a" !in r.store.playerTicket
      && Created(r.store, TicketFor("t4", "a"), 5, ExpiryAddFails) != r.store
  {
    hide PickFrom, Composite, Leads, Next;
    UntilRegistered();
    var w := EMPTY_WORLD.(rooms := REGISTRY);
    UntilPick([REGISTER], w);
    var held := PairPicked(w);
    var steps := [REGISTER] + [FIRST] + [SECOND] + [PICK];
    assert CapacityOk(held.rooms.info);
    CancelledWhileHeld(held);
    Extend(steps, held, CANCEL);
    CreatedAnew(held.(store := CANCELLED));
    Extend(steps + [CANCEL], held.(store := CANCELLED), AGAIN);
    var anew := held.(store := REQUEUED_ANEW);
    PlacedPair(anew);
    Extend(steps + [CANCEL] + [AGAIN], anew, ALLOCATE);
    Extend(steps + [CANCEL] + [AGAIN] + [ALLOCATE], PairPlaced(anew), COMPLETE);
    CompletedLeavesEntry(PairPlaced(anew));
    LeadsThere(LEFTOVER_RUN, Next(PairPlaced(anew), COMPLETE));
  }
}
