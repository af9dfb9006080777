/** What the calls of the match service report and leave behind, field by field and without the functions that define
    them. */
module ServiceEffects {
  import opened ZSets
  import opened MatchStore
  import opened RoomRegistry
  import opened PickAndSweep
  import opened TicketEffects
  import opened Mirrors
  import opened ServiceSteps
  import opened ServiceAgreement
  import opened ServiceCalls

  // ---------- what an attempt reports ----------

  /** The server is listed for the mode, of that mode, active, heard of within 30 seconds, and has the room. */
  predicate HasRoom(rooms: Registry, sid: string, mode: string, now: int, slots: nat) {
    && sid in rooms.info && mode in rooms.loads && sid in rooms.loads[mode]
    && var g := rooms.info[sid];
       && g.mode == mode && g.status == "active" && 0 < g.lastHeartbeatAt && now - g.lastHeartbeatAt <= 30_000
       && g.load + slots <= g.capacity
  }

  function ModeAsked(mode: string): string {
    if mode == "" then "default" else mode
  }

  /** The allocation works and some server has the room. */
  predicate Placed(b: Backend, players: seq<string>, mode: string, d: Draws) {
    && !d.allocateFails
    && exists sid | sid in b.rooms.info :: HasRoom(b.rooms, sid, ModeAsked(mode), d.allocatedAt, |players|)
  }

  /** The read of some player's ticket fails, or the transaction that two queued tickets lead to. */
  predicate CompletionFails(s: Store, players: seq<string>, fault: Fault) {
    fault.Some? && (fault.value < |players| || (fault.value == |players| && TwoKeyed(s, players)))
  }

  function Count(b: bool): nat {
    if b then 1 else 0
  }

  /** Whether an attempt completes, and its errors: one for a missing server or a failed allocation, and one each for
      a completion, a release and a requeue that is made and fails. */
  predicate ReportsAs(b: Backend, players: seq<string>, mode: string, d: Draws, completed: bool, errors: seq<Error>) {
    var placed, fails := Placed(b, players, mode, d), CompletionFails(b.store, players, d.completeFault);
    var requeueFails := d.requeueFault.Some? && d.requeueFault.value < |players|;
    if |players| < 2 then !completed && errors == []
    else
      && (completed <==> placed && TwoKeyed(b.store, players) && !fails)
      && (NoAvailableRoomServer in errors <==> !d.allocateFails && !placed)
      && (RedisFailure in errors <==>
            || d.allocateFails || (placed && fails) || (placed && !completed && d.releaseFails)
            || (!completed && requeueFails))
      && |errors| == Count(!placed) + Count(placed && fails) + Count(placed && !completed && d.releaseFails)
                     + Count(!completed && requeueFails)
      && (errors == [] <==>
            completed || (placed && !fails && !TwoKeyed(b.store, players) && !d.releaseFails && !requeueFails))
  }

  lemma PlacementInFields(b: Backend, players: seq<string>, mode: string, d: Draws)
    requires CapacityOk(b.rooms.info)
    ensures
      var sid := Placement(b, players, mode, d);
      && (sid.Some? <==> Placed(b, players, mode, d))
      && (sid.Some? ==> HasRoom(b.rooms, sid.value, ModeAsked(mode), d.allocatedAt, |players|)
                        && b.rooms.info[sid.value].id == sid.value)
  {
    ChoiceInFields(b.rooms, ModeAsked(mode), d.allocatedAt, 30_000, |players|);
    var index := LoadIndex(b.rooms, ModeAsked(mode));
    FirstFitFinds(b.rooms, Sorted(index), ModeAsked(mode), d.allocatedAt, 30_000, |players|);
    SortedIsListing(index);
  }

  lemma CompletionFaults(s: Store, players: seq<string>, fault: Fault)
    ensures CompleteErrs(s, players, fault) <==> CompletionFails(s, players, fault)
    ensures |StillQueued(s, players)| >= 2 <==> TwoKeyed(s, players)
  {
    hide TwoKeyed, StillQueued;
    StillQueuedCount(s, players);
  }

  lemma AttemptReports(b: Backend, players: seq<string>, mode: string, d: Draws)
    requires CapacityOk(b.rooms.info)
    ensures ReportsAs(b, players, mode, d, Completes(b, players, mode, d), AttemptErrors(b, players, mode, d))
  {
    PlacementInFields(b, players, mode, d);
    CompletionFaults(b.store, players, d.completeFault);
    hide Placement, Placed, CompleteErrs, CompletionFails, TwoKeyed, StillQueued, CapacityOk;
  }

  /** With the load index right, no server is missing unless none that is registered has the room. */
  lemma NoServerMeansNone(b: Backend, players: seq<string>, mode: string, d: Draws)
    requires IndexAgrees(b.rooms) && !d.allocateFails
    ensures !Placed(b, players, mode, d) <==>
      forall sid | sid in b.rooms.info ::
        var g := b.rooms.info[sid];
        !(g.mode == ModeAsked(mode) && g.status == "active" && 0 < g.lastHeartbeatAt
          && d.allocatedAt - g.lastHeartbeatAt <= 30_000 && g.load + |players| <= g.capacity)
  {
    PlacementInFields(b, players, mode, d);
    ChoiceInFields(b.rooms, ModeAsked(mode), d.allocatedAt, 30_000, |players|);
  }

  // ---------- what an attempt leaves ----------

  /** The tickets, as they are now, that the players' keys named before. */
  function TicketsNow(before: Store, after: Store, players: seq<string>): seq<Ticket> {
    seq(|players|, (i: nat) requires i < |players| =>
      if players[i] in before.playerTicket && before.playerTicket[players[i]] in after.tickets then
        after.tickets[before.playerTicket[players[i]]]
      else Ticket("", "", 0, "", Queued, "", "", 0, 0, 0))
  }

  /** The match is on a server that had the room, with everyone of the players who was queued; its result, its tickets
      and, unless saving fails, its assignment are stored, and the slots are taken. */
  ghost predicate RecordsAs(b: Backend, after: Backend, players: seq<string>, mode: string, d: Draws) {
    && d.matchId in after.store.results
    && var result := after.store.results[d.matchId];
       && HasRoom(b.rooms, result.serverId, ModeAsked(mode), d.allocatedAt, |players|)
       && var g := b.rooms.info[result.serverId];
          && result == MatchResult(d.matchId, d.roomId, g.id, g.addr, ModeAsked(mode), result.players, Matched,
                                   d.startedAt)
          && CompletesAs(b.store, after.store, players, result, result,
                         TicketsNow(b.store, after.store, result.players))
          && after.rooms == b.rooms.(
               info := b.rooms.info[g.id := g.(load := g.load + |players|, updatedAt := d.allocatedAt)],
               loads := after.rooms.loads, assignments := after.rooms.assignments)
          && after.rooms.assignments ==
               if d.saveFails then b.rooms.assignments
               else b.rooms.assignments[d.matchId :=
                      RoomAssignment(d.matchId, d.roomId, g.id, g.addr, ModeAsked(mode), result.players, "assigned",
                                     g.load + |players|, d.startedAt)]
  }

  lemma RoomsPlacedInFields(b: Backend, players: seq<string>, mode: string, d: Draws)
    requires CapacityOk(b.rooms.info) && Placement(b, players, mode, d).Some?
    ensures
      var sid, placed := Placement(b, players, mode, d).value, RoomsPlaced(b, players, mode, d);
      && sid in b.rooms.info && sid in placed.info
      && var g := b.rooms.info[sid];
         && placed.info == b.rooms.info[sid := g.(load := g.load + |players|, updatedAt := d.allocatedAt)]
         && placed == b.rooms.(info := placed.info, loads := placed.loads)
  {
    RoomsPlacedOk(b, players, mode, d);
    hide Placement, RoomsPlaced;
  }

  lemma TicketsAreStored(before: Store, after: Store, players: seq<string>)
    requires forall p | p in players :: p in before.playerTicket && before.playerTicket[p] in after.tickets
    ensures TicketsNow(before, after, players) == StoredTickets(before, after, players)
  {
    assert forall i | 0 <= i < |players| :: players[i] in players;
  }

  /** The players of the pending result are not looked at. */
  lemma ResultDoesNotMatter(s: Store, r: Store, players: seq<string>, pending: MatchResult, matched: seq<string>)
    ensures
      var result := pending.(players := matched);
      CompletesAs(s, r, players, pending, result, TicketsNow(s, r, matched))
      ==> CompletesAs(s, r, players, result, result, TicketsNow(s, r, matched))
  {
    hide SameAsBefore, Ids, TicketsNow;
  }

  /** The state that a completing attempt leaves, one level down. */
  lemma CompletingAttempt(b: Backend, players: seq<string>, mode: string, d: Draws)
    requires StoreOk(b.store) && CapacityOk(b.rooms.info) && |players| <= |d.stamps| && Completes(b, players, mode, d)
    ensures
      var sid, placed := Placement(b, players, mode, d).value, RoomsPlaced(b, players, mode, d);
      && sid in placed.info && |StillQueued(b.store, players)| >= 2
      && var pending, after := ResultOn(sid, placed.info[sid].addr, mode, d), Attempted(b, players, mode, d);
         && after.store == Completed(b.store, players, pending)
         && after.rooms == placed.(assignments :=
              if d.saveFails then placed.assignments
              else placed.assignments[d.matchId :=
                SavedAssignment(pending.(players := StillQueued(b.store, players)), placed.info[sid].load)])
  {
    RoomsPlacedOk(b, players, mode, d);
    hide StoreOk, CapacityOk, Placement, RoomsPlaced, StillQueued, Completed, StoredTickets, UpsertTickets,
      CompleteErrs;
  }

  lemma AttemptRecords(b: Backend, players: seq<string>, mode: string, d: Draws)
    requires StoreOk(b.store) && CapacityOk(b.rooms.info) && |players| <= |d.stamps| && Completes(b, players, mode, d)
    ensures RecordsAs(b, Attempted(b, players, mode, d), players, mode, d)
  {
    hide StoreOk, CapacityOk, Placement, Finishes, Attempted, RoomsPlaced, StillQueued, Completed, StoredTickets,
      TicketsNow, HasRoom, CompletesAs, Placed;
    PlacementInFields(b, players, mode, d);
    RoomsPlacedInFields(b, players, mode, d);
    CompletingAttempt(b, players, mode, d);
    var sid := Placement(b, players, mode, d).value;
    var pending := ResultOn(sid, b.rooms.info[sid].addr, mode, d);
    var store := Completed(b.store, players, pending);
    var matched := StillQueued(b.store, players);
    CompletionEffect(b.store, players, pending);
    CompletedHasResult(b.store, players, pending);
    TicketsAreStored(b.store, store, matched);
    ResultDoesNotMatter(b.store, store, players, pending, matched);
  }

  /** The slots that were taken on a server are given back unless the release fails. */
  ghost predicate GivenBackTo(b: Backend, rooms: Registry, players: seq<string>, mode: string, d: Draws) {
    exists sid | sid in b.rooms.info && HasRoom(b.rooms, sid, ModeAsked(mode), d.allocatedAt, |players|) ::
      var g := b.rooms.info[sid];
      rooms.info == b.rooms.info[sid :=
        if d.releaseFails then g.(load := g.load + |players|, updatedAt := d.allocatedAt)
        else g.(updatedAt := d.releasedAt)]
  }

  /** Without a match the players are put back up to the failing call, and so are the slots, if any were taken. */
  ghost predicate GivesBackAs(b: Backend, after: Backend, players: seq<string>, mode: string, d: Draws)
    requires |players| <= |d.stamps|
  {
    && RequeuesAs(b.store, after.store, players, d.stamps,
                  if d.requeueFault.Some? && d.requeueFault.value < |players| then d.requeueFault.value else |players|)
    && if Placed(b, players, mode, d) then GivenBackTo(b, after.rooms, players, mode, d) else after.rooms == b.rooms
  }

  lemma GivenBackInFields(b: Backend, players: seq<string>, mode: string, d: Draws)
    requires CapacityOk(b.rooms.info) && Placement(b, players, mode, d).Some?
    requires CapacityOk(RoomsPlaced(b, players, mode, d).info)
    ensures
      var sid := Placement(b, players, mode, d).value;
      var rooms := GivenBack(RoomsPlaced(b, players, mode, d), players, OrElse(mode, DEFAULT_MODE), sid, d);
      && sid in b.rooms.info
      && var g := b.rooms.info[sid];
         rooms.info == b.rooms.info[sid :=
           if d.releaseFails then g.(load := g.load + |players|, updatedAt := d.allocatedAt)
           else g.(updatedAt := d.releasedAt)]
  {
    RoomsPlacedInFields(b, players, mode, d);
    PlacementInFields(b, players, mode, d);
    hide Placement, RoomsPlaced;
  }

  /** The state that an attempt without a match leaves, one level down. */
  lemma FailingAttempt(b: Backend, players: seq<string>, mode: string, d: Draws)
    requires StoreOk(b.store) && CapacityOk(b.rooms.info) && 2 <= |players| <= |d.stamps|
    requires !Completes(b, players, mode, d)
    ensures CapacityOk(RoomsPlaced(b, players, mode, d).info)
    ensures
      var sid, after := Placement(b, players, mode, d), Attempted(b, players, mode, d);
      && after.store == Requeued(b.store, players, d.stamps, RequeueReach(d.requeueFault, |players|))
      && after.rooms ==
         if sid.None? then b.rooms
         else GivenBack(RoomsPlaced(b, players, mode, d), players, OrElse(mode, DEFAULT_MODE), sid.value, d)
  {
    RoomsPlacedOk(b, players, mode, d);
    hide StoreOk, CapacityOk, Placement, RoomsPlaced, GivenBack, Finishes, Requeued, RequeueReach;
  }

  lemma RoomsGivenBack(b: Backend, players: seq<string>, mode: string, d: Draws)
    requires CapacityOk(b.rooms.info) && Placement(b, players, mode, d).Some?
    requires CapacityOk(RoomsPlaced(b, players, mode, d).info)
    ensures
      var sid := Placement(b, players, mode, d).value;
      GivenBackTo(b, GivenBack(RoomsPlaced(b, players, mode, d), players, OrElse(mode, DEFAULT_MODE), sid, d),
                  players, mode, d)
  {
    hide Placement, RoomsPlaced, GivenBack, CapacityOk, HasRoom;
    GivenBackInFields(b, players, mode, d);
    PlacementInFields(b, players, mode, d);
  }

  lemma AttemptGivesBack(b: Backend, players: seq<string>, mode: string, d: Draws)
    requires StoreOk(b.store) && CapacityOk(b.rooms.info) && 2 <= |players| <= |d.stamps|
    requires !Completes(b, players, mode, d)
    ensures GivesBackAs(b, Attempted(b, players, mode, d), players, mode, d)
  {
    hide StoreOk, CapacityOk, KeysAgree, Attempted, Completes, Placement, RoomsPlaced, GivenBack, GivenBackTo, Requeued,
      RequeuesAs, Placed, HasRoom;
    StoreHasKeys(b.store);
    RequeueEffect(b.store, players, d.stamps, RequeueReach(d.requeueFault, |players|));
    PlacementInFields(b, players, mode, d);
    FailingAttempt(b, players, mode, d);
    if Placement(b, players, mode, d).Some? {
      RoomsGivenBack(b, players, mode, d);
    }
  }

  /** All of it: what an attempt reports and leaves. */
  lemma AttemptInFields(b: Backend, players: seq<string>, mode: string, d: Draws)
    requires StoreOk(b.store) && CapacityOk(b.rooms.info) && |players| <= |d.stamps|
    ensures
      var completed, errors := Completes(b, players, mode, d), AttemptErrors(b, players, mode, d);
      && ReportsAs(b, players, mode, d, completed, errors)
      && (IndexAgrees(b.rooms) && |players| >= 2 && !d.allocateFails ==>
            (NoAvailableRoomServer in errors <==>
               forall sid | sid in b.rooms.info ::
                 var g := b.rooms.info[sid];
                 !(g.mode == ModeAsked(mode) && g.status == "active" && 0 < g.lastHeartbeatAt
                   && d.allocatedAt - g.lastHeartbeatAt <= 30_000 && g.load + |players| <= g.capacity)))
      && (|players| < 2 ==> Attempted(b, players, mode, d) == b)
      && (completed ==> RecordsAs(b, Attempted(b, players, mode, d), players, mode, d))
      && (|players| >= 2 && !completed ==> GivesBackAs(b, Attempted(b, players, mode, d), players, mode, d))
  {
    AttemptReports(b, players, mode, d);
    if IndexAgrees(b.rooms) && !d.allocateFails {
      NoServerMeansNone(b, players, mode, d);
    }
    if |players| < 2 {
      TooFewDoNothing(b, players, mode, d);
    } else if Completes(b, players, mode, d) {
      AttemptRecords(b, players, mode, d);
    } else {
      AttemptGivesBack(b, players, mode, d);
    }
    hide StoreOk, CapacityOk, IndexAgrees, Attempted, AttemptErrors, Completes, RecordsAs, GivesBackAs, Placed;
  }

  // ---------- the pick of an attempt around a rating ----------

  /** The pool members whose score lies within 200 of the centre. */
  function InReach(pool: ZSet, center: int): set<string> {
    set p | p in pool && (center - 200) as real <= pool[p] <= (center + 200) as real
  }

  /** Two of them are picked if there are two, and nobody otherwise; nobody left scores lower than the picked. */
  predicate PicksAs(pool: ZSet, center: int, picked: seq<string>) {
    && |picked| == (if |InReach(pool, center)| < 2 then 0 else 2)
    && (forall p | p in picked :: p in InReach(pool, center))
    && (forall i, j | 0 <= i < j < |picked| ::
          picked[i] != picked[j] && picked[i] in pool && picked[j] in pool && pool[picked[i]] <= pool[picked[j]])
    && (forall p, q | p in picked && q in InReach(pool, center) && q !in picked :: pool[p] <= pool[q])
  }

  lemma QualifyingInReach(pool: ZSet, center: int)
    ensures
      var z := Qualifying(pool, center - 200, center + 200);
      z.Keys == InReach(pool, center) && |z| == |InReach(pool, center)| && forall p | p in z :: z[p] == pool[p]
  {
    WindowArithmetic(center - 200, center + 200);
    var z := Qualifying(pool, center - 200, center + 200);
    hide WindowLow, WindowHigh;
    assert z.Keys == InReach(pool, center);
    assert |z| == |z.Keys|;
  }

  lemma PickInReach(pool: ZSet, center: int)
    ensures PicksAs(pool, center, PickFrom(pool, center - MATCH_DELTA, center + MATCH_DELTA, PLAYERS_PER_ROOM))
  {
    QualifyingInReach(pool, center);
    var z := Qualifying(pool, center - 200, center + 200);
    TakeAreFirst(z, 2);
    hide Sorted, StringLe, Qualifying, InReach;
    var r := PickFrom(pool, center - 200, center + 200, 2);
    forall p, q | p in r && q in InReach(pool, center) && q !in r ensures pool[p] <= pool[q] {
      var i :| 0 <= i < |r| && r[i] == p;
      assert Ranked(z, r[i], q);
    }
  }

  /** What an attempt around a rating picks, reports and leaves in the store and the rooms. */
  ghost predicate TriesAs(
    b: Backend, after: Backend, center: int, mode: string, d: Draws, picked: seq<string>, result: Option<MatchResult>,
    errors: seq<Error>)
    requires 2 <= |d.stamps|
  {
    if d.pickFails then
      picked == [] && after.store == b.store && after.rooms == b.rooms && result.None? && errors == [RedisFailure]
    else
      var c := b.(store := b.store.(pool := b.store.pool - Ids(picked)));
      && PicksAs(b.store.pool, center, picked) && |picked| <= 2
      && ReportsAs(c, picked, mode, d, result.Some?, errors)
      && (picked == [] ==> after.store == b.store && after.rooms == b.rooms)
      && (result.Some? ==>
            && RecordsAs(c, after, picked, mode, d) && result.value == after.store.results[d.matchId])
      && (picked != [] && result.None? ==> GivesBackAs(c, after, picked, mode, d))
  }

  /** Nothing of this is about the mirror. */
  lemma TriesBesideMirror(
    b: Backend, after: Backend, center: int, mode: string, d: Draws, picked: seq<string>, result: Option<MatchResult>,
    errors: seq<Error>, mirror: Mirror)
    requires 2 <= |d.stamps| && TriesAs(b, after, center, mode, d, picked, result, errors)
    ensures TriesAs(b, after.(mirror := mirror), center, mode, d, picked, result, errors)
  {
    hide PicksAs, ReportsAs, CompletesAs, RequeuesAs, HasRoom, Placed, TicketsNow;
  }

  lemma TriedInFields(
    b: Backend, center: int, mode: string, d: Draws, picked: seq<string>, result: Option<MatchResult>,
    errors: seq<Error>)
    requires StoreOk(b.store) && CapacityOk(b.rooms.info) && PLAYERS_PER_ROOM <= |d.stamps|
    requires
      var low, high := center - MATCH_DELTA, center + MATCH_DELTA;
      var after := PickAttempt(b, low, high, mode, d);
      && picked == (if d.pickFails then [] else PickFrom(b.store.pool, low, high, PLAYERS_PER_ROOM))
      && errors == PickErrors(b, low, high, mode, d)
      && (result.Some? <==> PickCompletes(b, low, high, mode, d))
      && (result.Some? ==> d.matchId in after.store.results && result.value == after.store.results[d.matchId])
    ensures
      TriesAs(b, PickAttempt(b, center - MATCH_DELTA, center + MATCH_DELTA, mode, d), center, mode, d, picked,
          result, errors)
  {
    hide StoreOk, CapacityOk, Attempted, AttemptErrors, Completes, PickFrom, PicksAs, ReportsAs, RecordsAs, GivesBackAs;
    if !d.pickFails {
      var low, high := center - MATCH_DELTA, center + MATCH_DELTA;
      PickInReach(b.store.pool, center);
      PickIsFromPool(b.store.pool, low, high, PLAYERS_PER_ROOM);
      SmallerPoolKeepsOk(b.store, Ids(picked));
      AttemptInFields(AfterPick(b, low, high), picked, mode, d);
      if picked == [] {
        PickedNobody(b, low, high, mode, d);
      }
    }
  }

  lemma ScoreInReach(score: real, mmr: int, center: int)
    requires Carries(score, mmr) && (center - 200) as real <= score <= (center + 200) as real
    ensures center - 200 <= mmr <= center + 199
  {
    assert mmr < center - 200 ==> (mmr + 1) as real <= (center - 200) as real;
    assert mmr > center + 199 ==> mmr as real >= (center + 200) as real;
  }

  /** A matched pick is a pair of players in reach who hold ticket keys. */
  lemma MatchedPickIsKeyed(b: Backend, after: Backend, center: int, mode: string, d: Draws, picked: seq<string>,
                           result: Option<MatchResult>, errors: seq<Error>)
    requires 2 <= |d.stamps| && result.Some? && TriesAs(b, after, center, mode, d, picked, result, errors)
    ensures result.value.players == picked && |picked| == 2
    ensures forall p | p in picked :: p in b.store.playerTicket && p in InReach(b.store.pool, center)
  {
    hide InReach, HasRoom, SameAsBefore, MatchedNow, TicketsNow, CompletionFails, Placed;
    var c := b.(store := b.store.(pool := b.store.pool - Ids(picked)));
    assert TwoKeyed(c.store, picked) && |picked| == 2;
    assert picked[0] in c.store.playerTicket && picked[1] in c.store.playerTicket;
    assert CompletesAs(c.store, after.store, picked, result.value, result.value,
                       TicketsNow(c.store, after.store, result.value.players));
  }

  /** A pair that is matched holds tickets rated within 200 of the centre, and so at most 399 apart. */
  lemma MatchedPairIsClose(b: Backend, after: Backend, center: int, mode: string, d: Draws, picked: seq<string>,
                           result: Option<MatchResult>, errors: seq<Error>)
    requires StoreOk(b.store) && 2 <= |d.stamps| && result.Some?
    requires TriesAs(b, after, center, mode, d, picked, result, errors)
    ensures result.value.players == picked && |picked| == 2
    ensures forall p | p in picked :: p in b.store.playerTicket && b.store.playerTicket[p] in b.store.tickets
    ensures
      var m, n := RatingOf(b.store, picked[0]), RatingOf(b.store, picked[1]);
      center - 200 <= m <= center + 199 && center - 200 <= n <= center + 199 && -399 <= m - n <= 399
  {
    MatchedPickIsKeyed(b, after, center, mode, d, picked, result, errors);
    hide TriesAs;
    assert picked[0] in picked && picked[1] in picked;
    forall p | p in picked
      ensures p in b.store.playerTicket && b.store.playerTicket[p] in b.store.tickets
              && center - 200 <= RatingOf(b.store, p) <= center + 199
    {
      KeyedInTable(b.store, p);
      ScoreInReach(b.store.pool[p], RatingOf(b.store, p), center);
    }
  }

  // ---------- a creation ----------

  /** The ticket that the request asks for. */
  function AskedTicket(q: TicketRequest, c: CreateDraws): Ticket {
    Ticket(c.ticketId, q.player, q.mmr, ModeAsked(q.mode), Queued, "", "", c.now, c.now,
           c.now + (if q.maxWait > 0 then q.maxWait else 30_000))
  }

  /** What happens on the way through a creation: the error of creating the ticket and the backend it leaves, and
      whom the attempt picks, what it finds and what it reports. */
  datatype Way = Way(
    error: Option<Error>, entered: Backend, picked: seq<string>, found: Option<MatchResult>, attempt: seq<Error>)

  /** The asked ticket is created, an attempt is made around its rating, and its errors are passed on unless one of
      them is that no server was found. */
  ghost predicate CreatesTicketAs(
    b: Backend, after: Backend, q: TicketRequest, c: CreateDraws, d: Draws, way: Way, errors: seq<Error>)
    requires 2 <= |d.stamps|
  {
    if q.player == "" then after == b && errors == [Invalid("player_id")]
    else
      && CreatesAs(b.store, way.entered.store, AskedTicket(q, c), c.stamp, c.fault, way.error)
      && way.entered.rooms == b.rooms
      && if way.error.Some? then
           after.store == way.entered.store && after.rooms == b.rooms && errors == [way.error.value]
         else
           && TriesAs(way.entered, after, q.mmr, q.mode, d, way.picked, way.found, way.attempt)
           && errors == if way.attempt != [] && NoAvailableRoomServer !in way.attempt then way.attempt
                        else if c.refreshFails then [RedisFailure]
                        else []
  }

  /** The same ticket, however far it has got. */
  predicate SameOrder(t: Ticket, u: Ticket) {
    u == t.(status := u.status, matchId := u.matchId, roomId := u.roomId, updatedAt := u.updatedAt)
  }

  /** The stored ticket is the one asked for, and while it is queued and in the pool its score is that of its rating. */
  ghost predicate StoredAsAsked(s: Store, q: TicketRequest, c: CreateDraws) {
    && c.ticketId in s.tickets
    && var t := s.tickets[c.ticketId];
       && t.id == c.ticketId && t.player == q.player && t.mmr == q.mmr
       && t.mode == (if q.mode == "" then "default" else q.mode) && t.createdAt == c.now
       && t.expiresAt == c.now + (if q.maxWait > 0 then q.maxWait else 30_000)
       && (q.player in s.playerTicket && s.playerTicket[q.player] == c.ticketId && q.player in s.pool ==>
             q.mmr as real < s.pool[q.player] < (q.mmr + 1) as real)
  }

  lemma AskedIsStored(s: Store, q: TicketRequest, c: CreateDraws)
    requires StoreOk(s) && c.ticketId in s.tickets && SameOrder(AskedTicket(q, c), s.tickets[c.ticketId])
    ensures StoredAsAsked(s, q, c)
  {
    hide KeysAgree, ExpiryAgrees, PoolStamped;
  }

  lemma CompletedKeepsOrders(s: Store, players: seq<string>, result: MatchResult, id: string)
    requires id in s.tickets
    ensures id in Completed(s, players, result).tickets
        && SameOrder(s.tickets[id], Completed(s, players, result).tickets[id])
  {
    hide StillQueued, TicketIds;
  }

  lemma AttemptKeepsOrders(b: Backend, players: seq<string>, mode: string, d: Draws, id: string)
    requires StoreOk(b.store) && CapacityOk(b.rooms.info) && |players| <= |d.stamps| && id in b.store.tickets
    ensures id in Attempted(b, players, mode, d).store.tickets
    ensures SameOrder(b.store.tickets[id], Attempted(b, players, mode, d).store.tickets[id])
  {
    if |players| >= 2 && Completes(b, players, mode, d) {
      CompletingAttempt(b, players, mode, d);
      hide Attempted, Completed, Completes, Placement, RoomsPlaced, StoreOk, CapacityOk;
      var pending := ResultOn(Placement(b, players, mode, d).value,
                              RoomsPlaced(b, players, mode, d).info[Placement(b, players, mode, d).value].addr, mode,
                                  d);
      CompletedKeepsOrders(b.store, players, pending, id);
    } else if |players| >= 2 {
      AttemptGivesBack(b, players, mode, d);
      hide Attempted, Completes, StoreOk, CapacityOk, Placed;
    }
  }

  lemma OpenedRooms(b: Backend, q: TicketRequest, c: CreateDraws)
    ensures Opened(b, q, c).rooms == b.rooms
  {
  }

  /** A ticket that has been put into the store is, after its match attempt, still the one that was asked for. */
  lemma OpenedStaysAsked(b: Backend, q: TicketRequest, c: CreateDraws, d: Draws)
    requires StoreOk(Opened(b, q, c).store) && CapacityOk(b.rooms.info) && PLAYERS_PER_ROOM <= |d.stamps|
    ensures
      var after := PickAttempt(Opened(b, q, c), q.mmr - MATCH_DELTA, q.mmr + MATCH_DELTA, q.mode, d);
      c.ticketId in after.store.tickets && SameOrder(AskedTicket(q, c), after.store.tickets[c.ticketId])
  {
    var entered := Opened(b, q, c);
    assert c.ticketId in entered.store.tickets && entered.store.tickets[c.ticketId] == AskedTicket(q, c);
    hide StoreOk, CapacityOk, Attempted, Opened, WithTicket;
    if !d.pickFails {
      var players := PickFrom(entered.store.pool, q.mmr - MATCH_DELTA, q.mmr + MATCH_DELTA, PLAYERS_PER_ROOM);
      PickIsFromPool(entered.store.pool, q.mmr - MATCH_DELTA, q.mmr + MATCH_DELTA, PLAYERS_PER_ROOM);
      SmallerPoolKeepsOk(entered.store, Ids(players));
      OpenedRooms(b, q, c);
      AttemptKeepsOrders(AfterPick(entered, q.mmr - MATCH_DELTA, q.mmr + MATCH_DELTA), players, q.mode, d, c.ticketId);
    }
  }
}
