/** The calls of the match service, each as one step, and runs of them. */
module ServiceCalls {
  import opened ZSets
  import opened MatchStore
  import opened RoomRegistry
  import opened PickAndSweep
  import opened Mirrors
  import opened ServiceSteps
  import opened ServiceAgreement

  datatype TicketRequest = TicketRequest(player: string, mmr: int, mode: string, maxWait: int)

  function NewTicket(q: TicketRequest, id: string, now: int): Ticket {
    Ticket(id, q.player, q.mmr, OrElse(q.mode, DEFAULT_MODE), Queued, "", "", now, now,
           now + if q.maxWait <= 0 then DEFAULT_MAX_WAIT else q.maxWait)
  }

  /** What a creation draws from outside besides its match attempt. */
  datatype CreateDraws = CreateDraws(ticketId: string, now: int, stamp: Stamp, fault: CreateFault, refreshFails: bool)

  // ---------- what the caller of an attempt is told ----------

  function OneIf(failed: bool): seq<Error> {
    if failed then [RedisFailure] else []
  }

  function AttemptErrors(b: Backend, players: seq<string>, mode: string, d: Draws): seq<Error> {
    var requeue := OneIf(RequeueReach(d.requeueFault, |players|) < |players|);
    if |players| < PLAYERS_PER_ROOM || Completes(b, players, mode, d) then []
    else if Placement(b, players, mode, d).None? then
      [if d.allocateFails then RedisFailure else NoAvailableRoomServer] + requeue
    else OneIf(CompleteErrs(b.store, players, d.completeFault)) + OneIf(d.releaseFails) + requeue
  }

  function PickErrors(b: Backend, minScore: int, maxScore: int, mode: string, d: Draws): seq<Error> {
    if d.pickFails then [RedisFailure]
    else AttemptErrors(AfterPick(b, minScore, maxScore),
        PickFrom(b.store.pool, minScore, maxScore, PLAYERS_PER_ROOM), mode, d)
  }

  predicate PickCompletes(b: Backend, minScore: int, maxScore: int, mode: string, d: Draws) {
    && !d.pickFails
    && Completes(AfterPick(b, minScore, maxScore),
        PickFrom(b.store.pool, minScore, maxScore, PLAYERS_PER_ROOM), mode, d)
  }

  /** CreateTicket goes on after an attempt that found no room server, and gives up after any other error. */
  predicate GoesOn(errors: seq<Error>) {
    errors == [] || NoAvailableRoomServer in errors
  }

  // ---------- the calls ----------

  function Opened(b: Backend, q: TicketRequest, c: CreateDraws): Backend {
    var t := NewTicket(q, c.ticketId, c.now);
    Backend(WithTicket(b.store, t, c.stamp), b.rooms, UpsertTicket(b.mirror, t))
  }

  lemma PutBackKeepsTickets(b: Backend, players: seq<string>, d: Draws)
    requires |players| <= |d.stamps|
    ensures PutBack(b, players, d).store.tickets.Keys == b.store.tickets.Keys
  {
  }

  lemma FinishedKeepsTickets(b: Backend, players: seq<string>, mode: string, sid: string, d: Draws)
    requires StoreOk(b.store) && CapacityOk(b.rooms.info) && |players| <= |d.stamps| && sid in b.rooms.info
    ensures Finished(b, players, mode, sid, d).store.tickets.Keys == b.store.tickets.Keys
  {
    hide StoreOk, CapacityOk, GivenBack, UpsertTickets, RequeuedPool, Finishes;
  }

  lemma AttemptedKeepsTickets(b: Backend, players: seq<string>, mode: string, d: Draws)
    requires StoreOk(b.store) && CapacityOk(b.rooms.info) && |players| <= |d.stamps|
    ensures Attempted(b, players, mode, d).store.tickets.Keys == b.store.tickets.Keys
  {
    hide StoreOk, CapacityOk, RoomsPlaced, Finished, PutBack, Finishes, Choice;
    var placement := Placement(b, players, mode, d);
    if placement.None? {
      assert PutBack(b, players, d).store.tickets.Keys == b.store.tickets.Keys by {
        PutBackKeepsTickets(b, players, d);
      }
    } else {
      RoomsPlacedOk(b, players, mode, d);
      FinishedKeepsTickets(b.(rooms := RoomsPlaced(b, players, mode, d)), players, mode, placement.value, d);
    }
  }

  /** An attempt, whatever becomes of it, leaves every ticket in the table. */
  lemma AttemptKeepsTickets(b: Backend, minScore: int, maxScore: int, mode: string, d: Draws)
    requires StoreOk(b.store) && CapacityOk(b.rooms.info) && PLAYERS_PER_ROOM <= |d.stamps|
    ensures PickAttempt(b, minScore, maxScore, mode, d).store.tickets.Keys == b.store.tickets.Keys
  {
    hide StoreOk, CapacityOk, Attempted;
    if !d.pickFails {
      var players := PickFrom(b.store.pool, minScore, maxScore, PLAYERS_PER_ROOM);
      PickIsFromPool(b.store.pool, minScore, maxScore, PLAYERS_PER_ROOM);
      SmallerPoolKeepsOk(b.store, Ids(players));
      AttemptedKeepsTickets(AfterPick(b, minScore, maxScore), players, mode, d);
    }
  }

  /** A ticket put into the store is still there after its match attempt. */
  lemma OpenedThenAttempted(b: Backend, q: TicketRequest, c: CreateDraws, d: Draws)
    requires StoreOk(b.store) && CapacityOk(b.rooms.info) && PLAYERS_PER_ROOM <= |d.stamps|
        && StoreOk(Opened(b, q, c).store)
    ensures c.ticketId in PickAttempt(Opened(b, q, c), q.mmr - MATCH_DELTA, q.mmr + MATCH_DELTA, q.mode,
        d).store.tickets
  {
    hide StoreOk, CapacityOk, PickAttempt;
    AttemptKeepsTickets(Opened(b, q, c), q.mmr - MATCH_DELTA, q.mmr + MATCH_DELTA, q.mode, d);
  }

  function CreateOn(b: Backend, q: TicketRequest, c: CreateDraws, d: Draws): Backend
    requires StoreOk(b.store) && CapacityOk(b.rooms.info) && PLAYERS_PER_ROOM <= |d.stamps|
    requires c.ticketId !in b.store.tickets
  {
    var t := NewTicket(q, c.ticketId, c.now);
    if q.player == "" then b
    else if !CreateSucceeds(b.store, t, c.fault) then b.(store := Created(b.store, t, c.stamp, c.fault))
    else
      WithTicketKeepsOk(b.store, t, c.stamp);
      var entered := Opened(b, q, c);
      var r := PickAttempt(entered, q.mmr - MATCH_DELTA, q.mmr + MATCH_DELTA, q.mode, d);
      if !GoesOn(PickErrors(entered, q.mmr - MATCH_DELTA, q.mmr + MATCH_DELTA, q.mode, d)) || c.refreshFails then r
      else
        OpenedThenAttempted(b, q, c, d);
        r.(mirror := UpsertTicket(r.mirror, r.store.tickets[c.ticketId]))
  }

  function CancelOn(b: Backend, id: string, now: int, fails: bool): Backend {
    if fails || !IsQueued(b.store, id) then b
    else
      var store := Closed(b.store, {id}, Cancelled, now);
      Backend(store, b.rooms, UpsertTicket(b.mirror, store.tickets[id]))
  }

  function TicketsAt(s: Store, ids: seq<string>): seq<Ticket>
    requires forall i | 0 <= i < |ids| :: ids[i] in s.tickets
  {
    seq(|ids|, (i: nat) requires i < |ids| => s.tickets[ids[i]])
  }

  function SweepOn(b: Backend, now: int, limit: int, fault: Fault): Backend
    requires StoreOk(b.store)
  {
    var ids := SweepIds(b.store, now, limit);
    SweepTakesFirstDue(b.store, now, limit);
    var store := Swept(b.store, ids[..SweepReach(fault, |ids|)], now);
    Backend(store, b.rooms, if SweepErrs(fault, |ids|) then b.mirror
        else UpsertTickets(b.mirror, TicketsAt(store, ids)))
  }

  function RegisterOn(b: Backend, server: GameServer, now: int, fault: WriteFault): Backend {
    var g := Normalize(server, now);
    if g.Ok? then b.(rooms := Written(b.rooms, g.value, true, fault)) else b
  }

  function BeatOn(b: Backend, sid: string, h: Heartbeat, now: int, fault: WriteFault): Backend
    requires CapacityOk(b.rooms.info)
  {
    if sid !in b.rooms.info then b
    else
      var g := Beaten(b.rooms.info[sid], h, now);
      if g.Ok? then b.(rooms := Written(b.rooms, g.value, false, fault)) else b
  }

  /** What CreateTicket reports, if anything: its own checks, then the creation, then the attempt, then the reread. */
  function CreateErrors(b: Backend, q: TicketRequest, c: CreateDraws, d: Draws): seq<Error> {
    var error := CreateError(b.store, NewTicket(q, c.ticketId, c.now), c.fault);
    var attempt := PickErrors(Opened(b, q, c), q.mmr - MATCH_DELTA, q.mmr + MATCH_DELTA, q.mode, d);
    if q.player == "" then [Invalid("player_id")]
    else if error.Some? then [error.value]
    else if !GoesOn(attempt) then attempt
    else OneIf(c.refreshFails)
  }

  // ---------- agreement after each call ----------

  lemma OpenedAgrees(b: Backend, q: TicketRequest, c: CreateDraws)
    requires Agreed(b) && c.ticketId !in b.store.tickets && q.player !in b.store.playerTicket
    ensures Agreed(Opened(b, q, c))
  {
    hide StoreOk, IndexedRight, Composite;
    WithTicketKeepsOk(b.store, NewTicket(q, c.ticketId, c.now), c.stamp);
  }

  lemma PickAttemptKeepsMirror(b: Backend, minScore: int, maxScore: int, mode: string, d: Draws)
    requires StoreOk(b.store) && CapacityOk(b.rooms.info) && MirrorAgrees(b)
    requires PLAYERS_PER_ROOM <= |d.stamps| && d.matchId !in b.store.results
    ensures MirrorAgrees(PickAttempt(b, minScore, maxScore, mode, d))
        && StoreOk(PickAttempt(b, minScore, maxScore, mode, d).store)
  {
    hide StoreOk, CapacityOk, Attempted;
    if !d.pickFails {
      var players := PickFrom(b.store.pool, minScore, maxScore, PLAYERS_PER_ROOM);
      PickIsFromPool(b.store.pool, minScore, maxScore, PLAYERS_PER_ROOM);
      SmallerPoolKeepsOk(b.store, Ids(players));
      AttemptKeepsMirror(AfterPick(b, minScore, maxScore), players, mode, d);
      AttemptKeepsStoreOk(AfterPick(b, minScore, maxScore), players, mode, d);
    }
  }

  lemma RefreshChangesNothing(b: Backend, id: string)
    requires MirrorAgrees(b) && StoreOk(b.store)
    ensures id in b.store.tickets ==> UpsertTicket(b.mirror, b.store.tickets[id]) == b.mirror
  {
    if id in b.store.tickets {
      assert b.mirror.tickets[id := b.store.tickets[id]] == b.mirror.tickets;
    }
  }

  lemma CreateKeepsExactlyWhen(b: Backend, q: TicketRequest, c: CreateDraws, d: Draws)
    requires Agreed(b) && PLAYERS_PER_ROOM <= |d.stamps| && c.ticketId !in b.store.tickets
        && d.matchId !in b.store.results
    ensures Agreed(CreateOn(b, q, c, d)) <==>
      q.player == "" || !CreateSucceeds(b.store, NewTicket(q, c.ticketId, c.now), c.fault)
      || !Strands(Opened(b, q, c), q.mmr - MATCH_DELTA, q.mmr + MATCH_DELTA, q.mode, d)
  {
    hide StoreOk, IndexedRight, PickAttempt, Strands, PickErrors;
    var t := NewTicket(q, c.ticketId, c.now);
    if q.player != "" {
      if !CreateSucceeds(b.store, t, c.fault) {
        CreateRollsBack(b.store, t, c.stamp, c.fault);
      } else {
        OpenedAgrees(b, q, c);
        WithTicketKeepsOk(b.store, t, c.stamp);
        var entered := Opened(b, q, c);
        var r := PickAttempt(entered, q.mmr - MATCH_DELTA, q.mmr + MATCH_DELTA, q.mode, d);
        PickAttemptKeepsExactlyWhen(entered, q.mmr - MATCH_DELTA, q.mmr + MATCH_DELTA, q.mode, d);
        PickAttemptKeepsMirror(entered, q.mmr - MATCH_DELTA, q.mmr + MATCH_DELTA, q.mode, d);
        OpenedThenAttempted(b, q, c, d);
        RefreshChangesNothing(r, c.ticketId);
      }
    }
  }

  lemma ClosedRow(s: Store, id: string, now: int)
    requires KeysAgree(s) && id in s.tickets
    ensures
      var r := Closed(s, {id}, Cancelled, now);
      UpsertTicket(Mirror(s.tickets, s.results), r.tickets[id]) == Mirror(r.tickets, r.results)
  {
  }

  lemma CancelKeeps(b: Backend, id: string, now: int, fails: bool)
    requires Agreed(b)
    ensures Agreed(CancelOn(b, id, now, fails))
  {
    if !fails && IsQueued(b.store, id) {
      ClosedKeepsAgreement(b.store, {id}, Cancelled, now, {});
      ClosedRow(b.store, id, now);
    }
  }

  lemma SweptRows(s: Store, ids: seq<string>, now: int)
    requires KeysAgree(s) && forall id | id in ids :: IsQueued(s, id)
    ensures
      var r := Swept(s, ids, now);
      && (forall i | 0 <= i < |ids| :: ids[i] in r.tickets)
      && UpsertTickets(Mirror(s.tickets, s.results), TicketsAt(r, ids)) == Mirror(r.tickets, r.results)
  {
    var r := Swept(s, ids, now);
    assert forall i | 0 <= i < |ids| :: ids[i] in ids;
    var tickets := TicketsAt(r, ids);
    forall id | id in r.tickets && s.tickets[id] != r.tickets[id] ensures r.tickets[id] in tickets {
      var i :| 0 <= i < |ids| && ids[i] == id;
      assert tickets[i] == r.tickets[id];
    }
    UpsertedMirror(Mirror(s.tickets, s.results), tickets, r.tickets);
  }

  /** The sweep keeps the store in agreement whatever fails; an error after the first timed-out ticket, which
      makes it return before it mirrors any, leaves the mirror behind. */
  lemma SweepKeepsExactlyWhen(b: Backend, now: int, limit: int, fault: Fault)
    requires Agreed(b)
    ensures
      var n := |SweepIds(b.store, now, limit)|;
      && Agrees(SweepOn(b, now, limit, fault).store)
      && (Agreed(SweepOn(b, now, limit, fault)) <==> !SweepErrs(fault, n) || SweepReach(fault, n) == 0)
  {
    hide IndexedRight, SweepIds;
    var ids := SweepIds(b.store, now, limit);
    SweepTakesFirstDue(b.store, now, limit);
    var reached := ids[..SweepReach(fault, |ids|)];
    assert forall id | id in reached :: id in ids;
    ClosedKeepsAgreement(b.store, Ids(reached), TimedOut, now, {});
    var r := SweepOn(b, now, limit, fault);
    if !SweepErrs(fault, |ids|) {
      assert reached == ids;
      SweptRows(b.store, ids, now);
    } else if reached == [] {
      assert r.store.tickets == b.store.tickets;
    } else {
      assert reached[0] in Ids(reached) && r.store.tickets[reached[0]].status == TimedOut;
      assert r.mirror.tickets[reached[0]].status == Queued;
    }
  }

  // ---------- runs of calls ----------

  datatype Call =
    | CreateCall(q: TicketRequest, c: CreateDraws, d: Draws)
    | CancelCall(id: string, now: int, fails: bool)
    | SweepCall(now: int, limit: int, fault: Fault)
    | ScanCall(minScore: int, maxScore: int, mode: string, d: Draws)
    | RegisterCall(server: GameServer, now: int, writeFault: WriteFault)
    | BeatCall(sid: string, heartbeat: Heartbeat, now: int, writeFault: WriteFault)

  predicate FreshDraws(b: Backend, d: Draws) {
    PLAYERS_PER_ROOM <= |d.stamps| && d.matchId !in b.store.results
  }

  predicate Fresh(b: Backend, call: Call) {
    match call
    case CreateCall(q, c, d) => c.ticketId !in b.store.tickets && FreshDraws(b, d)
    case ScanCall(_, _, _, d) => FreshDraws(b, d)
    case _ => true
  }

  function Served(b: Backend, call: Call): Backend
    requires StoreOk(b.store) && CapacityOk(b.rooms.info) && Fresh(b, call)
  {
    match call
    case CreateCall(q, c, d) => CreateOn(b, q, c, d)
    case CancelCall(id, now, fails) => CancelOn(b, id, now, fails)
    case SweepCall(now, limit, fault) => SweepOn(b, now, limit, fault)
    case ScanCall(minScore, maxScore, mode, d) => PickAttempt(b, minScore, maxScore, mode, d)
    case RegisterCall(server, now, fault) => RegisterOn(b, server, now, fault)
    case BeatCall(sid, h, now, fault) => BeatOn(b, sid, h, now, fault)
  }

  /** Nothing fails at one of the three places: a requeue, a sweep past its first ticket, the write of a server
      between its hash and its index entry. */
  predicate Harmless(b: Backend, call: Call)
    requires CapacityOk(b.rooms.info)
  {
    match call
    case CreateCall(q, c, d) =>
      q.player == "" || !CreateSucceeds(b.store, NewTicket(q, c.ticketId, c.now), c.fault)
      || !Strands(Opened(b, q, c), q.mmr - MATCH_DELTA, q.mmr + MATCH_DELTA, q.mode, d)
    case CancelCall(_, _, _) => true
    case SweepCall(now, limit, fault) =>
      var n := |SweepIds(b.store, now, limit)|;
      !SweepErrs(fault, n) || SweepReach(fault, n) == 0
    case ScanCall(minScore, maxScore, mode, d) => !Strands(b, minScore, maxScore, mode, d)
    case RegisterCall(server, now, fault) =>
      var g := Normalize(server, now);
      g.Ok? ==> !TearsIndex(b.rooms, g.value, true, fault)
    case BeatCall(sid, h, now, fault) =>
      sid in b.rooms.info && Beaten(b.rooms.info[sid], h, now).Ok? ==>
        !TearsIndex(b.rooms, Beaten(b.rooms.info[sid], h, now).value, false, fault)
  }

  /** After a service call the pool, the expiry index and the player keys are exactly those of the queued
      tickets, the load index is exact, and every mirror row equals its Redis record; unless a call failed at
      one of the three places, and then they are not. */
  lemma CallKeepsAgreementExactlyWhen(b: Backend, call: Call)
    requires Agreed(b) && Fresh(b, call)
    ensures Agreed(Served(b, call)) <==> Harmless(b, call)
  {
    hide StoreOk, IndexedRight, CreateOn, SweepOn, CancelOn, PickAttempt, Strands, Written, SweepIds;
    match call
    case CreateCall(q, c, d) => CreateKeepsExactlyWhen(b, q, c, d);
    case CancelCall(id, now, fails) => CancelKeeps(b, id, now, fails);
    case SweepCall(now, limit, fault) => SweepKeepsExactlyWhen(b, now, limit, fault);
    case ScanCall(minScore, maxScore, mode, d) => PickAttemptKeepsExactlyWhen(b, minScore, maxScore, mode, d);
    case RegisterCall(server, now, fault) =>
      var g := Normalize(server, now);
      if g.Ok? {
        WrittenKeepsIndexExactlyWhen(b.rooms, g.value, true, fault);
      }
    case BeatCall(sid, h, now, fault) =>
      if sid in b.rooms.info && Beaten(b.rooms.info[sid], h, now).Ok? {
        WrittenKeepsIndexExactlyWhen(b.rooms, Beaten(b.rooms.info[sid], h, now).value, false, fault);
      }
  }

  /** A run of calls, none of which fails at one of the three places. */
  ghost predicate HarmlessRun(b: Backend, calls: seq<Call>)
    requires Agreed(b)
    decreases |calls|
  {
    calls != [] ==>
      && Fresh(b, calls[0]) && Harmless(b, calls[0])
      && (CallKeepsAgreementExactlyWhen(b, calls[0]); HarmlessRun(Served(b, calls[0]), calls[1..]))
  }

  ghost function AfterCalls(b: Backend, calls: seq<Call>): Backend
    requires Agreed(b) && HarmlessRun(b, calls)
    decreases |calls|
  {
    if calls == [] then b
    else
      CallKeepsAgreementExactlyWhen(b, calls[0]);
      AfterCalls(Served(b, calls[0]), calls[1..])
  }

  lemma {:induction false} HarmlessRunsAgree(b: Backend, calls: seq<Call>)
    requires Agreed(b) && HarmlessRun(b, calls)
    ensures Agreed(AfterCalls(b, calls))
    decreases |calls|
  {
    if calls != [] {
      hide Served, Agreed, Harmless;
      CallKeepsAgreementExactlyWhen(b, calls[0]);
      HarmlessRunsAgree(Served(b, calls[0]), calls[1..]);
    }
  }
}
