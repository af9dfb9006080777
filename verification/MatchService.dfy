/** The match service: the calls that run the repositories in sequence and undo what a failed attempt did. */
module MatchServices {
  import opened ZSets
  import opened MatchStore
  import opened RoomRegistry
  import opened PickAndSweep
  import opened PlayerRepositories
  import opened RoomServerRepositories
  import opened Mirrors
  import opened ServiceSteps
  import opened ServiceAgreement
  import opened ServiceCalls
  import opened TicketEffects
  import opened ServiceEffects

  class MatchService {
    const playerRepo: PlayerRepository
    const roomServerRepo: RoomServerRepository
    const mysqlRepo: MySQLRepository

    function State(): Backend
      reads playerRepo, roomServerRepo, mysqlRepo
    {
      Backend(playerRepo.State(), roomServerRepo.State(), mysqlRepo.State())
    }

    ghost predicate Valid()
      reads playerRepo, roomServerRepo, mysqlRepo
    {
      playerRepo.Valid() && roomServerRepo.Valid() && mysqlRepo.Valid()
    }

    constructor (playerRepo: PlayerRepository, roomServerRepo: RoomServerRepository, mysqlRepo: MySQLRepository)
      requires playerRepo.Valid() && roomServerRepo.Valid() && mysqlRepo.Valid()
      ensures Valid()
      ensures this.playerRepo == playerRepo && this.roomServerRepo == roomServerRepo && this.mysqlRepo == mysqlRepo
    {
      this.playerRepo, this.roomServerRepo, this.mysqlRepo := playerRepo, roomServerRepo, mysqlRepo;
    }

    /** Puts the picked players back and reports whether that failed. */
    method Requeue(players: seq<string>, d: Draws) returns (errors: seq<Error>)
      requires Valid() && |players| <= |d.stamps|
      modifies playerRepo
      ensures Valid() && State() == PutBack(old(State()), players, d)
      ensures errors == OneIf(RequeueReach(d.requeueFault, |players|) < |players|)
    {
      var error := playerRepo.RequeueMatchTicketPlayers(players, d.stamps, d.requeueFault);
      return if error.Some? then [error.value] else [];
    }

    /** Mirrors tickets one by one. */
    method MirrorTickets(tickets: seq<Ticket>)
      requires mysqlRepo.Valid()
      modifies mysqlRepo
      ensures mysqlRepo.Valid() && mysqlRepo.State() == UpsertTickets(old(mysqlRepo.State()), tickets)
    {
      ghost var was := mysqlRepo.State();
      for i := 0 to |tickets|
        invariant mysqlRepo.Valid() && mysqlRepo.State() == UpsertTickets(was, tickets[..i])
      {
        assert tickets[..i + 1][..i] == tickets[..i];
        mysqlRepo.UpsertMatchTicket(tickets[i]);
      }
      assert tickets[..|tickets|] == tickets;
    }

    /** Gives the reserved slots back and puts the players back. */
    method Undo(assignment: RoomAssignment, players: seq<string>, d: Draws) returns (errors: seq<Error>)
      requires Valid() && |players| <= |d.stamps|
      requires assignment.serverId != "" && |assignment.players| == |players| > 0
      modifies playerRepo, roomServerRepo
      ensures Valid()
      ensures State() == PutBack(old(State()), players, d).(
        rooms := GivenBack(old(State()).rooms, players, assignment.mode, assignment.serverId, d))
      ensures errors == OneIf(d.releaseFails) + OneIf(RequeueReach(d.requeueFault, |players|) < |players|)
    {
      hide StoreOk, CapacityOk, Released;
      var released := roomServerRepo.ReleaseRoomServer(assignment, d.releasedAt, d.releaseFails);
      errors := Requeue(players, d);
      errors := OneIf(released.Some?) + errors;
    }

    /** Records a completed match: its room assignment, its result row and its ticket rows. */
    method Record(completed: MatchResult, tickets: seq<Ticket>, load: int, saveFails: bool)
      requires Valid() && completed.matchId != ""
      modifies roomServerRepo, mysqlRepo
      ensures Valid()
      ensures
        var b := old(State());
        State() == b.(
          rooms := if saveFails then b.rooms
                   else b.rooms.(
                     assignments := b.rooms.assignments[completed.matchId := SavedAssignment(completed, load)]),
          mirror := UpsertTickets(UpsertResult(b.mirror, completed), tickets))
    {
      hide StoreOk, CapacityOk;
      var _ := roomServerRepo.SaveRoomAssignment(SavedAssignment(completed, load), saveFails, false);
      mysqlRepo.UpsertMatchResult(completed);
      MirrorTickets(tickets);
    }

    /** Asks the room allocator for slots; a server that it finds is one that fits. */
    method Allocate(players: seq<string>, mode: string, d: Draws) returns (allocation: Result<RoomAssignment>)
      requires Valid() && |players| > 0
      modifies roomServerRepo
      ensures Valid()
      ensures State() == old(State()).(rooms := RoomsPlaced(old(State()), players, mode, d))
      ensures allocation.Ok? <==> Placement(old(State()), players, mode, d).Some?
      ensures allocation.Err? ==> State() == old(State())
      ensures allocation.Err? ==> allocation.error == if d.allocateFails then RedisFailure else NoAvailableRoomServer
      ensures allocation.Ok? ==>
        var sid := Placement(old(State()), players, mode, d).value;
        && sid != "" && sid in roomServerRepo.info && roomServerRepo.info[sid].id == sid
        && allocation.value == AssignmentTo(RequestFor(players, mode, d), roomServerRepo.info[sid], d.allocatedAt)
    {
      hide StoreOk, Choice, Stored;
      allocation := roomServerRepo.AllocateRoomServer(RequestFor(players, mode, d), d.allocatedAt, d.allocateFails);
    }

    /** With slots taken, completes the match and records it, or undoes everything. */
    method Finish(assignment: RoomAssignment, players: seq<string>, ghost mode: string, d: Draws)
      returns (result: Option<MatchResult>, errors: seq<Error>)
      requires Valid() && PLAYERS_PER_ROOM <= |players| <= |d.stamps| && d.matchId != ""
      requires assignment.serverId != "" && assignment.serverId in roomServerRepo.info
      requires assignment == AssignmentTo(RequestFor(players, mode, d), roomServerRepo.info[assignment.serverId],
          d.allocatedAt)
      modifies playerRepo, roomServerRepo, mysqlRepo
      ensures Valid() && State() == Finished(old(State()), players, mode, assignment.serverId, d)
      ensures result.Some? <==> Finishes(old(State()).store, players, d)
      ensures result.Some? ==>
        errors == [] && d.matchId in playerRepo.results && result.value == playerRepo.results[d.matchId]
      ensures result.None? ==>
        errors == OneIf(CompleteErrs(old(State()).store, players, d.completeFault)) + OneIf(d.releaseFails)
                  + OneIf(RequeueReach(d.requeueFault, |players|) < |players|)
    {
      hide StoreOk, CapacityOk, Completed, GivenBack, StillQueued, RequeuedPool, UpsertTickets, UpsertResult;
      var pending := MatchResult(assignment.matchId, assignment.roomId, assignment.serverId, assignment.serverAddr,
                                 assignment.mode, [], Matched, d.startedAt);
      var completion := playerRepo.CompleteMatch(players, pending, d.completeFault);
      if completion.Err? || completion.value.NoMatch? {
        errors := Undo(assignment, players, d);
        return None, OneIf(completion.Err?) + errors;
      }
      CompletedHasResult(old(playerRepo.State()), players, pending);
      var completed := completion.value.result;
      Record(completed, completion.value.tickets, assignment.load, d.saveFails);
      return Some(completed), [];
    }

    method MatchPlayers(players: seq<string>, mode: string, d: Draws)
      returns (result: Option<MatchResult>, errors: seq<Error>)
      requires Valid() && |players| <= |d.stamps| && d.matchId != "" && d.roomId != ""
      modifies playerRepo, roomServerRepo, mysqlRepo
      ensures Valid() && State() == Attempted(old(State()), players, mode, d)
      ensures errors == AttemptErrors(old(State()), players, mode, d)
      ensures result.Some? <==> Completes(old(State()), players, mode, d)
      ensures result.Some? ==> d.matchId in playerRepo.results && result.value == playerRepo.results[d.matchId]
    {
      hide StoreOk, CapacityOk, Choice, Allocated, PutBack, Finished, Finishes, CompleteErrs;
      if |players| < PLAYERS_PER_ROOM {
        return None, [];
      }
      var matchMode := if mode == "" then DEFAULT_MODE else mode;
      var allocation := Allocate(players, matchMode, d);
      if allocation.Err? {
        errors := Requeue(players, d);
        return None, [allocation.error] + errors;
      }
      result, errors := Finish(allocation.value, players, mode, d);
    }

    method CompletePickedPlayers(players: seq<string>, mode: string, d: Draws)
      returns (result: Option<MatchResult>, errors: seq<Error>)
      requires Valid() && |players| <= |d.stamps| && d.matchId != "" && d.roomId != ""
      modifies playerRepo, roomServerRepo, mysqlRepo
      ensures Valid() && State() == Attempted(old(State()), players, mode, d)
      ensures errors == AttemptErrors(old(State()), players, mode, d)
      ensures result.Some? <==> Completes(old(State()), players, mode, d)
      ensures result.Some? ==> d.matchId in playerRepo.results && result.value == playerRepo.results[d.matchId]
      ensures ReportsAs(old(State()), players, mode, d, result.Some?, errors)
      ensures IndexAgrees(old(State()).rooms) && |players| >= 2 && !d.allocateFails ==>
        (NoAvailableRoomServer in errors <==>
           forall sid | sid in old(roomServerRepo.info) ::
             var g := old(roomServerRepo.info)[sid];
             !(g.mode == (if mode == "" then "default" else mode) && g.status == "active" && 0 < g.lastHeartbeatAt
               && d.allocatedAt - g.lastHeartbeatAt <= 30_000 && g.load + |players| <= g.capacity))
      ensures |players| < 2 ==> State() == old(State())
      ensures |players| >= 2 && result.Some? ==> RecordsAs(old(State()), State(), players, mode, d)
      ensures |players| >= 2 && result.None? ==> GivesBackAs(old(State()), State(), players, mode, d)
    {
      AttemptInFields(State(), players, mode, d);
      hide StoreOk, CapacityOk, IndexAgrees, Attempted, AttemptErrors, Completes, ReportsAs, RecordsAs, GivesBackAs;
      result, errors := MatchPlayers(players, mode, d);
    }

    method TryCompleteMatch(center: int, mode: string, d: Draws)
      returns (result: Option<MatchResult>, errors: seq<Error>, ghost picked: seq<string>)
      requires Valid() && PLAYERS_PER_ROOM <= |d.stamps| && d.matchId != "" && d.roomId != ""
      modifies playerRepo, roomServerRepo, mysqlRepo
      ensures Valid() && State() == PickAttempt(old(State()), center - MATCH_DELTA, center + MATCH_DELTA, mode, d)
      ensures errors == PickErrors(old(State()), center - MATCH_DELTA, center + MATCH_DELTA, mode, d)
      ensures result.Some? <==> PickCompletes(old(State()), center - MATCH_DELTA, center + MATCH_DELTA, mode, d)
      ensures result.Some? ==> d.matchId in playerRepo.results && result.value == playerRepo.results[d.matchId]
      ensures TriesAs(old(State()), State(), center, mode, d, picked, result, errors)
      ensures result.Some? ==>
        && result.value.players == picked && |picked| == 2
        && (forall p | p in picked ::
            p in old(playerRepo.playerTicket) && old(playerRepo.playerTicket)[p] in old(playerRepo.tickets))
        && var m := old(playerRepo.tickets)[old(playerRepo.playerTicket)[picked[0]]].mmr;
           var n := old(playerRepo.tickets)[old(playerRepo.playerTicket)[picked[1]]].mmr;
           center - 200 <= m <= center + 199 && center - 200 <= n <= center + 199 && -399 <= m - n <= 399
    {
      hide StoreOk, CapacityOk, Attempted, AttemptErrors, Completes, PickFrom, ReportsAs, RecordsAs,
          GivesBackAs, TriesAs;
      ghost var b := State();
      picked := [];
      var found := playerRepo.SearchAndPickTicketPlayers(
        center - MATCH_DELTA, center + MATCH_DELTA, PLAYERS_PER_ROOM, d.pickFails);
      if found.Err? {
        TriedInFields(b, center, mode, d, [], None, [found.error]);
        return None, [found.error], [];
      }
      picked := found.value;
      PickIsFromPool(b.store.pool, center - MATCH_DELTA, center + MATCH_DELTA, PLAYERS_PER_ROOM);
      result, errors := CompletePickedPlayers(found.value, mode, d);
      TriedInFields(b, center, mode, d, picked, result, errors);
      if result.Some? {
        MatchedPairIsClose(b, State(), center, mode, d, picked, result, errors);
      }
    }

    method CreateTicket(q: TicketRequest, c: CreateDraws, d: Draws)
      returns (ticket: Option<Ticket>, errors: seq<Error>, ghost way: Way)
      requires Valid() && PLAYERS_PER_ROOM <= |d.stamps| && d.matchId != "" && d.roomId != ""
      requires c.ticketId != "" && c.ticketId !in playerRepo.tickets
      modifies playerRepo, roomServerRepo, mysqlRepo
      ensures Valid() && State() == CreateOn(old(State()), q, c, d)
      ensures errors == CreateErrors(old(State()), q, c, d)
      ensures ticket.Some? <==> errors == []
      ensures ticket.Some? ==> c.ticketId in playerRepo.tickets && ticket.value == playerRepo.tickets[c.ticketId]
      ensures CreatesTicketAs(old(State()), State(), q, c, d, way, errors)
      ensures ticket.Some? ==> StoredAsAsked(playerRepo.State(), q, c)
    {
      hide StoreOk, CapacityOk, PickAttempt, PickErrors, PickCompletes, WithTicket, UpsertTicket, TriesAs, CreatesAs,
        StoredAsAsked, SameOrder;
      way := Way(None, State(), [], None, []);
      if q.player == "" {
        return None, [Invalid("player_id")], way;
      }
      var created := NewTicket(q, c.ticketId, c.now);
      ghost var was := State();
      var error := playerRepo.CreateMatchTicket(created, c.stamp, c.fault);
      way := way.(error := error, entered := State());
      if error.Some? {
        return None, [error.value], way;
      }
      mysqlRepo.UpsertMatchTicket(created);
      assert State() == Opened(old(State()), q, c);
      way := way.(entered := State());
      OpenedThenAttempted(old(State()), q, c, d);
      var found, attempt, picked := TryCompleteMatch(q.mmr, q.mode, d);
      way := way.(picked := picked, found := found, attempt := attempt);
      if attempt != [] && NoAvailableRoomServer !in attempt {
        return None, attempt, way;
      }
      if c.refreshFails {
        return None, [RedisFailure], way;
      }
      var latest := playerRepo.GetMatchTicket(c.ticketId);
      OpenedStaysAsked(was, q, c, d);
      ghost var tried := State();
      mysqlRepo.UpsertMatchTicket(latest.value);
      TriesBesideMirror(way.entered, tried, q.mmr, q.mode, d, picked, found, attempt, mysqlRepo.State());
      AskedIsStored(playerRepo.State(), q, c);
      return latest, [], way;
    }

    method CancelTicket(ticketId: string, now: int, fails: bool) returns (r: Result<Ticket>)
      requires Valid()
      modifies playerRepo, mysqlRepo
      ensures Valid()
      ensures State() == if ticketId == "" then old(State()) else CancelOn(old(State()), ticketId, now, fails)
      ensures r.Ok? ==> ticketId in playerRepo.tickets && r.value == playerRepo.tickets[ticketId]
      ensures r.Ok? <==> ticketId != "" && !fails && IsQueued(old(State()).store, ticketId)
      ensures r.Err? ==>
        r.error == (if ticketId == "" || (!fails && ticketId !in old(playerRepo.tickets)) then TicketNotFound
                    else if fails then RedisFailure else TicketNotQueued)
      ensures r.Ok? ==>
        && r.value == old(playerRepo.tickets)[ticketId].(status := Cancelled, updatedAt := now)
        && ticketId in mysqlRepo.tickets
            && mysqlRepo.tickets[ticketId] == r.value.(createdAt := mysqlRepo.tickets[ticketId].createdAt)
    {
      if ticketId == "" {
        return Err(TicketNotFound);
      }
      r := playerRepo.CancelMatchTicket(ticketId, now, fails);
      if r.Ok? {
        mysqlRepo.UpsertMatchTicket(r.value);
      }
    }

    method TimeoutExpiredTickets(now: int, limit: int, fault: Fault) returns (r: Result<seq<Ticket>>)
      requires Valid()
      modifies playerRepo, mysqlRepo
      ensures Valid() && State() == SweepOn(old(State()), now, limit, fault)
      ensures r.Err? <==> SweepErrs(fault, |SweepIds(old(State()).store, now, limit)|)
      ensures r.Ok? ==>
        var ids := SweepIds(old(State()).store, now, limit);
        (forall i | 0 <= i < |ids| :: ids[i] in playerRepo.tickets) && r.value == TicketsAt(playerRepo.State(), ids)
      ensures r.Ok? ==> SweepsAs(old(playerRepo.State()), playerRepo.State(), now, limit, r.value)
    {
      hide StoreOk, CapacityOk, Swept, SweepIds, SweepsAs;
      SweepTakesFirstDue(playerRepo.State(), now, limit);
      ghost var ids := SweepIds(playerRepo.State(), now, limit);
      r := playerRepo.TimeoutExpiredMatchTickets(now, limit, fault);
      if r.Ok? {
        assert ids[..|ids|] == ids;
        assert r.value == TicketsAt(playerRepo.State(), ids);
        MirrorTickets(r.value);
      }
    }
  }
}
