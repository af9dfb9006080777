/** The match service on values: each service call as one step over the store, the room registry and the
    MySQL mirror, and what such steps keep in agreement. */
module ServiceSteps {
  import opened ZSets
  import opened MatchStore
  import opened RoomRegistry
  import opened PickAndSweep
  import opened Mirrors

  const MATCH_DELTA := 200
  const DEFAULT_MAX_WAIT := 30_000

  datatype Backend = Backend(store: Store, rooms: Registry, mirror: Mirror)

  /** What one match attempt draws from outside: its new identifiers, its clock readings, and the Redis calls
      that fail in it. */
  datatype Draws = Draws(
    matchId: string, roomId: string, pickFails: bool, startedAt: int,
    allocatedAt: int, allocateFails: bool, completeFault: Fault,
    releasedAt: int, releaseFails: bool, saveFails: bool, stamps: seq<Stamp>, requeueFault: Fault)

  ghost predicate MirrorAgrees(b: Backend) {
    b.mirror == Mirror(b.store.tickets, b.store.results)
  }

  /** Stored facts agree everywhere: the four places of the ticket store, the load index, and the mirror. */
  ghost predicate Agreed(b: Backend) {
    Agrees(b.store) && IndexAgrees(b.rooms) && MirrorAgrees(b)
  }

  // ---------- one match attempt ----------

  function RequestFor(players: seq<string>, mode: string, d: Draws): Request {
    Request(d.matchId, d.roomId, OrElse(mode, DEFAULT_MODE), players, DEFAULT_HEARTBEAT_AGE, 0)
  }

  /** The server the attempt is placed on, if the allocation works and finds one. */
  function Placement(b: Backend, players: seq<string>, mode: string, d: Draws): Option<string> {
    if d.allocateFails then None
    else Choice(b.rooms, OrElse(mode, DEFAULT_MODE), d.allocatedAt, DEFAULT_HEARTBEAT_AGE, |players|)
  }

  function RoomsPlaced(b: Backend, players: seq<string>, mode: string, d: Draws): Registry
    requires CapacityOk(b.rooms.info)
  {
    if d.allocateFails then b.rooms
    else Allocated(b.rooms, OrElse(mode, DEFAULT_MODE), d.allocatedAt, DEFAULT_HEARTBEAT_AGE, |players|)
  }

  predicate Finishes(s: Store, players: seq<string>, d: Draws) {
    !CompleteErrs(s, players, d.completeFault) && |StillQueued(s, players)| >= 2
  }

  predicate Completes(b: Backend, players: seq<string>, mode: string, d: Draws) {
    |players| >= PLAYERS_PER_ROOM && Placement(b, players, mode, d).Some? && Finishes(b.store, players, d)
  }

  function ResultOn(sid: string, addr: string, mode: string, d: Draws): MatchResult {
    MatchResult(d.matchId, d.roomId, sid, addr, OrElse(mode, DEFAULT_MODE), [], Matched, d.startedAt)
  }

  function SavedAssignment(result: MatchResult, load: int): RoomAssignment {
    RoomAssignment(result.matchId, result.roomId, result.serverId, result.serverAddr, result.mode, result.players,
                   "assigned", load, result.createdAt)
  }

  function PutBack(b: Backend, players: seq<string>, d: Draws): Backend
    requires |players| <= |d.stamps|
  {
    b.(store := Requeued(b.store, players, d.stamps, RequeueReach(d.requeueFault, |players|)))
  }

  function GivenBack(rooms: Registry, players: seq<string>, mode: string, sid: string, d: Draws): Registry
    requires CapacityOk(rooms.info)
  {
    if d.releaseFails then rooms else Released(rooms, sid, OrElse(mode, DEFAULT_MODE), |players|, d.releasedAt)
  }

  lemma RoomsPlacedOk(b: Backend, players: seq<string>, mode: string, d: Draws)
    requires CapacityOk(b.rooms.info)
    ensures CapacityOk(RoomsPlaced(b, players, mode, d).info)
    ensures RoomsPlaced(b, players, mode, d).info.Keys == b.rooms.info.Keys
    ensures
      var sid := Placement(b, players, mode, d);
      sid.Some? ==>
        && Fits(b.rooms, sid.value, OrElse(mode, DEFAULT_MODE), d.allocatedAt, DEFAULT_HEARTBEAT_AGE, |players|)
        && RoomsPlaced(b, players, mode, d)
           == Stored(b.rooms, Taken(b.rooms.info[sid.value], |players|, d.allocatedAt), OrElse(mode, DEFAULT_MODE))
  {
    AllocatedKeeps(b.rooms, OrElse(mode, DEFAULT_MODE), d.allocatedAt, DEFAULT_HEARTBEAT_AGE, |players|);
    FirstFitFinds(b.rooms, Sorted(LoadIndex(b.rooms, OrElse(mode, DEFAULT_MODE))), OrElse(mode, DEFAULT_MODE),
                  d.allocatedAt, DEFAULT_HEARTBEAT_AGE, |players|);
  }

  /** With slots taken on server `sid`, the match is completed, recorded and mirrored; or slots and players
      are given back. */
  function Finished(b: Backend, players: seq<string>, mode: string, sid: string, d: Draws): Backend
    requires StoreOk(b.store) && CapacityOk(b.rooms.info) && |players| <= |d.stamps| && sid in b.rooms.info
  {
    if !Finishes(b.store, players, d) then
      PutBack(b, players, d).(rooms := GivenBack(b.rooms, players, OrElse(mode, DEFAULT_MODE), sid, d))
    else
      StillQueuedMembers(b.store, players);
      var matched := StillQueued(b.store, players);
      var pending := ResultOn(sid, b.rooms.info[sid].addr, mode, d);
      var result := pending.(players := matched);
      var store := Completed(b.store, players, pending);
      Backend(store,
        if d.saveFails then b.rooms
        else b.rooms.(assignments := b.rooms.assignments[d.matchId := SavedAssignment(result, b.rooms.info[sid].load)]),
        UpsertTickets(UpsertResult(b.mirror, result), StoredTickets(b.store, store, matched)))
  }

  /** One attempt: too few players do nothing, no placement puts them back. */
  function Attempted(b: Backend, players: seq<string>, mode: string, d: Draws): Backend
    requires StoreOk(b.store) && CapacityOk(b.rooms.info) && |players| <= |d.stamps|
  {
    var placement := Placement(b, players, mode, d);
    if |players| < PLAYERS_PER_ROOM then b
    else if placement.None? then PutBack(b, players, d)
    else
      RoomsPlacedOk(b, players, mode, d);
      Finished(b.(rooms := RoomsPlaced(b, players, mode, d)), players, mode, placement.value, d)
  }

  lemma TooFewDoNothing(b: Backend, players: seq<string>, mode: string, d: Draws)
    requires StoreOk(b.store) && CapacityOk(b.rooms.info) && |players| < PLAYERS_PER_ROOM && |players| <= |d.stamps|
    ensures Attempted(b, players, mode, d) == b
  {
  }

  // ---------- agreement through an attempt ----------

  /** Picked players who are put back, all of them, restore the agreement; leaving one out breaks it. */
  lemma PutBackRestoresExactlyWhen(b: Backend, players: seq<string>, d: Draws)
    requires AgreesExcept(b.store, Ids(players)) && Ids(players) <= b.store.playerTicket.Keys
    requires |players| <= |d.stamps| && forall i, j | 0 <= i < j < |players| :: players[i] != players[j]
    ensures Agrees(PutBack(b, players, d).store) <==> RequeueReach(d.requeueFault, |players|) == |players|
  {
    var n := RequeueReach(d.requeueFault, |players|);
    RequeuedPoolIs(b.store, players, d.stamps, n);
    var r := PutBack(b, players, d).store;
    if n == |players| {
      assert players[..n] == players;
      assert r.pool.Keys == r.playerTicket.Keys;
    } else {
      assert players[n] in Ids(players) && players[n] !in players[..n];
      assert players[n] in r.playerTicket && players[n] !in r.pool;
    }
  }

  lemma {:induction false} StillQueuedAll(s: Store, players: seq<string>)
    requires Ids(players) <= s.playerTicket.Keys
    ensures StillQueued(s, players) == players
  {
    if players != [] {
      var n := |players| - 1;
      assert players == players[..n] + [players[n]];
      assert players[n] in Ids(players) && Ids(players[..n]) <= Ids(players);
      StillQueuedAll(s, players[..n]);
    }
  }

  lemma CompletedAgrees(s: Store, players: seq<string>, result: MatchResult)
    requires AgreesExcept(s, Ids(players)) && Ids(players) <= s.playerTicket.Keys && |players| >= 2
    ensures Agrees(Completed(s, players, result))
  {
    CompletedKeepsOk(s, players, result);
    StillQueuedAll(s, players);
    var r := Completed(s, players, result);
    forall p ensures p in r.playerTicket <==> p in s.playerTicket && p !in players {
      if p in s.playerTicket && s.playerTicket[p] in TicketIds(s, players) {
        var q :| q in players && q in s.playerTicket && s.playerTicket[q] == s.playerTicket[p];
        assert s.tickets[s.playerTicket[p]].player == p == q;
      }
    }
  }

  // ---------- the mirror through an attempt ----------

  /** Upserting stored tickets brings exactly their rows up to date. */
  lemma {:induction false} UpsertedRows(m: Mirror, tickets: seq<Ticket>, stored: map<string, Ticket>)
    requires m.tickets.Keys == stored.Keys
    requires forall id | id in stored :: m.tickets[id].createdAt == stored[id].createdAt
    requires forall t | t in tickets :: t.id in stored && t == stored[t.id]
    ensures
      var r := UpsertTickets(m, tickets);
      && r.results == m.results && r.tickets.Keys == stored.Keys
      && (forall t | t in tickets :: t.id in r.tickets && r.tickets[t.id] == stored[t.id])
      && (forall id | id in stored :: r.tickets[id] == m.tickets[id] || r.tickets[id] == stored[id])
  {
    if tickets != [] {
      var n := |tickets| - 1;
      assert tickets == tickets[..n] + [tickets[n]];
      UpsertedRows(m, tickets[..n], stored);
    }
  }

  /** If the tickets upserted include every row that is out of date, the mirror is up to date again. */
  lemma UpsertedMirror(m: Mirror, tickets: seq<Ticket>, stored: map<string, Ticket>)
    requires m.tickets.Keys == stored.Keys
    requires forall id | id in stored :: m.tickets[id].createdAt == stored[id].createdAt
    requires forall t | t in tickets :: t.id in stored && t == stored[t.id]
    requires forall id | id in stored && m.tickets[id] != stored[id] :: stored[id] in tickets && stored[id].id == id
    ensures UpsertTickets(m, tickets) == m.(tickets := stored)
  {
    UpsertedRows(m, tickets, stored);
    var r := UpsertTickets(m, tickets);
    assert r.tickets == stored;
  }

  /** Completion rewrites only the tickets that it returns, and not when they were created. */
  lemma ChangedRowsAreStored(s: Store, matched: seq<string>, ids: set<string>, c: Change)
    requires KeysAgree(s) && c.Match? && ids == TicketIds(s, matched)
    requires forall p | p in matched :: p in s.playerTicket
    ensures
      var store := Settled(s, ids, c);
      && (forall id | id in s.tickets && store.tickets[id] != s.tickets[id] ::
          store.tickets[id] in StoredTickets(s, store, matched))
      && (forall id | id in s.tickets ::
          store.tickets[id].createdAt == s.tickets[id].createdAt && store.tickets[id].id == id)
      && (forall t | t in StoredTickets(s, store, matched) :: t.id in store.tickets && t == store.tickets[t.id])
  {
    var store := Settled(s, ids, c);
    var tickets := StoredTickets(s, store, matched);
    forall id | id in s.tickets && store.tickets[id] != s.tickets[id] ensures store.tickets[id] in tickets {
      var p :| p in matched && p in s.playerTicket && s.playerTicket[p] == id;
      var i :| 0 <= i < |matched| && matched[i] == p;
      assert tickets[i] == store.tickets[id];
    }
  }

  lemma CompletedMirror(b: Backend, players: seq<string>, pending: MatchResult)
    requires StoreOk(b.store) && MirrorAgrees(b) && pending.matchId !in b.store.results
    requires |StillQueued(b.store, players)| >= 2
    ensures
      var matched := StillQueued(b.store, players);
      var store := Completed(b.store, players, pending);
      && (forall p | p in matched :: p in b.store.playerTicket && b.store.playerTicket[p] in store.tickets)
      && UpsertTickets(UpsertResult(b.mirror, pending.(players := matched)), StoredTickets(b.store, store, matched))
         == Mirror(store.tickets, store.results)
  {
    StillQueuedMembers(b.store, players);
    var matched := StillQueued(b.store, players);
    var store := Completed(b.store, players, pending);
    var ids := TicketIds(b.store, matched);
    var c := Match(pending.matchId, pending.roomId, pending.createdAt);
    assert store.tickets == Settled(b.store, ids, c).tickets && store.tickets.Keys == b.store.tickets.Keys;
    ChangedRowsAreStored(b.store, matched, ids, c);
    hide StoreOk, Completed, Settled;
    UpsertedMirror(UpsertResult(b.mirror, pending.(players := matched)), StoredTickets(b.store, store, matched),
        store.tickets);
  }
}
