/** The match protocol under concurrency: every repository operation is one atomic step, and any number of
    match attempts interleave with creations, cancellations and timeout sweeps. */
module MatchProtocol {
  import opened ZSets
  import opened MatchStore
  import opened RoomRegistry
  import opened PickAndSweep

  /** Where an attempt stands between two repository operations. */
  datatype Phase = Picked | Placed(assignment: RoomAssignment) | MustRelease(assignment: RoomAssignment) | MustRequeue

  datatype Attempt = Attempt(players: seq<string>, phase: Phase)

  /** Slots taken on a server. */
  datatype Charge = Charge(server: string, slots: nat)

  /** The shared store and registry, and a history: the attempts in flight, the reservations not given back, and
      the tickets each match consumed. */
  datatype World = World(
    store: Store,
    rooms: Registry,
    attempts: map<string, Attempt>,
    reserved: map<string, Charge>,
    consumed: map<string, seq<string>>)

  const EMPTY_WORLD := World(EMPTY_STORE, EMPTY_REGISTRY, map[], map[], map[])

  datatype Step =
    | Create(ticket: Ticket, stamp: Stamp, createFault: CreateFault)
    | Cancel(ticketId: string, at: int)
    | Sweep(at: int, limit: int, fault: Fault)
    | Pick(matchId: string, minScore: int, maxScore: int)
    | Allocate(matchId: string, mode: string, roomId: string, at: int, fails: bool)
    | Complete(matchId: string, at: int, fault: Fault)
    | Release(matchId: string, at: int, fails: bool)
    | Requeue(matchId: string, stamps: seq<Stamp>, fault: Fault)
    | Register(server: GameServer, at: int, writeFault: WriteFault)
    | Beat(sid: string, heartbeat: Heartbeat, at: int, writeFault: WriteFault)

  predicate InPhase(w: World, m: string, k: Step) {
    && m in w.attempts
    && match k
       case Allocate(_, _, _, _, _) => w.attempts[m].phase.Picked?
       case Complete(_, _, _) => w.attempts[m].phase.Placed?
       case Release(_, _, _) => w.attempts[m].phase.MustRelease?
       case Requeue(_, stamps, _) => w.attempts[m].phase.MustRequeue? && |w.attempts[m].players| <= |stamps|
       case _ => false
  }

  /** Identifiers drawn for tickets and matches are new; an attempt does its operations in order. */
  predicate Enabled(w: World, k: Step) {
    match k
    case Create(t, _, _) => t.id !in w.store.tickets && t.status == Queued && t.matchId == "" == t.roomId
    case Pick(m, _, _) => m != "" && m !in w.attempts && m !in w.reserved && m !in w.store.results
    case Cancel(_, _) => true
    case Sweep(_, _, _) => true
    case Register(_, _, _) => true
    case Beat(_, _, _, _) => true
    case _ => InPhase(w, k.matchId, k)
  }

  function WithPhase(w: World, m: string, phase: Phase): World
    requires m in w.attempts
  {
    w.(attempts := w.attempts[m := w.attempts[m].(phase := phase)])
  }

  function ResultFor(m: string, a: RoomAssignment, now: int): MatchResult {
    MatchResult(m, a.roomId, a.serverId, a.serverAddr, a.mode, [], Matched, now)
  }

  function CancelNext(w: World, id: string, now: int): World {
    if IsQueued(w.store, id) then w.(store := Closed(w.store, {id}, Cancelled, now)) else w
  }

  function SweepNext(w: World, now: int, limit: int, fault: Fault): World {
    var ids := SweepIds(w.store, now, limit);
    w.(store := Swept(w.store, ids[..SweepReach(fault, |ids|)], now))
  }

  function PickNext(w: World, m: string, minScore: int, maxScore: int): World {
    var players := PickFrom(w.store.pool, minScore, maxScore, PLAYERS_PER_ROOM);
    if players == [] then w
    else w.(store := Without(w.store, players), attempts := w.attempts[m := Attempt(players, Picked)])
  }

  function AllocateNext(w: World, m: string, mode: string, roomId: string, now: int, fails: bool): (r: World)
    requires m in w.attempts && CapacityOk(w.rooms.info)
    ensures CapacityOk(r.rooms.info)
  {
    var players, mode := w.attempts[m].players, OrElse(mode, DEFAULT_MODE);
    var choice := Choice(w.rooms, mode, now, DEFAULT_HEARTBEAT_AGE, |players|);
    if fails || choice.None? || choice.value !in w.rooms.info then WithPhase(w, m, MustRequeue)
    else
      FirstFitFinds(w.rooms, Sorted(LoadIndex(w.rooms, mode)), mode, now, DEFAULT_HEARTBEAT_AGE, |players|);
      var g := Taken(w.rooms.info[choice.value], |players|, now);
      var a := RoomAssignment(m, roomId, g.id, g.addr, mode, players, "assigned", g.load, now);
      WithPhase(w, m, Placed(a)).(
        rooms := Stored(w.rooms, g, mode),
        reserved := w.reserved[m := Charge(g.id, |players|)])
  }

  function TicketsOf(s: Store, players: seq<string>): seq<string> {
    seq(|players|, (i: nat) requires i < |players| =>
      if players[i] in s.playerTicket then s.playerTicket[players[i]] else "")
  }

  function CompleteNext(w: World, m: string, now: int, fault: Fault): World
    requires m in w.attempts && w.attempts[m].phase.Placed?
  {
    var Attempt(players, Placed(a)) := w.attempts[m];
    if CompleteErrs(w.store, players, fault) || |StillQueued(w.store, players)| < 2 then WithPhase(w, m, MustRelease(a))
    else
      var matched := StillQueued(w.store, players);
      w.(store := Completed(w.store, players, ResultFor(m, a, now)),
         attempts := w.attempts - {m},
         reserved := w.reserved - {m},
         consumed := w.consumed[m := TicketsOf(w.store, matched)])
  }

  function ReleaseNext(w: World, m: string, now: int, fails: bool): (r: World)
    requires m in w.attempts && w.attempts[m].phase.MustRelease? && CapacityOk(w.rooms.info)
    ensures CapacityOk(r.rooms.info)
  {
    var a := w.attempts[m].phase.assignment;
    if fails then WithPhase(w, m, MustRequeue)
    else WithPhase(w, m, MustRequeue).(
      rooms := Released(w.rooms, a.serverId, a.mode, |a.players|, now),
      reserved := w.reserved - {m})
  }

  function RequeueNext(w: World, m: string, stamps: seq<Stamp>, fault: Fault): World
    requires m in w.attempts && |w.attempts[m].players| <= |stamps|
  {
    var players := w.attempts[m].players;
    var n := RequeueReach(fault, |players|);
    w.(store := Requeued(w.store, players, stamps, n), attempts := w.attempts - {m})
  }

  function RegisterNext(w: World, server: GameServer, now: int, fault: WriteFault): (r: World)
    requires CapacityOk(w.rooms.info)
    ensures CapacityOk(r.rooms.info)
  {
    var g := Normalize(server, now);
    if g.Ok? then w.(rooms := Written(w.rooms, g.value, true, fault)) else w
  }

  function BeatNext(w: World, sid: string, h: Heartbeat, now: int, fault: WriteFault): (r: World)
    requires CapacityOk(w.rooms.info)
    ensures CapacityOk(r.rooms.info)
  {
    if sid !in w.rooms.info then w
    else
      var g := Beaten(w.rooms.info[sid], h, now);
      if g.Ok? then w.(rooms := Written(w.rooms, g.value, false, fault)) else w
  }

  /** One operation. Whatever it is, and whatever fails in it, no server ends up over its capacity. */
  function Next(w: World, k: Step): (r: World)
    requires Enabled(w, k) && CapacityOk(w.rooms.info)
    ensures CapacityOk(r.rooms.info)
  {
    match k
    case Create(t, stamp, fault) => w.(store := Created(w.store, t, stamp, fault))
    case Cancel(id, now) => CancelNext(w, id, now)
    case Sweep(now, limit, fault) => SweepNext(w, now, limit, fault)
    case Pick(m, lo, hi) => PickNext(w, m, lo, hi)
    case Allocate(m, mode, roomId, now, fails) => AllocateNext(w, m, mode, roomId, now, fails)
    case Complete(m, now, fault) => CompleteNext(w, m, now, fault)
    case Release(m, now, fails) => ReleaseNext(w, m, now, fails)
    case Requeue(m, stamps, fault) => RequeueNext(w, m, stamps, fault)
    case Register(server, now, fault) => RegisterNext(w, server, now, fault)
    case Beat(sid, h, now, fault) => BeatNext(w, sid, h, now, fault)
  }

  /** The steps can be taken one after the other, each with identifiers that are new at its time. */
  ghost predicate Possible(w: World, steps: seq<Step>)
    requires CapacityOk(w.rooms.info)
    decreases |steps|
  {
    steps == [] || (Enabled(w, steps[0]) && Possible(Next(w, steps[0]), steps[1..]))
  }

  ghost function After(w: World, steps: seq<Step>): World
    requires CapacityOk(w.rooms.info) && Possible(w, steps)
    decreases |steps|
  {
    if steps == [] then w else After(Next(w, steps[0]), steps[1..])
  }

  // ---------- the invariants ----------

  ghost predicate Held(w: World, p: string) {
    exists m | m in w.attempts :: p in w.attempts[m].players
  }

  /** A queued player is in the pool or held by an attempt in flight. */
  ghost predicate NobodyLost(w: World) {
    forall p | p in w.store.playerTicket :: p in w.store.pool || Held(w, p)
  }

  /** Nothing but match `m` stands for this queued player. */
  ghost predicate LeftTo(w: World, m: string, p: string) {
    && p in w.store.playerTicket && p !in w.store.pool
    && forall n | n in w.attempts && n != m :: p !in w.attempts[n].players
  }

  /** A requeue that fails before its end, and a queued player of its attempt whom it has not reached and who
      is left to that attempt alone. */
  ghost predicate Drops(w: World, k: Step)
    requires Enabled(w, k)
  {
    k.Requeue? &&
      var players := w.attempts[k.matchId].players;
      exists i | RequeueReach(k.fault, |players|) <= i < |players| :: LeftTo(w, k.matchId, players[i])
  }

  /** No step of the run drops anyone. */
  ghost predicate NeverDrops(w: World, steps: seq<Step>)
    requires CapacityOk(w.rooms.info) && Possible(w, steps)
    decreases |steps|
  {
    steps != [] ==> !Drops(w, steps[0]) && NeverDrops(Next(w, steps[0]), steps[1..])
  }

  /** Nobody is lost at the start, at the end, or between two steps. */
  ghost predicate NobodyLostAlong(w: World, steps: seq<Step>)
    requires CapacityOk(w.rooms.info) && Possible(w, steps)
    decreases |steps|
  {
    NobodyLost(w) && (steps != [] ==> NobodyLostAlong(Next(w, steps[0]), steps[1..]))
  }

  ghost predicate AttemptOk(w: World, m: string)
    requires m in w.attempts
  {
    var Attempt(players, phase) := w.attempts[m];
    && m != "" && m !in w.store.results
    && |players| == 2 && players[0] != players[1]
    && match phase
       case Picked => m !in w.reserved
       case Placed(a) =>
         && a.players == players && a.serverId != ""
         && m in w.reserved && w.reserved[m] == Charge(a.serverId, 2)
       case MustRelease(a) =>
         && a.players == players && a.serverId != ""
         && m in w.reserved && w.reserved[m] == Charge(a.serverId, 2)
       case MustRequeue => true
  }

  /** Every attempt holds two distinct players; from placement to release it has their two slots reserved. */
  ghost predicate AttemptsOk(w: World) {
    && CapacityOk(w.rooms.info)
    && (forall m | m in w.attempts :: AttemptOk(w, m))
    && (forall m | m in w.reserved :: m != "" && m !in w.store.results)
  }

  /** Ticket `id` is the one that match `m` consumed for its i-th player. */
  ghost predicate IsConsumed(w: World, m: string, i: nat)
    requires m in w.store.results
  {
    && m in w.consumed && i < |w.consumed[m]| && i < |w.store.results[m].players|
    && var id := w.consumed[m][i];
       && id in w.store.tickets
       && w.store.tickets[id].status == Matched
       && w.store.tickets[id].matchId == m
       && w.store.tickets[id].roomId == w.store.results[m].roomId
       && w.store.tickets[id].player == w.store.results[m].players[i]
  }

  ghost predicate ResultOk(w: World, m: string)
    requires m in w.store.results
  {
    var result := w.store.results[m];
    && m != "" && result.matchId == m && result.status == Matched
    && |result.players| == 2 && result.players[0] != result.players[1]
    && IsConsumed(w, m, 0) && IsConsumed(w, m, 1) && |w.consumed[m]| == 2
  }

  /** Every result lists two distinct players and consumed one ticket of each; a matched ticket is among the
      two that its match consumed, and no other ticket carries a match id. */
  ghost predicate ResultsOk(w: World) {
    && (forall m | m in w.store.results :: ResultOk(w, m))
    && (forall id | id in w.store.tickets && w.store.tickets[id].status != Matched :: w.store.tickets[id].matchId == "")
    && (forall id | id in w.store.tickets && w.store.tickets[id].status == Matched ::
          var m := w.store.tickets[id].matchId;
          m in w.store.results && m in w.consumed && id in w.consumed[m])
  }

  ghost predicate Inv(w: World) {
    StoreOk(w.store) && AttemptsOk(w) && ResultsOk(w)
  }
}
