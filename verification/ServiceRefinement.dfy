/** A service call that nobody interrupts is a run of the concurrent protocol, so it keeps what every run keeps.
    What other callers may do between its steps is part of the protocol's runs. */
module ServiceRefinement {
  import opened ZSets
  import opened MatchStore
  import opened RoomRegistry
  import opened PickAndSweep
  import opened MatchProtocol
  import opened MatchSafety
  import opened MatchOutcomes
  import opened Mirrors
  import opened ServiceSteps
  import opened ServiceAgreement
  import opened ServiceCalls

  function StepsAfterComplete(s: Store, players: seq<string>, d: Draws): seq<Step> {
    if Finishes(s, players, d) then []
    else [Step.Release(d.matchId, d.releasedAt, d.releaseFails)] + [Step.Requeue(d.matchId, d.stamps, d.requeueFault)]
  }

  /** What the attempt does once it has picked its players. */
  function StepsAfterPick(b: Backend, players: seq<string>, mode: string, d: Draws): seq<Step> {
    [Step.Allocate(d.matchId, mode, d.roomId, d.allocatedAt, d.allocateFails)]
    + if Placement(b, players, mode, d).None? then [Step.Requeue(d.matchId, d.stamps, d.requeueFault)]
      else [Step.Complete(d.matchId, d.startedAt, d.completeFault)] + StepsAfterComplete(b.store, players, d)
  }

  function StepsOf(b: Backend, minScore: int, maxScore: int, mode: string, d: Draws): seq<Step> {
    var players := PickFrom(b.store.pool, minScore, maxScore, PLAYERS_PER_ROOM);
    [Step.Pick(d.matchId, minScore, maxScore)]
    + if players == [] then [] else StepsAfterPick(AfterPick(b, minScore, maxScore), players, mode, d)
  }

  /** The backend has this world's store and, but for the saved assignments, its rooms. */
  predicate Shows(w: World, b: Backend) {
    b.store == w.store && b.rooms == w.rooms.(assignments := b.rooms.assignments)
  }

  ghost predicate Reaches(w: World, steps: seq<Step>, b: Backend)
    requires CapacityOk(w.rooms.info)
  {
    Possible(w, steps) && Shows(After(w, steps), b)
  }

  lemma ReachesCons(w: World, k: Step, rest: seq<Step>, b: Backend)
    requires CapacityOk(w.rooms.info) && Enabled(w, k) && Reaches(Next(w, k), rest, b)
    ensures Reaches(w, [k] + rest, b)
  {
    RunCons(w, k, rest);
  }

  lemma ReachesNow(w: World, b: Backend)
    requires CapacityOk(w.rooms.info) && Shows(w, b)
    ensures Reaches(w, [], b)
  {
  }

  lemma {:induction false} FirstFitSame(r: Registry, s: Registry, ids: seq<string>, mode: string, now: int,
      maxAge: int, slots: nat)
    requires r.info == s.info
    ensures FirstFit(r, ids, mode, now, maxAge, slots) == FirstFit(s, ids, mode, now, maxAge, slots)
  {
    if ids != [] {
      FirstFitSame(r, s, ids[1..], mode, now, maxAge, slots);
    }
  }

  lemma AssignmentsDoNotMatter(r: Registry, s: Registry, mode: string, now: int, maxAge: int, slots: nat)
    requires r == s.(assignments := r.assignments)
    ensures Choice(r, mode, now, maxAge, slots) == Choice(s, mode, now, maxAge, slots)
  {
    FirstFitSame(r, s, Sorted(LoadIndex(r, mode)), mode, now, maxAge, slots);
  }

  // ---------- the four moves after the pick ----------

  lemma RequeueRuns(w: World, b: Backend, players: seq<string>, d: Draws)
    requires StoreOk(w.store) && CapacityOk(w.rooms.info) && Shows(w, b) && |players| <= |d.stamps|
    requires d.matchId in w.attempts && w.attempts[d.matchId] == Attempt(players, MustRequeue)
    ensures Reaches(w, [Step.Requeue(d.matchId, d.stamps, d.requeueFault)], PutBack(b, players, d))
  {
    var k := Step.Requeue(d.matchId, d.stamps, d.requeueFault);
    hide StoreOk, CapacityOk, RequeuedPool;
    ReachesNow(Next(w, k), PutBack(b, players, d));
    ReachesCons(w, k, [], PutBack(b, players, d));
    assert [k] + [] == [k];
  }

  lemma ReleaseKeepsStore(w: World, m: string, now: int, fails: bool)
    requires CapacityOk(w.rooms.info) && m in w.attempts && w.attempts[m].phase.MustRelease?
    ensures
      var r := Next(w, Step.Release(m, now, fails));
      r.store == w.store && m in r.attempts && r.attempts[m] == w.attempts[m].(phase := MustRequeue)
  {
  }

  lemma ReleaseRuns(w: World, b: Backend, players: seq<string>, a: RoomAssignment, d: Draws)
    requires StoreOk(w.store) && CapacityOk(w.rooms.info) && Shows(w, b) && |players| <= |d.stamps|
    requires d.matchId in w.attempts && w.attempts[d.matchId] == Attempt(players, MustRelease(a))
    requires a.players == players && a.mode != ""
    ensures
      var r := PutBack(b, players, d).(rooms := GivenBack(b.rooms, players, a.mode, a.serverId, d));
      Reaches(w, [Step.Release(d.matchId, d.releasedAt, d.releaseFails)]
          + [Step.Requeue(d.matchId, d.stamps, d.requeueFault)], r)
  {
    var k := Step.Release(d.matchId, d.releasedAt, d.releaseFails);
    var w' := Next(w, k);
    var rooms := GivenBack(b.rooms, players, a.mode, a.serverId, d);
    assert Shows(w', b.(rooms := rooms));
    hide StoreOk, CapacityOk, Next, GivenBack;
    assert w'.store == w.store && w'.attempts[d.matchId] == Attempt(players, MustRequeue) by {
      ReleaseKeepsStore(w, d.matchId, d.releasedAt, d.releaseFails);
    }
    RequeueRuns(w', b.(rooms := rooms), players, d);
    ReachesCons(w, k, [Step.Requeue(d.matchId, d.stamps, d.requeueFault)], PutBack(b, players, d).(rooms := rooms));
  }

  lemma CompleteRuns(w: World, b: Backend, players: seq<string>, mode: string, a: RoomAssignment, d: Draws)
    requires StoreOk(w.store) && CapacityOk(w.rooms.info) && Shows(w, b) && |players| <= |d.stamps|
    requires d.matchId in w.attempts && w.attempts[d.matchId] == Attempt(players, Placed(a))
    requires a.serverId in b.rooms.info && a.players == players && a.mode == OrElse(mode, DEFAULT_MODE)
    requires a.roomId == d.roomId && a.serverAddr == b.rooms.info[a.serverId].addr
    ensures Reaches(w, [Step.Complete(d.matchId, d.startedAt, d.completeFault)]
        + StepsAfterComplete(w.store, players, d),
                    Finished(b, players, mode, a.serverId, d))
  {
    var k := Step.Complete(d.matchId, d.startedAt, d.completeFault);
    var w' := Next(w, k);
    hide StoreOk, CapacityOk, Completed, UpsertTickets, GivenBack, CompleteErrs, StillQueued;
    if Finishes(w.store, players, d) {
      assert ResultFor(d.matchId, a, d.startedAt) == ResultOn(a.serverId, a.serverAddr, mode, d);
      assert Shows(w', Finished(b, players, mode, a.serverId, d));
      ReachesNow(w', Finished(b, players, mode, a.serverId, d));
    } else {
      assert w' == WithPhase(w, d.matchId, MustRelease(a));
      ReleaseRuns(w', b, players, a, d);
    }
    ReachesCons(w, k, StepsAfterComplete(w.store, players, d), Finished(b, players, mode, a.serverId, d));
  }

  /** The allocation step places the players where the service does, and reserves the same slots. */
  lemma AllocateStep(w: World, b: Backend, players: seq<string>, mode: string, d: Draws)
    requires CapacityOk(w.rooms.info) && Shows(w, b)
    requires d.matchId in w.attempts && w.attempts[d.matchId] == Attempt(players, Picked)
    ensures
      var r := Next(w, Step.Allocate(d.matchId, mode, d.roomId, d.allocatedAt, d.allocateFails));
      var sid := Placement(b, players, mode, d);
      && d.matchId in r.attempts && Shows(r, b.(rooms := RoomsPlaced(b, players, mode, d)))
      && (sid.None? ==> r.attempts[d.matchId] == Attempt(players, MustRequeue) && r.rooms == w.rooms)
      && (sid.Some? ==>
            var placed := RoomsPlaced(b, players, mode, d);
            && sid.value in placed.info
            && r.attempts[d.matchId] == Attempt(players, Placed(
                 RoomAssignment(d.matchId, d.roomId, sid.value, placed.info[sid.value].addr, OrElse(mode, DEFAULT_MODE),
                                players, "assigned", placed.info[sid.value].load, d.allocatedAt))))
  {
    AssignmentsDoNotMatter(b.rooms, w.rooms, OrElse(mode, DEFAULT_MODE), d.allocatedAt,
        DEFAULT_HEARTBEAT_AGE, |players|);
    RoomsPlacedOk(b, players, mode, d);
  }

  lemma AllocateRuns(w: World, b: Backend, players: seq<string>, mode: string, d: Draws)
    requires StoreOk(w.store) && CapacityOk(w.rooms.info) && Shows(w, b) && PLAYERS_PER_ROOM <= |players| <= |d.stamps|
    requires d.matchId in w.attempts && w.attempts[d.matchId] == Attempt(players, Picked)
    ensures Reaches(w, StepsAfterPick(b, players, mode, d), Attempted(b, players, mode, d))
  {
    var k := Step.Allocate(d.matchId, mode, d.roomId, d.allocatedAt, d.allocateFails);
    var w' := Next(w, k);
    AllocateStep(w, b, players, mode, d);
    var r, sid := Attempted(b, players, mode, d), Placement(b, players, mode, d);
    hide StoreOk, CapacityOk, Next, RoomsPlaced, Finished, PutBack, Finishes, Choice;
    if sid.None? {
      RequeueRuns(w', b, players, d);
      ReachesCons(w, k, [Step.Requeue(d.matchId, d.stamps, d.requeueFault)], r);
    } else {
      var placed := b.(rooms := RoomsPlaced(b, players, mode, d));
      CompleteRuns(w', placed, players, mode, w'.attempts[d.matchId].phase.assignment, d);
      ReachesCons(w, k, [Step.Complete(d.matchId, d.startedAt, d.completeFault)]
          + StepsAfterComplete(b.store, players, d), r);
    }
  }

  /** From any world, the pick-and-match of one service call is a run of protocol steps of its own attempt. */
  lemma AttemptIsARun(w: World, b: Backend, minScore: int, maxScore: int, mode: string, d: Draws)
    requires StoreOk(w.store) && CapacityOk(w.rooms.info) && Shows(w, b) && PLAYERS_PER_ROOM <= |d.stamps|
        && !d.pickFails
    requires Enabled(w, Step.Pick(d.matchId, minScore, maxScore))
    ensures Reaches(w, StepsOf(b, minScore, maxScore, mode, d), PickAttempt(b, minScore, maxScore, mode, d))
  {
    var k := Step.Pick(d.matchId, minScore, maxScore);
    var players := PickFrom(b.store.pool, minScore, maxScore, PLAYERS_PER_ROOM);
    var w' := Next(w, k);
    PickIsFromPool(b.store.pool, minScore, maxScore, PLAYERS_PER_ROOM);
    SmallerPoolKeepsOk(w.store, Ids(players));
    hide StoreOk, CapacityOk, PickFrom, Attempted, StepsAfterPick;
    if players == [] {
      PickedNobody(b, minScore, maxScore, mode, d);
      ReachesNow(w', b);
      ReachesCons(w, k, [], b);
    } else {
      var c := AfterPick(b, minScore, maxScore);
      AllocateRuns(w', c, players, mode, d);
      ReachesCons(w, k, StepsAfterPick(c, players, mode, d), Attempted(c, players, mode, d));
    }
  }

  // ---------- every service call ----------

  function AttemptSteps(b: Backend, minScore: int, maxScore: int, mode: string, d: Draws): seq<Step> {
    if d.pickFails then [] else StepsOf(b, minScore, maxScore, mode, d)
  }

  function StepsOfCall(b: Backend, call: Call): seq<Step> {
    match call
    case CreateCall(q, c, d) =>
      var t := NewTicket(q, c.ticketId, c.now);
      if q.player == "" then []
      else
        [Step.Create(t, c.stamp, c.fault)]
        + if CreateSucceeds(b.store, t, c.fault)
            then AttemptSteps(Opened(b, q, c), q.mmr - MATCH_DELTA, q.mmr + MATCH_DELTA, q.mode, d)
          else []
    case CancelCall(id, now, fails) => if fails then [] else [Step.Cancel(id, now)]
    case SweepCall(now, limit, fault) => [Step.Sweep(now, limit, fault)]
    case ScanCall(minScore, maxScore, mode, d) => AttemptSteps(b, minScore, maxScore, mode, d)
    case RegisterCall(server, now, fault) => [Step.Register(server, now, fault)]
    case BeatCall(sid, h, now, fault) => [Step.Beat(sid, h, now, fault)]
  }

  /** The match id of the call, if it draws one, is new to the world. */
  predicate NewMatch(w: World, call: Call) {
    match call
    case CreateCall(_, _, d) => Enabled(w, Step.Pick(d.matchId, 0, 0))
    case ScanCall(_, _, _, d) => Enabled(w, Step.Pick(d.matchId, 0, 0))
    case _ => true
  }

  lemma AttemptStepsRun(w: World, b: Backend, minScore: int, maxScore: int, mode: string, d: Draws)
    requires StoreOk(w.store) && CapacityOk(w.rooms.info) && Shows(w, b) && PLAYERS_PER_ROOM <= |d.stamps|
    requires Enabled(w, Step.Pick(d.matchId, minScore, maxScore))
    ensures Reaches(w, AttemptSteps(b, minScore, maxScore, mode, d), PickAttempt(b, minScore, maxScore, mode, d))
  {
    if d.pickFails {
      ReachesNow(w, b);
    } else {
      AttemptIsARun(w, b, minScore, maxScore, mode, d);
    }
  }

  lemma OneStepRuns(w: World, k: Step, b: Backend)
    requires CapacityOk(w.rooms.info) && Enabled(w, k) && Shows(Next(w, k), b)
    ensures Reaches(w, [k], b)
  {
    ReachesNow(Next(w, k), b);
    ReachesCons(w, k, [], b);
    assert [k] + [] == [k];
  }

  lemma CreateStep(w: World, b: Backend, q: TicketRequest, c: CreateDraws, d: Draws)
    requires StoreOk(w.store) && CapacityOk(w.rooms.info) && Shows(w, b)
    requires Fresh(b, CreateCall(q, c, d)) && NewMatch(w, CreateCall(q, c, d))
    requires CreateSucceeds(b.store, NewTicket(q, c.ticketId, c.now), c.fault)
    ensures
      var k := Step.Create(NewTicket(q, c.ticketId, c.now), c.stamp, c.fault);
      && Enabled(w, k) && StoreOk(Next(w, k).store) && Shows(Next(w, k), Opened(b, q, c))
      && Enabled(Next(w, k), Step.Pick(d.matchId, q.mmr - MATCH_DELTA, q.mmr + MATCH_DELTA))
  {
    hide StoreOk, Composite;
    WithTicketKeepsOk(b.store, NewTicket(q, c.ticketId, c.now), c.stamp);
  }

  lemma CreateRuns(w: World, b: Backend, q: TicketRequest, c: CreateDraws, d: Draws)
    requires StoreOk(w.store) && CapacityOk(w.rooms.info) && Shows(w, b)
    requires Fresh(b, CreateCall(q, c, d)) && NewMatch(w, CreateCall(q, c, d))
    ensures Reaches(w, StepsOfCall(b, CreateCall(q, c, d)), CreateOn(b, q, c, d))
  {
    hide StoreOk, CapacityOk, PickAttempt, AttemptSteps, PickErrors;
    var t := NewTicket(q, c.ticketId, c.now);
    var k := Step.Create(t, c.stamp, c.fault);
    if q.player == "" {
      ReachesNow(w, b);
    } else if !CreateSucceeds(b.store, t, c.fault) {
      OneStepRuns(w, k, CreateOn(b, q, c, d));
      assert [k] + [] == [k];
    } else {
      CreateStep(w, b, q, c, d);
      hide Next, WithTicket, Shows;
      var entered := Opened(b, q, c);
      AttemptStepsRun(Next(w, k), entered, q.mmr - MATCH_DELTA, q.mmr + MATCH_DELTA, q.mode, d);
      var steps := AttemptSteps(entered, q.mmr - MATCH_DELTA, q.mmr + MATCH_DELTA, q.mode, d);
      ReachesCons(w, k, steps, CreateOn(b, q, c, d));
    }
  }

  lemma SweepRuns(w: World, b: Backend, now: int, limit: int, fault: Fault)
    requires StoreOk(w.store) && CapacityOk(w.rooms.info) && Shows(w, b)
    ensures Reaches(w, [Step.Sweep(now, limit, fault)], SweepOn(b, now, limit, fault))
  {
    hide StoreOk, CapacityOk, SweepIds, Swept, UpsertTickets, Reaches;
    OneStepRuns(w, Step.Sweep(now, limit, fault), SweepOn(b, now, limit, fault));
  }

  lemma WrittenBesideAssignments(r: Registry, s: Registry, g: GameServer, joins: bool, fault: WriteFault)
    requires r == s.(assignments := r.assignments) && g.capacity > 0
    ensures Written(r, g, joins, fault) == Written(s, g, joins, fault).(assignments := r.assignments)
  {
  }

  lemma RegisterRuns(w: World, b: Backend, server: GameServer, now: int, fault: WriteFault)
    requires StoreOk(w.store) && CapacityOk(w.rooms.info) && Shows(w, b)
    ensures Reaches(w, [Step.Register(server, now, fault)], RegisterOn(b, server, now, fault))
  {
    hide StoreOk, Normalize, Reaches, Written;
    var g := Normalize(server, now);
    if g.Ok? {
      WrittenBesideAssignments(b.rooms, w.rooms, g.value, true, fault);
    }
    OneStepRuns(w, Step.Register(server, now, fault), RegisterOn(b, server, now, fault));
  }

  lemma BeatRuns(w: World, b: Backend, sid: string, h: Heartbeat, now: int, fault: WriteFault)
    requires StoreOk(w.store) && CapacityOk(w.rooms.info) && Shows(w, b)
    ensures Reaches(w, [Step.Beat(sid, h, now, fault)], BeatOn(b, sid, h, now, fault))
  {
    hide StoreOk, Normalize, Beaten, Reaches, Written;
    if sid in b.rooms.info && Beaten(b.rooms.info[sid], h, now).Ok? {
      WrittenBesideAssignments(b.rooms, w.rooms, Beaten(b.rooms.info[sid], h, now).value, false, fault);
    }
    OneStepRuns(w, Step.Beat(sid, h, now, fault), BeatOn(b, sid, h, now, fault));
  }

  lemma CancelRuns(w: World, b: Backend, id: string, now: int)
    requires StoreOk(w.store) && CapacityOk(w.rooms.info) && Shows(w, b)
    ensures Reaches(w, [Step.Cancel(id, now)], CancelOn(b, id, now, false))
  {
    hide StoreOk, CapacityOk, Reaches, Settled;
    OneStepRuns(w, Step.Cancel(id, now), CancelOn(b, id, now, false));
  }

  lemma CancelFailed(b: Backend, id: string, now: int)
    ensures CancelOn(b, id, now, true) == b
  {
  }

  /** Every service call is a run of protocol steps: its store and rooms are those that the run leaves. */
  lemma CallIsARun(w: World, b: Backend, call: Call)
    requires StoreOk(w.store) && CapacityOk(w.rooms.info) && Shows(w, b) && Fresh(b, call) && NewMatch(w, call)
    ensures Reaches(w, StepsOfCall(b, call), Served(b, call))
  {
    hide StoreOk, CapacityOk, CreateOn, CancelOn, SweepOn, RegisterOn, BeatOn, PickAttempt, AttemptSteps, Next;
    match call
    case CreateCall(q, c, d) => CreateRuns(w, b, q, c, d);
    case CancelCall(id, now, fails) =>
      if fails {
        CancelFailed(b, id, now);
        ReachesNow(w, b);
      } else {
        CancelRuns(w, b, id, now);
      }
    case SweepCall(now, limit, fault) => SweepRuns(w, b, now, limit, fault);
    case ScanCall(minScore, maxScore, mode, d) => AttemptStepsRun(w, b, minScore, maxScore, mode, d);
    case RegisterCall(server, now, fault) => RegisterRuns(w, b, server, now, fault);
    case BeatCall(sid, h, now, fault) => BeatRuns(w, b, sid, h, now, fault);
  }
}
