/** Capacity accounting over whole runs: what a server's load is made of. */
module ServerAccounting {
  import opened ZSets
  import opened MatchStore
  import opened RoomRegistry
  import opened PickAndSweep
  import opened MatchProtocol
  import opened MatchSafety
  import opened MatchOutcomes

  function SlotsAt(c: Charge, sid: string): nat {
    if c.server == sid then c.slots else 0
  }

  /** All slots charged to a server. */
  ghost function SlotsOn(charges: map<string, Charge>, sid: string): nat
    decreases |charges|
  {
    if charges == map[] then 0
    else
      var m := SomeKey(charges);
      assert (charges - {m}).Keys == charges.Keys - {m};
      SlotsAt(charges[m], sid) + SlotsOn(charges - {m}, sid)
  }

  lemma {:induction false} SlotsOnSplit(charges: map<string, Charge>, m: string, sid: string)
    requires m in charges
    ensures SlotsOn(charges, sid) == SlotsAt(charges[m], sid) + SlotsOn(charges - {m}, sid)
    decreases |charges|
  {
    var x := SomeKey(charges);
    if x != m {
      assert (charges - {x}).Keys == charges.Keys - {x};
      assert (charges - {m}).Keys == charges.Keys - {m};
      SlotsOnSplit(charges - {x}, m, sid);
      SlotsOnSplit(charges - {m}, x, sid);
      assert charges - {x} - {m} == charges - {m} - {x};
    }
  }

  lemma SlotsOnAdd(charges: map<string, Charge>, m: string, c: Charge, sid: string)
    requires m !in charges
    ensures SlotsOn(charges[m := c], sid) == SlotsOn(charges, sid) + SlotsAt(c, sid)
  {
    SlotsOnSplit(charges[m := c], m, sid);
    assert charges[m := c] - {m} == charges;
  }

  /** The players that results have put on servers. */
  function Played(results: map<string, MatchResult>): map<string, Charge> {
    map m | m in results :: Charge(results[m].serverId, |results[m].players|)
  }

  /** The server's load is its base, plus the slots of reservations not given back, plus the players of all
      results assigned to it. */
  ghost predicate Accounted(w: World, sid: string, base: nat) {
    && sid in w.rooms.info
    && w.rooms.info[sid].load == base + SlotsOn(w.reserved, sid) + SlotsOn(Played(w.store.results), sid)
  }

  /** A registration or a heartbeat that reaches the server's hash and reports another load than the stored one. */
  predicate ResetsLoad(w: World, k: Step, sid: string)
    requires CapacityOk(w.rooms.info) && sid in w.rooms.info
  {
    match k
    case Register(server, now, fault) =>
      server.id == sid && fault != InfoFails && Normalize(server, now).Ok? && server.load != w.rooms.info[sid].load
    case Beat(beaten, h, now, fault) =>
      && beaten == sid && fault != InfoFails && Beaten(w.rooms.info[sid], h, now).Ok?
      && h.load.Some? && h.load.value != w.rooms.info[sid].load
    case _ => false
  }

  lemma AllocateKeepsAccount(w: World, k: Step, sid: string, base: nat)
    requires AttemptsOk(w) && Accounted(w, sid, base) && Enabled(w, k) && k.Allocate?
    ensures Accounted(Next(w, k), sid, base)
  {
    var m, r := k.matchId, Next(w, k);
    assert AttemptOk(w, m);
    if r.reserved != w.reserved {
      SlotsOnAdd(w.reserved, m, r.reserved[m], sid);
    }
  }

  /** The release gives back exactly the two slots of the attempt: its clamp at zero has nothing to do. */
  lemma ReleaseNeverClamps(w: World, m: string, base: nat)
    requires AttemptsOk(w) && m in w.attempts && w.attempts[m].phase.MustRelease?
    requires Accounted(w, w.attempts[m].phase.assignment.serverId, base)
    ensures
      var a := w.attempts[m].phase.assignment;
      w.rooms.info[a.serverId].load >= |a.players| == 2
  {
    assert AttemptOk(w, m);
    SlotsOnSplit(w.reserved, m, w.attempts[m].phase.assignment.serverId);
  }

  lemma ReleaseKeepsAccount(w: World, k: Step, sid: string, base: nat)
    requires AttemptsOk(w) && Accounted(w, sid, base) && Enabled(w, k) && k.Release?
    ensures Accounted(Next(w, k), sid, base)
  {
    var m := k.matchId;
    var a := w.attempts[m].phase.assignment;
    assert AttemptOk(w, m);
    SlotsOnSplit(w.reserved, m, sid);
    if a.serverId == sid {
      ReleaseNeverClamps(w, m, base);
    }
  }

  /** Completion turns the reservation of a match into the players of its result, slot by slot. */
  lemma CompleteKeepsAccount(w: World, k: Step, sid: string, base: nat)
    requires StoreOk(w.store) && AttemptsOk(w) && Accounted(w, sid, base) && Enabled(w, k) && k.Complete?
    ensures Accounted(Next(w, k), sid, base)
  {
    hide StoreOk, Settled, SlotsOn;
    var m, r := k.matchId, Next(w, k);
    var Attempt(players, Placed(a)) := w.attempts[m];
    assert AttemptOk(w, m);
    if m !in r.attempts {
      assert StillQueued(w.store, players) == players by {
        StillQueuedMembers(w.store, players);
      }
      SlotsOnSplit(w.reserved, m, sid);
      SlotsOnAdd(Played(w.store.results), m, Charge(a.serverId, 2), sid);
      assert Played(r.store.results) == Played(w.store.results)[m := Charge(a.serverId, 2)];
    }
  }

  lemma RoomStepKeepsLoadExactlyWhen(w: World, k: Step, sid: string)
    requires CapacityOk(w.rooms.info) && Enabled(w, k) && (k.Register? || k.Beat?) && sid in w.rooms.info
    ensures sid in Next(w, k).rooms.info
    ensures Next(w, k).rooms.info[sid].load == w.rooms.info[sid].load <==> !ResetsLoad(w, k, sid)
  {
    hide Written;
    if k.Register? {
      var g := Normalize(k.server, k.at);
      if g.Ok? {
        WrittenInfo(w.rooms, g.value, true, k.writeFault);
      }
    } else if k.sid in w.rooms.info {
      var g := Beaten(w.rooms.info[k.sid], k.heartbeat, k.at);
      if g.Ok? {
        WrittenInfo(w.rooms, g.value, false, k.writeFault);
      }
    }
  }

  lemma PickOrRequeueKeepsRooms(w: World, k: Step)
    requires CapacityOk(w.rooms.info) && Enabled(w, k) && (k.Pick? || k.Requeue?)
    ensures Next(w, k).rooms == w.rooms && Next(w, k).reserved == w.reserved
        && Next(w, k).store.results == w.store.results
  {
  }

  lemma StepKeepsAccountExactlyWhen(w: World, k: Step, sid: string, base: nat)
    requires StoreOk(w.store) && AttemptsOk(w) && Accounted(w, sid, base) && Enabled(w, k)
    ensures Accounted(Next(w, k), sid, base) <==> !ResetsLoad(w, k, sid)
  {
    hide Next, StoreOk;
    match k {
      case Allocate(_, _, _, _, _) => AllocateKeepsAccount(w, k, sid, base);
      case Complete(_, _, _) => CompleteKeepsAccount(w, k, sid, base);
      case Release(_, _, _) => ReleaseKeepsAccount(w, k, sid, base);
      case Register(_, _, _) => RoomStepKeepsLoadExactlyWhen(w, k, sid); RoomStepTouchesNoAttempt(w, k);
      case Beat(_, _, _, _) => RoomStepKeepsLoadExactlyWhen(w, k, sid); RoomStepTouchesNoAttempt(w, k);
      case Pick(_, _, _) => PickOrRequeueKeepsRooms(w, k);
      case Requeue(_, _, _) => PickOrRequeueKeepsRooms(w, k);
      case _ => StoreStepTouchesNoAttempt(w, k);
    }
  }

  ghost predicate AccountedAlong(w: World, steps: seq<Step>, sid: string, base: nat)
    requires CapacityOk(w.rooms.info) && Possible(w, steps)
    decreases |steps|
  {
    Accounted(w, sid, base) && (steps != [] ==> AccountedAlong(Next(w, steps[0]), steps[1..], sid, base))
  }

  /** No step of the run sets the server's load to another than the stored one. */
  ghost predicate NeverResets(w: World, steps: seq<Step>, sid: string)
    requires CapacityOk(w.rooms.info) && Possible(w, steps)
    decreases |steps|
  {
    sid in w.rooms.info
    && (steps != [] ==> !ResetsLoad(w, steps[0], sid) && NeverResets(Next(w, steps[0]), steps[1..], sid))
  }

  lemma WrongAccountAtOnce(w: World, steps: seq<Step>, sid: string, base: nat)
    requires CapacityOk(w.rooms.info) && Possible(w, steps) && !Accounted(w, sid, base)
    ensures !AccountedAlong(w, steps, sid, base)
  {
  }

  lemma AccountedIsRegistered(w: World, sid: string, base: nat)
    requires Accounted(w, sid, base)
    ensures sid in w.rooms.info
  {
  }

  /** From the start of a run to its end a server's load is its base plus open reservations plus the players of
      its results, exactly when no registration or heartbeat of the run reports another load than the stored one. */
  lemma {:induction false} AccountedAlongExactlyWhen(w: World, steps: seq<Step>, sid: string, base: nat)
    requires Inv(w) && Possible(w, steps) && Accounted(w, sid, base)
    ensures AccountedAlong(w, steps, sid, base) <==> NeverResets(w, steps, sid)
    decreases |steps|
  {
    if steps != [] {
      hide Next, StoreOk, ResultsOk, Later, Accounted, ResetsLoad;
      assert sid in w.rooms.info by {
        AccountedIsRegistered(w, sid, base);
      }
      var r := Next(w, steps[0]);
      StepKeepsInv(w, steps[0]);
      StepKeepsAccountExactlyWhen(w, steps[0], sid, base);
      if Accounted(r, sid, base) {
        AccountedAlongExactlyWhen(r, steps[1..], sid, base);
      } else {
        WrongAccountAtOnce(r, steps[1..], sid, base);
      }
    } else {
      AccountedIsRegistered(w, sid, base);
    }
  }

  lemma {:induction false} AccountedAtTheEnd(w: World, steps: seq<Step>, sid: string, base: nat)
    requires CapacityOk(w.rooms.info) && Possible(w, steps) && AccountedAlong(w, steps, sid, base)
    ensures Accounted(After(w, steps), sid, base)
    decreases |steps|
  {
    if steps != [] {
      hide Next, Accounted;
      AccountedAtTheEnd(Next(w, steps[0]), steps[1..], sid, base);
    }
  }

  /** So after such a run the slots of open reservations and the players of results fit into the server together. */
  lemma MatchesFitTheServer(w: World, steps: seq<Step>, sid: string, base: nat)
    requires Inv(w) && Possible(w, steps) && Accounted(w, sid, base) && NeverResets(w, steps, sid)
    ensures
      var r := After(w, steps);
      && sid in r.rooms.info
      && r.rooms.info[sid].load == base + SlotsOn(r.reserved, sid) + SlotsOn(Played(r.store.results), sid)
      && base + SlotsOn(r.reserved, sid) + SlotsOn(Played(r.store.results), sid) <= r.rooms.info[sid].capacity
  {
    RunIsSafe(w, steps);
    AccountedAlongExactlyWhen(w, steps, sid, base);
    AccountedAtTheEnd(w, steps, sid, base);
  }

  // ---------- the account in terms of attempts in flight ----------

  predicate HoldsSlots(a: Attempt) {
    a.phase.Placed? || a.phase.MustRelease?
  }

  /** The slots of attempts in flight that are placed and have not given them back. */
  function HeldSlots(attempts: map<string, Attempt>): map<string, Charge> {
    map m | m in attempts && HoldsSlots(attempts[m]) ::
        Charge(attempts[m].phase.assignment.serverId, |attempts[m].players|)
  }

  /** No slots are taken but by attempts in flight. */
  ghost predicate InFlight(w: World) {
    forall m | m in w.reserved :: m in w.attempts && HoldsSlots(w.attempts[m])
  }

  lemma ReservedAreHeld(w: World)
    requires AttemptsOk(w) && InFlight(w)
    ensures w.reserved == HeldSlots(w.attempts)
  {
    forall m | m in w.attempts ensures HoldsSlots(w.attempts[m]) ==> m in w.reserved {
      assert AttemptOk(w, m);
    }
    forall m | m in w.reserved ensures w.reserved[m] == HeldSlots(w.attempts)[m] {
      assert AttemptOk(w, m);
    }
  }

  /** A release that fails: the attempt goes on to its requeue and ends, and its slots stay taken. */
  predicate LeaksSlots(k: Step) {
    k.Release? && k.fails
  }

  lemma OwnStepInFlight(w: World, k: Step)
    requires AttemptsOk(w) && InFlight(w) && Enabled(w, k) && IsAttemptStep(k)
    ensures
      var m, r := k.matchId, Next(w, k);
      (m in r.reserved ==> m in r.attempts && HoldsSlots(r.attempts[m])) <==> !LeaksSlots(k)
  {
    hide Choice, Stored, Released, PickFrom, RequeuedPool, Completed;
    if !k.Pick? {
      assert AttemptOk(w, k.matchId);
    }
  }

  lemma ReservedIsNamed(w: World, k: Step, m: string)
    requires AttemptsOk(w) && Enabled(w, k) && !IsAttemptStep(k) && m in Next(w, k).reserved
    ensures m != ""
  {
    hide Next;
    if k.Register? || k.Beat? {
      RoomStepTouchesNoAttempt(w, k);
    } else {
      StoreStepTouchesNoAttempt(w, k);
    }
  }

  /** Of all steps only a release that fails leaves slots taken without an attempt. */
  lemma InFlightKeptExactlyWhen(w: World, k: Step)
    requires AttemptsOk(w) && InFlight(w) && Enabled(w, k)
    ensures InFlight(Next(w, k)) <==> !LeaksSlots(k)
  {
    var r := Next(w, k);
    StepTouches(w, k);
    hide Next;
    if IsAttemptStep(k) {
      OwnStepInFlight(w, k);
      forall m | m in r.reserved && m != k.matchId ensures m in r.attempts && HoldsSlots(r.attempts[m]) {
        assert m in w.reserved;
      }
      if LeaksSlots(k) {
        assert k.matchId in r.reserved;
      }
    } else {
      forall m | m in r.reserved ensures m in r.attempts && HoldsSlots(r.attempts[m]) {
        assert m != "" by {
          ReservedIsNamed(w, k, m);
        }
        assert m in w.reserved;
      }
    }
  }

  /** The account is exact and no slots are taken but by attempts in flight. */
  ghost predicate HeldAndAccountedAlong(w: World, steps: seq<Step>, sid: string, base: nat)
    requires CapacityOk(w.rooms.info) && Possible(w, steps)
    decreases |steps|
  {
    && InFlight(w) && Accounted(w, sid, base)
    && (steps != [] ==> HeldAndAccountedAlong(Next(w, steps[0]), steps[1..], sid, base))
  }

  lemma NotHeldAtOnce(w: World, steps: seq<Step>, sid: string, base: nat)
    requires CapacityOk(w.rooms.info) && Possible(w, steps) && !(InFlight(w) && Accounted(w, sid, base))
    ensures !HeldAndAccountedAlong(w, steps, sid, base)
  {
  }

  /** From the start of a run to its end a server's load is its base plus the slots held by attempts in flight plus
      the players of its results, and nobody else holds slots, exactly when no step sets the load to another and
      no release of the run fails. */
  lemma {:induction false} HeldAndAccountedAlongExactlyWhen(w: World, steps: seq<Step>, sid: string, base: nat)
    requires Inv(w) && Possible(w, steps) && InFlight(w) && Accounted(w, sid, base)
    ensures HeldAndAccountedAlong(w, steps, sid, base)
       <==> NeverResets(w, steps, sid) && forall k | k in steps :: !LeaksSlots(k)
    decreases |steps|
  {
    AccountedIsRegistered(w, sid, base);
    if steps != [] {
      hide Next, StoreOk, ResultsOk, AttemptOk, Later, Accounted, InFlight, ResetsLoad, LeaksSlots;
      var k, r := steps[0], Next(w, steps[0]);
      StepKeepsInv(w, k);
      StepKeepsAccountExactlyWhen(w, k, sid, base);
      InFlightKeptExactlyWhen(w, k);
      assert steps == [k] + steps[1..];
      if InFlight(r) && Accounted(r, sid, base) {
        HeldAndAccountedAlongExactlyWhen(r, steps[1..], sid, base);
      } else {
        NotHeldAtOnce(r, steps[1..], sid, base);
      }
    }
  }

  lemma {:induction false} HeldAndAccountedAtTheEnd(w: World, steps: seq<Step>, sid: string, base: nat)
    requires CapacityOk(w.rooms.info) && Possible(w, steps) && HeldAndAccountedAlong(w, steps, sid, base)
    ensures InFlight(After(w, steps)) && Accounted(After(w, steps), sid, base)
    decreases |steps|
  {
    if steps != [] {
      hide Next, Accounted, InFlight;
      HeldAndAccountedAtTheEnd(Next(w, steps[0]), steps[1..], sid, base);
    }
  }

  /** What is left of the account after such a run: the attempts in flight, and without any, the results alone. */
  lemma LoadIsHeldAndPlayed(w: World, steps: seq<Step>, sid: string, base: nat)
    requires Inv(w) && Possible(w, steps) && InFlight(w) && Accounted(w, sid, base)
    requires NeverResets(w, steps, sid) && forall k | k in steps :: !LeaksSlots(k)
    ensures
      var r := After(w, steps);
      && sid in r.rooms.info
      && r.rooms.info[sid].load == base + SlotsOn(HeldSlots(r.attempts), sid) + SlotsOn(Played(r.store.results), sid)
      && (r.attempts == map[] ==> r.rooms.info[sid].load == base + SlotsOn(Played(r.store.results), sid))
  {
    RunIsSafe(w, steps);
    HeldAndAccountedAlongExactlyWhen(w, steps, sid, base);
    HeldAndAccountedAtTheEnd(w, steps, sid, base);
    ReservedAreHeld(After(w, steps));
  }
}
