/** Safety of the match protocol over every run. */
module MatchSafety {
  import opened ZSets
  import opened MatchStore
  import opened RoomRegistry
  import opened PickAndSweep
  import opened MatchProtocol

  // ---------- the store's own indexes ----------

  lemma SweepReachesQueued(s: Store, now: int, limit: int, n: nat)
    requires StoreOk(s) && n <= |SweepIds(s, now, limit)|
    ensures forall id | id in Ids(SweepIds(s, now, limit)[..n]) :: IsQueued(s, id)
  {
    SweepTakesFirstDue(s, now, limit);
    assert forall id | id in SweepIds(s, now, limit)[..n] :: id in SweepIds(s, now, limit);
  }

  /** The tickets a cancellation or a sweep closes, and how. */
  function ClosedBy(w: World, k: Step): set<string>
    requires k.Cancel? || k.Sweep?
  {
    if k.Cancel? then (if IsQueued(w.store, k.ticketId) then {k.ticketId} else {})
    else var ids := SweepIds(w.store, k.at, k.limit); Ids(ids[..SweepReach(k.fault, |ids|)])
  }

  function ClosedAs(k: Step): Status {
    if k.Cancel? then Cancelled else TimedOut
  }

  lemma ClosingNothing(s: Store, status: Status, now: int)
    ensures Closed(s, {}, status, now) == s
  {
    assert PlayersOf(s, {}) == {};
  }

  lemma ClosingStep(w: World, k: Step)
    requires CapacityOk(w.rooms.info) && Enabled(w, k) && (k.Cancel? || k.Sweep?)
    ensures Next(w, k) == w.(store := Closed(w.store, ClosedBy(w, k), ClosedAs(k), k.at))
    ensures StoreOk(w.store) ==> forall id | id in ClosedBy(w, k) :: IsQueued(w.store, id)
  {
    hide StoreOk, Closed, SweepIds;
    if k.Cancel? {
      ClosingNothing(w.store, Cancelled, k.at);
    } else if StoreOk(w.store) {
      SweepReachesQueued(w.store, k.at, k.limit, SweepReach(k.fault, |SweepIds(w.store, k.at, k.limit)|));
    }
  }

  lemma StoreOkKept(w: World, k: Step)
    requires StoreOk(w.store) && CapacityOk(w.rooms.info) && Enabled(w, k)
    ensures StoreOk(Next(w, k).store)
  {
    hide StoreOk;
    if k.Cancel? || k.Sweep? {
      hide Next, Closed;
      ClosingStep(w, k);
      ClosedKeepsOk(w.store, ClosedBy(w, k), ClosedAs(k), k.at);
      return;
    }
    match k
    case Create(t, stamp, fault) => CreatedKeepsOk(w.store, t, stamp, fault);
    case Pick(m, lo, hi) => SmallerPoolKeepsOk(w.store, Ids(PickFrom(w.store.pool, lo, hi, PLAYERS_PER_ROOM)));
    case Complete(m, now, fault) =>
      CompletedKeepsOk(w.store, w.attempts[m].players, ResultFor(m, w.attempts[m].phase.assignment, now));
    case Requeue(m, stamps, fault) =>
      RequeuedPoolIs(w.store, w.attempts[m].players, stamps, RequeueReach(fault, |w.attempts[m].players|));
    case _ =>
  }

  // ---------- attempts and reservations ----------

  predicate IsAttemptStep(k: Step) {
    k.Pick? || k.Allocate? || k.Complete? || k.Release? || k.Requeue?
  }

  /** The attempt a step belongs to, if it belongs to one. */
  function AttemptOf(k: Step): string {
    if IsAttemptStep(k) then k.matchId else ""
  }

  /** A step of one attempt leaves every other attempt, reservation and result as it is. */
  ghost predicate Touches(w: World, r: World, m: string) {
    && (forall n | n != m ::
          (n in r.attempts <==> n in w.attempts) && (n in w.attempts ==> r.attempts[n] == w.attempts[n]))
    && (forall n | n != m ::
          (n in r.reserved <==> n in w.reserved) && (n in w.reserved ==> r.reserved[n] == w.reserved[n]))
    && (forall n | n != m :: (n in r.store.results <==> n in w.store.results)
                          && (n in w.store.results ==> r.store.results[n] == w.store.results[n]))
  }

  lemma StoreStepTouchesNoAttempt(w: World, k: Step)
    requires CapacityOk(w.rooms.info) && Enabled(w, k) && (k.Create? || k.Cancel? || k.Sweep?)
    ensures Next(w, k).store.results == w.store.results
    ensures Next(w, k) == w.(store := Next(w, k).store)
  {
  }

  lemma RoomStepTouchesNoAttempt(w: World, k: Step)
    requires CapacityOk(w.rooms.info) && Enabled(w, k) && (k.Register? || k.Beat?)
    ensures Next(w, k) == w.(rooms := Next(w, k).rooms)
  {
    hide Written;
  }

  lemma CompleteTouches(w: World, k: Step)
    requires CapacityOk(w.rooms.info) && Enabled(w, k) && k.Complete?
    ensures Touches(w, Next(w, k), k.matchId)
  {
  }

  lemma AllocateTouches(w: World, k: Step)
    requires CapacityOk(w.rooms.info) && Enabled(w, k) && k.Allocate?
    ensures Touches(w, Next(w, k), k.matchId)
  {
    hide Stored, Choice;
  }

  lemma OtherAttemptStepTouches(w: World, k: Step)
    requires CapacityOk(w.rooms.info) && Enabled(w, k) && (k.Pick? || k.Release? || k.Requeue?)
    ensures Touches(w, Next(w, k), k.matchId)
  {
    hide Released, RequeuedPool, PickFrom;
  }

  lemma StepTouches(w: World, k: Step)
    requires CapacityOk(w.rooms.info) && Enabled(w, k)
    ensures Touches(w, Next(w, k), AttemptOf(k))
  {
    hide Next;
    if k.Complete? {
      CompleteTouches(w, k);
    } else if k.Allocate? {
      AllocateTouches(w, k);
    } else if IsAttemptStep(k) {
      OtherAttemptStepTouches(w, k);
    } else if k.Register? || k.Beat? {
      RoomStepTouchesNoAttempt(w, k);
    } else {
      StoreStepTouchesNoAttempt(w, k);
    }
  }

  lemma OthersKept(w: World, r: World, m: string)
    requires AttemptsOk(w) && Touches(w, r, m)
    ensures forall n | n in r.attempts && n != m :: AttemptOk(r, n)
    ensures forall n | n in r.reserved && n != m :: n != "" && n !in r.store.results
  {
    forall n | n in r.attempts && n != m ensures AttemptOk(r, n) {
      assert AttemptOk(w, n);
    }
  }

  ghost predicate OwnOk(r: World, m: string) {
    && (m in r.attempts ==> AttemptOk(r, m))
    && (m in r.reserved ==> m != "" && m !in r.store.results)
  }

  lemma PickOwn(w: World, k: Step)
    requires AttemptsOk(w) && Enabled(w, k) && k.Pick?
    ensures OwnOk(Next(w, k), k.matchId)
  {
    PickIsFromPool(w.store.pool, k.minScore, k.maxScore, PLAYERS_PER_ROOM);
  }

  lemma AllocateOwn(w: World, k: Step)
    requires AttemptsOk(w) && Enabled(w, k) && k.Allocate?
    ensures OwnOk(Next(w, k), k.matchId)
  {
    assert AttemptOk(w, k.matchId);
  }

  lemma CompleteOwn(w: World, k: Step)
    requires AttemptsOk(w) && Enabled(w, k) && k.Complete?
    ensures OwnOk(Next(w, k), k.matchId)
  {
    assert AttemptOk(w, k.matchId);
  }

  lemma ReleaseOwn(w: World, k: Step)
    requires AttemptsOk(w) && Enabled(w, k) && k.Release?
    ensures OwnOk(Next(w, k), k.matchId)
  {
    assert AttemptOk(w, k.matchId);
  }

  lemma RequeueOwn(w: World, k: Step)
    requires AttemptsOk(w) && Enabled(w, k) && k.Requeue?
    ensures OwnOk(Next(w, k), k.matchId)
  {
  }

  lemma OtherStepOwn(w: World, k: Step)
    requires AttemptsOk(w) && Enabled(w, k) && !IsAttemptStep(k)
    ensures OwnOk(Next(w, k), "")
  {
    hide Next;
    if k.Register? || k.Beat? {
      RoomStepTouchesNoAttempt(w, k);
    } else {
      StoreStepTouchesNoAttempt(w, k);
    }
  }

  lemma AttemptsOkKept(w: World, k: Step)
    requires AttemptsOk(w) && Enabled(w, k)
    ensures AttemptsOk(Next(w, k))
  {
    hide Next, AttemptOk;
    match k {
      case Pick(_, _, _) => PickOwn(w, k);
      case Allocate(_, _, _, _, _) => AllocateOwn(w, k);
      case Complete(_, _, _) => CompleteOwn(w, k);
      case Release(_, _, _) => ReleaseOwn(w, k);
      case Requeue(_, _, _) => RequeueOwn(w, k);
      case _ => OtherStepOwn(w, k);
    }
    StepTouches(w, k);
    OthersKept(w, Next(w, k), AttemptOf(k));
  }

  // ---------- no queued player is lost ----------

  /** Whoever is queued afterwards is in the pool, or was queued before and did not leave the pool. */
  ghost predicate Covers(s: Store, r: Store) {
    forall p | p in r.playerTicket :: p in r.pool || (p in s.playerTicket && p !in s.pool)
  }

  lemma CreatedCovers(s: Store, t: Ticket, stamp: Stamp, fault: CreateFault)
    ensures Covers(s, Created(s, t, stamp, fault))
  {
  }

  lemma ClosedCovers(s: Store, ids: set<string>, status: Status, now: int)
    requires KeysAgree(s) && forall id | id in ids :: IsQueued(s, id)
    ensures Covers(s, Closed(s, ids, status, now))
  {
    assert forall id | id in ids :: IsQueued(s, id) && s.playerTicket[s.tickets[id].player] == id;
  }

  lemma StoreStepCovers(w: World, k: Step)
    requires StoreOk(w.store) && CapacityOk(w.rooms.info) && Enabled(w, k) && (k.Create? || k.Cancel? || k.Sweep?)
    ensures Covers(w.store, Next(w, k).store)
  {
    if k.Create? {
      CreatedCovers(w.store, k.ticket, k.stamp, k.createFault);
    } else {
      hide Next, ClosedBy, Closed;
      ClosingStep(w, k);
      ClosedCovers(w.store, ClosedBy(w, k), ClosedAs(k), k.at);
    }
  }

  lemma StillHeld(w: World, r: World, m: string, p: string)
    requires Held(w, p)
    requires forall n | n in w.attempts && n != m :: n in r.attempts && r.attempts[n].players == w.attempts[n].players
    requires m in w.attempts && p in w.attempts[m].players ==>
        m in r.attempts && r.attempts[m].players == w.attempts[m].players
    ensures Held(r, p)
  {
    var n :| n in w.attempts && p in w.attempts[n].players;
    assert n in r.attempts && p in r.attempts[n].players;
  }

  lemma PickLosesNobody(w: World, m: string, minScore: int, maxScore: int)
    requires NobodyLost(w) && m !in w.attempts
    ensures NobodyLost(PickNext(w, m, minScore, maxScore))
  {
    var r := PickNext(w, m, minScore, maxScore);
    forall p | p in r.store.playerTicket ensures p in r.store.pool || Held(r, p) {
      if p in w.store.pool && p !in r.store.pool {
        assert m in r.attempts && p in r.attempts[m].players;
      } else if Held(w, p) {
        StillHeld(w, r, m, p);
      }
    }
  }

  /** Whoever is still queued after a completion was not among the players it matched. */
  lemma CompletedQueue(s: Store, players: seq<string>, result: MatchResult)
    requires |StillQueued(s, players)| >= 2
    ensures
      var r := Completed(s, players, result);
      r.pool == s.pool && forall p | p in r.playerTicket :: p in s.playerTicket && p !in StillQueued(s, players)
  {
    hide StillQueued;
    StillQueuedMembers(s, players);
    var matched := StillQueued(s, players);
    assert forall p | p in matched && p in s.playerTicket :: s.playerTicket[p] in TicketIds(s, matched);
  }

  /** A completed match took both players out of the queue: they need not be held any more. */
  lemma CompleteLosesNobody(w: World, m: string, now: int, fault: Fault)
    requires NobodyLost(w) && m in w.attempts && AttemptOk(w, m) && w.attempts[m].phase.Placed?
    ensures NobodyLost(CompleteNext(w, m, now, fault))
  {
    hide Completed, StillQueued;
    var r := CompleteNext(w, m, now, fault);
    var Attempt(players, Placed(a)) := w.attempts[m];
    StillQueuedMembers(w.store, players);
    if m !in r.attempts {
      CompletedQueue(w.store, players, ResultFor(m, a, now));
    }
    forall p | p in r.store.playerTicket ensures p in r.store.pool || Held(r, p) {
      if Held(w, p) {
        StillHeld(w, r, m, p);
      }
    }
  }

  lemma DroppedIsLost(w: World, k: Step, i: nat)
    requires StoreOk(w.store) && AttemptsOk(w) && Enabled(w, k) && k.Requeue?
    requires
      var players := w.attempts[k.matchId].players;
      RequeueReach(k.fault, |players|) <= i < |players| && LeftTo(w, k.matchId, players[i])
    ensures !NobodyLost(Next(w, k))
  {
    var Requeue(m, stamps, fault) := k;
    assert AttemptOk(w, m);
    var players, r := w.attempts[m].players, Next(w, k);
    hide StoreOk, AttemptsOk, RequeuedPool;
    RequeuedPoolIs(w.store, players, stamps, RequeueReach(fault, |players|));
    assert players[i] in r.store.playerTicket && players[i] !in r.store.pool && !Held(r, players[i]);
  }

  lemma HeldElsewhere(w: World, m: string, n: nat, p: string)
    requires m in w.attempts && n <= |w.attempts[m].players| && p !in w.attempts[m].players[..n]
    requires forall i | n <= i < |w.attempts[m].players| :: !LeftTo(w, m, w.attempts[m].players[i])
    requires p in w.store.playerTicket && p !in w.store.pool && Held(w, p)
    ensures exists x :: x in w.attempts && p in w.attempts[x].players && x != m
  {
    var players := w.attempts[m].players;
    if p in players {
      assert players == players[..n] + players[n..];
      var i :| n <= i < |players| && players[i] == p;
      assert !LeftTo(w, m, p);
    }
  }

  lemma NotDroppedIsCovered(w: World, m: string, stamps: seq<Stamp>, fault: Fault, p: string)
    requires StoreOk(w.store) && m in w.attempts && |w.attempts[m].players| <= |stamps|
    requires
      var players := w.attempts[m].players;
      forall i | RequeueReach(fault, |players|) <= i < |players| :: !LeftTo(w, m, players[i])
    requires p in w.store.playerTicket && (p in w.store.pool || Held(w, p))
    ensures
      var r := RequeueNext(w, m, stamps, fault);
      p in r.store.pool || Held(r, p)
  {
    var players, r := w.attempts[m].players, RequeueNext(w, m, stamps, fault);
    var n := RequeueReach(fault, |players|);
    RequeuedPoolIs(w.store, players, stamps, n);
    hide StoreOk, RequeuedPool;
    if p !in w.store.pool && p !in players[..n] {
      var x :| x in w.attempts && p in w.attempts[x].players && x != m by {
        HeldElsewhere(w, m, n, p);
      }
      assert x in r.attempts && p in r.attempts[x].players;
    }
  }

  /** A requeue loses nobody exactly when every queued player it does not reach is in the pool again or held by
      another attempt. */
  lemma RequeueLosesNobodyExactlyWhen(w: World, k: Step)
    requires StoreOk(w.store) && AttemptsOk(w) && NobodyLost(w) && Enabled(w, k) && k.Requeue?
    ensures NobodyLost(Next(w, k)) <==> !Drops(w, k)
  {
    if Drops(w, k) {
      var players := w.attempts[k.matchId].players;
      var i :| RequeueReach(k.fault, |players|) <= i < |players| && LeftTo(w, k.matchId, players[i]);
      DroppedIsLost(w, k, i);
    } else {
      var r := Next(w, k);
      forall p | p in r.store.playerTicket ensures p in r.store.pool || Held(r, p) {
        NotDroppedIsCovered(w, k.matchId, k.stamps, k.fault, p);
      }
    }
  }

  lemma OtherStepLosesNobody(w: World, k: Step)
    requires StoreOk(w.store) && CapacityOk(w.rooms.info) && NobodyLost(w) && Enabled(w, k)
    requires !k.Pick? && !k.Complete? && !k.Requeue?
    ensures NobodyLost(Next(w, k))
  {
    hide StoreOk, Created, CancelNext, SweepNext, Stored, Choice, Written;
    var r := Next(w, k);
    if k.Create? || k.Cancel? || k.Sweep? {
      StoreStepCovers(w, k);
      StoreStepTouchesNoAttempt(w, k);
    }
    forall p | p in r.store.playerTicket ensures p in r.store.pool || Held(r, p) {
      if Held(w, p) {
        StillHeld(w, r, "", p);
      }
    }
  }

  /** Of all operations, only a requeue can lose a queued player, and exactly when it drops one. */
  lemma NobodyLostKeptExactlyWhen(w: World, k: Step)
    requires StoreOk(w.store) && AttemptsOk(w) && NobodyLost(w) && Enabled(w, k)
    ensures NobodyLost(Next(w, k)) <==> !Drops(w, k)
  {
    match k
    case Pick(m, lo, hi) => PickLosesNobody(w, m, lo, hi);
    case Complete(m, now, fault) =>
      assert AttemptOk(w, m);
      CompleteLosesNobody(w, m, now, fault);
    case Requeue(m, stamps, fault) => RequeueLosesNobodyExactlyWhen(w, k);
    case _ => OtherStepLosesNobody(w, k);
  }
}
