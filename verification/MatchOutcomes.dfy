/** What every run of the match protocol leaves behind: each ticket is consumed at most once, each result owns
    exactly its two tickets, and nothing settled ever changes. */
module MatchOutcomes {
  import opened ZSets
  import opened MatchStore
  import opened RoomRegistry
  import opened PickAndSweep
  import opened MatchProtocol
  import opened MatchSafety

  // ---------- finality ----------

  predicate SameTicket(t: Ticket, u: Ticket) {
    u == t.(status := u.status, matchId := u.matchId, roomId := u.roomId, updatedAt := u.updatedAt)
  }

  /** A ticket out of the queue is final, a queued one keeps its identity, and results are final. */
  ghost predicate Later(s: Store, r: Store) {
    && (forall id | id in s.tickets ::
          id in r.tickets && (s.tickets[id].status != Queued ==> r.tickets[id] == s.tickets[id]))
    && (forall id | id in s.tickets :: id in r.tickets && SameTicket(s.tickets[id], r.tickets[id]))
    && (forall m | m in s.results :: m in r.results && r.results[m] == s.results[m])
  }

  lemma SettledIsLater(s: Store, ids: set<string>, c: Change)
    requires forall id | id in ids :: IsQueued(s, id)
    ensures Later(s, Settled(s, ids, c))
  {
  }

  lemma KeyedTicketsAreQueued(s: Store, players: seq<string>)
    requires KeysAgree(s)
    ensures forall id | id in TicketIds(s, players) :: IsQueued(s, id)
  {
  }

  lemma CreatedIsLater(s: Store, t: Ticket, stamp: Stamp, fault: CreateFault)
    requires t.id !in s.tickets
    ensures Later(s, Created(s, t, stamp, fault))
  {
  }

  lemma ClosedIsLater(s: Store, ids: set<string>, status: Status, now: int)
    requires Later(s, Settled(s, ids, Close(status, now)))
    ensures Later(s, Closed(s, ids, status, now))
  {
  }

  lemma StoreStepIsLater(w: World, k: Step)
    requires StoreOk(w.store) && CapacityOk(w.rooms.info) && Enabled(w, k) && (k.Create? || k.Cancel? || k.Sweep?)
    ensures Later(w.store, Next(w, k).store)
  {
    hide StoreOk, Later;
    if k.Create? {
      CreatedIsLater(w.store, k.ticket, k.stamp, k.createFault);
    } else {
      hide Next, ClosedBy;
      ClosingStep(w, k);
      SettledIsLater(w.store, ClosedBy(w, k), Close(ClosedAs(k), k.at));
      ClosedIsLater(w.store, ClosedBy(w, k), ClosedAs(k), k.at);
    }
  }

  lemma CompleteIsLater(w: World, k: Step)
    requires StoreOk(w.store) && AttemptsOk(w) && Enabled(w, k) && k.Complete?
    ensures Later(w.store, Next(w, k).store)
  {
    var m := k.matchId;
    assert AttemptOk(w, m);
    var players := StillQueued(w.store, w.attempts[m].players);
    KeyedTicketsAreQueued(w.store, players);
    SettledIsLater(w.store, TicketIds(w.store, players), Match(m, w.attempts[m].phase.assignment.roomId, k.at));
  }

  /** The other steps touch neither tickets nor results. */
  lemma OtherStepTouchesNoTicket(w: World, k: Step)
    requires CapacityOk(w.rooms.info) && Enabled(w, k) && !(k.Create? || k.Cancel? || k.Sweep? || k.Complete?)
    ensures
      var r := Next(w, k);
      r.store.tickets == w.store.tickets && r.store.results == w.store.results && r.consumed == w.consumed
  {
    hide Stored, Choice, Written, RequeuedPool, PickFrom;
  }

  lemma StepIsLater(w: World, k: Step)
    requires StoreOk(w.store) && AttemptsOk(w) && Enabled(w, k)
    ensures Later(w.store, Next(w, k).store)
  {
    hide Next, StoreOk;
    if k.Create? || k.Cancel? || k.Sweep? {
      StoreStepIsLater(w, k);
    } else if k.Complete? {
      CompleteIsLater(w, k);
    } else {
      OtherStepTouchesNoTicket(w, k);
    }
  }

  // ---------- results and their tickets ----------

  /** Results and matched tickets are untouched, and whatever changed carries no match. */
  ghost predicate Frames(s: Store, r: Store) {
    && r.results == s.results
    && (forall id | id in s.tickets && s.tickets[id].status == Matched ::
          id in r.tickets && r.tickets[id] == s.tickets[id])
    && (forall id | id in r.tickets ::
          || (id in s.tickets && r.tickets[id] == s.tickets[id])
          || (r.tickets[id].status != Matched && r.tickets[id].matchId == ""))
  }

  lemma FramesKeepResults(w: World, r: World)
    requires ResultsOk(w) && Frames(w.store, r.store) && r.consumed == w.consumed
    ensures ResultsOk(r)
  {
    forall m | m in r.store.results ensures ResultOk(r, m) {
      assert ResultOk(w, m);
    }
  }

  lemma ClosedFrames(s: Store, ids: set<string>, status: Status, now: int)
    requires LeavesQueue(Close(status, now)) && forall id | id in ids :: IsQueued(s, id) && s.tickets[id].matchId == ""
    ensures Frames(s, Closed(s, ids, status, now))
  {
  }

  lemma CreatedFrames(s: Store, t: Ticket, stamp: Stamp, fault: CreateFault)
    requires t.id !in s.tickets && t.status == Queued && t.matchId == ""
    ensures Frames(s, Created(s, t, stamp, fault))
  {
  }

  lemma StoreStepFrames(w: World, k: Step)
    requires StoreOk(w.store) && CapacityOk(w.rooms.info) && ResultsOk(w) && Enabled(w, k)
        && (k.Create? || k.Cancel? || k.Sweep?)
    ensures Frames(w.store, Next(w, k).store)
  {
    hide StoreOk, Frames;
    if k.Create? {
      CreatedFrames(w.store, k.ticket, k.stamp, k.createFault);
    } else {
      hide Next, ClosedBy, Closed;
      ClosingStep(w, k);
      ClosedFrames(w.store, ClosedBy(w, k), ClosedAs(k), k.at);
    }
  }

  lemma BothStillQueued(s: Store, players: seq<string>)
    requires KeysAgree(s) && |players| == 2 && players[0] != players[1] && |StillQueued(s, players)| >= 2
    ensures StillQueued(s, players) == players && players[0] in s.playerTicket && players[1] in s.playerTicket
    ensures
      var t0, t1 := s.playerTicket[players[0]], s.playerTicket[players[1]];
      && t0 != t1 && IsQueued(s, t0) && IsQueued(s, t1)
      && s.tickets[t0].player == players[0] && s.tickets[t1].player == players[1] && TicketIds(s, players) == {t0, t1}
  {
    hide StillQueued;
    StillQueuedMembers(s, players);
    assert players == [players[0], players[1]];
    assert players[0] in players && players[1] in players;
  }

  /** What a successful completion does to the tickets. */
  lemma CompletedTickets(s: Store, players: seq<string>, result: MatchResult)
    requires StoreOk(s) && |players| == 2 && players[0] != players[1] && |StillQueued(s, players)| >= 2
    ensures StillQueued(s, players) == players && players[0] in s.playerTicket && players[1] in s.playerTicket
    ensures
      var t0, t1 := s.playerTicket[players[0]], s.playerTicket[players[1]];
      var r := Completed(s, players, result);
      && t0 != t1 && IsQueued(s, t0) && IsQueued(s, t1)
      && s.tickets[t0].player == players[0] && s.tickets[t1].player == players[1]
      && r.tickets == s.tickets[t0 := Apply(Match(result.matchId, result.roomId, result.createdAt), s.tickets[t0])]
                               [t1 := Apply(Match(result.matchId, result.roomId, result.createdAt), s.tickets[t1])]
      && r.results == s.results[result.matchId := result.(players := players)]
  {
    assert KeysAgree(s);
    hide StoreOk, KeysAgree, StillQueued, TicketIds;
    BothStillQueued(s, players);
  }

  /** The world after match `m` has consumed tickets `t0` and `t1`. */
  ghost predicate Consumes(w: World, r: World, m: string, t0: string, t1: string, c: Change) {
    && m != "" && m !in w.store.results && c.Match? && c.matchId == m
    && t0 != t1 && IsQueued(w.store, t0) && IsQueued(w.store, t1)
    && w.store.tickets[t0].player != w.store.tickets[t1].player
    && r.store.tickets == w.store.tickets[t0 := Apply(c, w.store.tickets[t0])][t1 := Apply(c, w.store.tickets[t1])]
    && (exists result: MatchResult ::
          && r.store.results == w.store.results[m := result]
          && result.matchId == m && result.status == Matched && result.roomId == c.roomId
          && result.players == [w.store.tickets[t0].player, w.store.tickets[t1].player])
    && r.consumed == w.consumed[m := [t0, t1]]
  }

  lemma OwnResult(w: World, r: World, m: string, t0: string, t1: string, c: Change)
    requires Consumes(w, r, m, t0, t1, c)
    ensures m in r.store.results && ResultOk(r, m)
  {
    assert m in r.store.results;
    assert IsConsumed(r, m, 0) && IsConsumed(r, m, 1);
  }

  lemma OlderResult(w: World, r: World, m: string, t0: string, t1: string, c: Change, n: string)
    requires Consumes(w, r, m, t0, t1, c) && n in w.store.results && ResultOk(w, n)
    ensures n in r.store.results && ResultOk(r, n)
  {
    assert IsConsumed(w, n, 0) && IsConsumed(w, n, 1);
  }

  lemma NewResult(w: World, r: World, m: string, t0: string, t1: string, c: Change)
    requires ResultsOk(w) && Consumes(w, r, m, t0, t1, c)
    ensures ResultsOk(r)
  {
    hide ResultOk;
    forall n | n in r.store.results ensures ResultOk(r, n) {
      if n == m {
        OwnResult(w, r, m, t0, t1, c);
      } else {
        OlderResult(w, r, m, t0, t1, c, n);
      }
    }
    assert [t0, t1][0] == t0 && [t0, t1][1] == t1;
  }

  lemma CompleteKeepsResults(w: World, m: string, now: int, fault: Fault)
    requires StoreOk(w.store) && ResultsOk(w) && m in w.attempts && AttemptOk(w, m) && w.attempts[m].phase.Placed?
    ensures ResultsOk(CompleteNext(w, m, now, fault))
  {
    hide StoreOk, ResultsOk, Settled;
    var Attempt(players, Placed(a)) := w.attempts[m];
    var r := CompleteNext(w, m, now, fault);
    if CompleteErrs(w.store, players, fault) || |StillQueued(w.store, players)| < 2 {
      FramesKeepResults(w, r);
    } else {
      CompletedTickets(w.store, players, ResultFor(m, a, now));
      var t0, t1 := w.store.playerTicket[players[0]], w.store.playerTicket[players[1]];
      assert r.consumed[m] == [t0, t1];
      NewResult(w, r, m, t0, t1, Match(m, a.roomId, now));
    }
  }

  lemma ResultsOkKept(w: World, k: Step)
    requires StoreOk(w.store) && AttemptsOk(w) && ResultsOk(w) && Enabled(w, k)
    ensures ResultsOk(Next(w, k))
  {
    hide StoreOk, CompleteNext, ResultsOk;
    if k.Complete? {
      assert AttemptOk(w, k.matchId);
      CompleteKeepsResults(w, k.matchId, k.at, k.fault);
    } else {
      hide Next;
      if k.Create? || k.Cancel? || k.Sweep? {
        StoreStepFrames(w, k);
        StoreStepTouchesNoAttempt(w, k);
      } else {
        OtherStepTouchesNoTicket(w, k);
      }
      FramesKeepResults(w, Next(w, k));
    }
  }

  // ---------- whole runs ----------

  lemma RunCons(w: World, k: Step, rest: seq<Step>)
    requires CapacityOk(w.rooms.info) && Enabled(w, k) && Possible(Next(w, k), rest)
    ensures Possible(w, [k] + rest) && After(w, [k] + rest) == After(Next(w, k), rest)
  {
    hide Next;
    assert ([k] + rest)[1..] == rest;
  }

  lemma EmptyWorldIsOk()
    ensures Inv(EMPTY_WORLD)
  {
  }

  lemma StepKeepsInv(w: World, k: Step)
    requires Inv(w) && Enabled(w, k)
    ensures Inv(Next(w, k)) && Later(w.store, Next(w, k).store)
  {
    hide Next, StoreOk, ResultsOk, Later;
    StoreOkKept(w, k);
    AttemptsOkKept(w, k);
    ResultsOkKept(w, k);
    StepIsLater(w, k);
  }

  lemma LaterTransitive(s: Store, t: Store, r: Store)
    requires Later(s, t) && Later(t, r)
    ensures Later(s, r)
  {
  }

  lemma LaterReflexive(s: Store)
    ensures Later(s, s)
  {
  }

  /** Every run keeps all invariants, and never revises a ticket that has left the queue or a result. */
  lemma {:induction false} RunIsSafe(w: World, steps: seq<Step>)
    requires Inv(w) && Possible(w, steps)
    ensures Inv(After(w, steps)) && Later(w.store, After(w, steps).store)
    decreases |steps|
  {
    hide Next, StoreOk, ResultsOk, Later;
    if steps == [] {
      assert Later(w.store, w.store) by {
        LaterReflexive(w.store);
      }
    } else {
      var r := Next(w, steps[0]);
      StepKeepsInv(w, steps[0]);
      RunIsSafe(r, steps[1..]);
      LaterTransitive(w.store, r.store, After(w, steps).store);
    }
  }

  // ---------- what that says about players and tickets ----------

  lemma NotLostAtOnce(w: World, steps: seq<Step>)
    requires CapacityOk(w.rooms.info) && Possible(w, steps) && !NobodyLost(w)
    ensures !NobodyLostAlong(w, steps)
  {
  }

  /** However the callers interleave, from the start of a run to its end no queued player is lost, exactly when
      no requeue of the run drops one. */
  lemma {:induction false} NobodyLostAlongExactlyWhen(w: World, steps: seq<Step>)
    requires Inv(w) && NobodyLost(w) && Possible(w, steps)
    ensures NobodyLostAlong(w, steps) <==> NeverDrops(w, steps)
    decreases |steps|
  {
    if steps != [] {
      hide Next, NobodyLost, Drops, Later, StoreOk, AttemptsOk, ResultsOk;
      NobodyLostKeptExactlyWhen(w, steps[0]);
      StepKeepsInv(w, steps[0]);
      if NobodyLost(Next(w, steps[0])) {
        NobodyLostAlongExactlyWhen(Next(w, steps[0]), steps[1..]);
      } else {
        NotLostAtOnce(Next(w, steps[0]), steps[1..]);
      }
    }
  }

  lemma {:induction false} WorkingRequeuesNeverDrop(w: World, steps: seq<Step>)
    requires Inv(w) && Possible(w, steps)
    requires forall k | k in steps && k.Requeue? :: k.fault.None?
    ensures NeverDrops(w, steps)
    decreases |steps|
  {
    if steps != [] {
      assert steps[0] in steps && forall k | k in steps[1..] :: k in steps;
      hide Next, Later, StoreOk, AttemptsOk, ResultsOk;
      StepKeepsInv(w, steps[0]);
      WorkingRequeuesNeverDrop(Next(w, steps[0]), steps[1..]);
    }
  }

  lemma {:induction false} NobodyLostAtTheEnd(w: World, steps: seq<Step>)
    requires CapacityOk(w.rooms.info) && Possible(w, steps) && NobodyLostAlong(w, steps)
    ensures NobodyLost(After(w, steps))
    decreases |steps|
  {
    if steps != [] {
      hide Next, NobodyLost;
      NobodyLostAtTheEnd(Next(w, steps[0]), steps[1..]);
    }
  }

  /** Where no requeue fails, the player of every queued ticket is in the pool or held by an attempt in flight
      after every run; with none in flight, in the pool. */
  lemma NoQueuedPlayerIsLost(w: World, steps: seq<Step>)
    requires Inv(w) && NobodyLost(w) && Possible(w, steps)
    requires forall k | k in steps && k.Requeue? :: k.fault.None?
    ensures
      var r := After(w, steps);
      && (forall id | IsQueued(r.store, id) ::
            r.store.tickets[id].player in r.store.pool || Held(r, r.store.tickets[id].player))
      && (r.attempts == map[] ==> forall id | IsQueued(r.store, id) :: r.store.tickets[id].player in r.store.pool)
  {
    RunIsSafe(w, steps);
    WorkingRequeuesNeverDrop(w, steps);
    NobodyLostAlongExactlyWhen(w, steps);
    NobodyLostAtTheEnd(w, steps);
    var r := After(w, steps);
    assert forall id | IsQueued(r.store, id) :: r.store.tickets[id].player in r.store.playerTicket;
  }

  /** The tickets of one result. */
  ghost predicate OwnsItsTickets(w: World, m: string)
    requires m in w.store.results
  {
    var result := w.store.results[m];
    && |result.players| == 2 && result.players[0] != result.players[1]
    && m in w.consumed && |w.consumed[m]| == 2
    && (forall id :: id in w.store.tickets && w.store.tickets[id].matchId == m <==> id in w.consumed[m])
    && forall i | 0 <= i < 2 ::
         && w.consumed[m][i] in w.store.tickets
         && var t := w.store.tickets[w.consumed[m][i]];
            t.status == Matched && t.player == result.players[i] && t.roomId == result.roomId
  }

  lemma ResultOwnsItsTickets(w: World, m: string)
    requires ResultsOk(w) && m in w.store.results
    ensures OwnsItsTickets(w, m)
  {
    assert ResultOk(w, m) && IsConsumed(w, m, 0) && IsConsumed(w, m, 1);
    assert w.consumed[m] == [w.consumed[m][0], w.consumed[m][1]];
  }

  /** The tickets that carry a match id are exactly the two of that match's result, one for each of its two
      distinct players, in the result's room; and every matched ticket belongs to a result in this way. */
  lemma EachTicketConsumedOnce(w: World)
    requires Inv(w)
    ensures forall m | m in w.store.results :: OwnsItsTickets(w, m)
    ensures forall id | id in w.store.tickets && w.store.tickets[id].status == Matched ::
              w.store.tickets[id].matchId in w.store.results
  {
    hide StoreOk, AttemptsOk, ResultOk, OwnsItsTickets;
    forall m | m in w.store.results ensures OwnsItsTickets(w, m) {
      ResultOwnsItsTickets(w, m);
    }
  }

  /** After every possible run from an empty store and registry: the invariants hold, and no queued player is
      lost if no requeue dropped one. */
  lemma EveryRunFromEmpty(steps: seq<Step>)
    requires Possible(EMPTY_WORLD, steps)
    ensures Inv(After(EMPTY_WORLD, steps))
    ensures forall m | m in After(EMPTY_WORLD, steps).store.results :: OwnsItsTickets(After(EMPTY_WORLD, steps), m)
    ensures NeverDrops(EMPTY_WORLD, steps) ==> NobodyLost(After(EMPTY_WORLD, steps))
  {
    EmptyWorldIsOk();
    hide Next, StoreOk, AttemptsOk, ResultsOk, OwnsItsTickets;
    RunIsSafe(EMPTY_WORLD, steps);
    EachTicketConsumedOnce(After(EMPTY_WORLD, steps));
    if NeverDrops(EMPTY_WORLD, steps) {
      NobodyLostAlongExactlyWhen(EMPTY_WORLD, steps);
      NobodyLostAtTheEnd(EMPTY_WORLD, steps);
    }
  }
}
