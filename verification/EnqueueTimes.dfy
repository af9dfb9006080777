/** The order of the pool over whole runs: every pool score carries the time of its player's last enqueue. */
module EnqueueTimes {
  import opened ZSets
  import opened MatchStore
  import opened RoomRegistry
  import opened PickAndSweep
  import opened MatchProtocol
  import opened MatchSafety
  import opened MatchOutcomes

  type Times = map<string, Stamp>

  /** Everyone in the pool was last enqueued when the history says. */
  ghost predicate TimesAre(s: Store, h: Times) {
    PoolStamped(s) && forall p | p in s.pool :: p in h && LastEnqueue(s, p) == h[p]
  }

  /** The players whom a requeue puts back, each at the clock reading of its own call. */
  function PutBackTimes(s: Store, players: seq<string>, stamps: seq<Stamp>, n: nat): Times
    requires n <= |players| <= |stamps|
  {
    if n == 0 then map[]
    else
      var h := PutBackTimes(s, players, stamps, n - 1);
      if players[n - 1] in s.playerTicket then h[players[n - 1] := stamps[n - 1]] else h
  }

  /** Whom a step enqueues, and when: a creation that succeeds its player, a requeue those whom it puts back. */
  function Enqueues(w: World, k: Step): Times
    requires Enabled(w, k)
  {
    match k
    case Create(t, stamp, fault) => if CreateSucceeds(w.store, t, fault) then map[t.player := stamp] else map[]
    case Requeue(m, stamps, fault) =>
      var players := w.attempts[m].players;
      PutBackTimes(w.store, players, stamps, RequeueReach(fault, |players|))
    case _ => map[]
  }

  lemma SmallerPoolTimes(s: Store, r: Store, h: Times)
    requires TimesAre(s, h) && forall p | p in r.pool :: p in s.pool && r.pool[p] == s.pool[p]
    ensures TimesAre(r, h)
  {
    hide Stamped;
  }

  lemma OneEnqueueTimes(s: Store, r: Store, h: Times, p: string, mmr: int, stamp: Stamp)
    requires TimesAre(s, h) && r.pool == s.pool[p := Composite(mmr, stamp)]
    ensures TimesAre(r, h[p := stamp])
  {
    EntryIs(mmr, stamp);
    hide Stamped, Composite;
  }

  lemma {:induction false} PutBackSetsTimes(s: Store, h: Times, players: seq<string>, stamps: seq<Stamp>, n: nat)
    requires KeysAgree(s) && TimesAre(s, h) && n <= |players| <= |stamps|
    ensures TimesAre(Requeued(s, players, stamps, n), h + PutBackTimes(s, players, stamps, n))
  {
    if n == 0 {
      assert h + map[] == h;
    } else {
      PutBackSetsTimes(s, h, players, stamps, n - 1);
      var p, t := players[n - 1], Requeued(s, players, stamps, n - 1);
      var g := PutBackTimes(s, players, stamps, n - 1);
      hide TimesAre, Composite;
      if p in s.playerTicket {
        OneEnqueueTimes(t, Requeued(s, players, stamps, n), h + g, p, s.tickets[s.playerTicket[p]].mmr, stamps[n - 1]);
        assert (h + g)[p := stamps[n - 1]] == h + g[p := stamps[n - 1]];
      }
    }
  }

  lemma CreatedSetsTimes(s: Store, t: Ticket, stamp: Stamp, fault: CreateFault, h: Times)
    requires TimesAre(s, h)
    ensures
      var enqueued: Times := if CreateSucceeds(s, t, fault) then map[t.player := stamp] else map[];
      TimesAre(Created(s, t, stamp, fault), h + enqueued)
  {
    hide TimesAre, Composite;
    if CreateSucceeds(s, t, fault) {
      OneEnqueueTimes(s, Created(s, t, stamp, fault), h, t.player, t.mmr, stamp);
      assert h[t.player := stamp] == h + map[t.player := stamp];
    } else {
      SmallerPoolTimes(s, Created(s, t, stamp, fault), h);
      assert h + map[] == h;
    }
  }

  lemma OtherStepsOnlyTakeOut(w: World, k: Step)
    requires StoreOk(w.store) && CapacityOk(w.rooms.info) && Enabled(w, k) && !k.Create? && !k.Requeue?
    ensures forall p | p in Next(w, k).store.pool :: p in w.store.pool && Next(w, k).store.pool[p] == w.store.pool[p]
  {
    hide StoreOk, Stored, Choice, Written, PickFrom, Released;
    if k.Cancel? || k.Sweep? {
      hide Next;
      ClosingStep(w, k);
    }
  }

  lemma StoreHasKeys(s: Store)
    requires StoreOk(s)
    ensures KeysAgree(s)
  {
  }

  /** A step sets the times of exactly those whom it enqueues. */
  lemma StepSetsTimes(w: World, k: Step, h: Times)
    requires StoreOk(w.store) && CapacityOk(w.rooms.info) && TimesAre(w.store, h) && Enabled(w, k)
    ensures TimesAre(Next(w, k).store, h + Enqueues(w, k))
  {
    hide TimesAre, StoreOk;
    if k.Create? {
      CreatedSetsTimes(w.store, k.ticket, k.stamp, k.createFault, h);
    } else if k.Requeue? {
      var players := w.attempts[k.matchId].players;
      assert KeysAgree(w.store) by {
        StoreHasKeys(w.store);
      }
      PutBackSetsTimes(w.store, h, players, k.stamps, RequeueReach(k.fault, |players|));
    } else {
      hide Next;
      OtherStepsOnlyTakeOut(w, k);
      SmallerPoolTimes(w.store, Next(w, k).store, h);
      assert h + map[] == h;
    }
  }

  /** The history of a run: the last enqueue of each player, over all creations and requeues. */
  ghost function TimesAfter(w: World, steps: seq<Step>, h: Times): Times
    requires CapacityOk(w.rooms.info) && Possible(w, steps)
    decreases |steps|
  {
    if steps == [] then h else TimesAfter(Next(w, steps[0]), steps[1..], h + Enqueues(w, steps[0]))
  }

  lemma {:induction false} RunSetsTimes(w: World, steps: seq<Step>, h: Times)
    requires Inv(w) && Possible(w, steps) && TimesAre(w.store, h)
    ensures TimesAre(After(w, steps).store, TimesAfter(w, steps, h))
    decreases |steps|
  {
    if steps != [] {
      hide Next, StoreOk, AttemptsOk, ResultsOk, TimesAre, Later, Enqueues;
      StepKeepsInv(w, steps[0]);
      StepSetsTimes(w, steps[0], h);
      RunSetsTimes(Next(w, steps[0]), steps[1..], h + Enqueues(w, steps[0]));
    }
  }

  /** After every run the pool is made from ratings and the times of last enqueues, and a player who is queued and
      in the pool is there with the rating of the ticket. */
  lemma PoolIsItsHistory(steps: seq<Step>)
    requires Possible(EMPTY_WORLD, steps)
    ensures
      var s := After(EMPTY_WORLD, steps).store;
      && StoreOk(s) && s.pool == PoolOf(History(s))
      && forall p | p in s.pool ::
           && p in TimesAfter(EMPTY_WORLD, steps, map[])
           && History(s)[p].stamp == TimesAfter(EMPTY_WORLD, steps, map[])[p]
           && (p in s.playerTicket ==> History(s)[p].mmr == RatingOf(s, p))
  {
    EmptyWorldIsOk();
    assert TimesAre(EMPTY_WORLD.store, map[]);
    RunIsSafe(EMPTY_WORLD, steps);
    RunSetsTimes(EMPTY_WORLD, steps, map[]);
    var s := After(EMPTY_WORLD, steps).store;
    hide KeysAgree, ExpiryAgrees, PoolCarriesMmr, Stamped, Possible, After, TimesAfter;
    forall p | p in s.pool && p in s.playerTicket ensures History(s)[p].mmr == RatingOf(s, p) {
      HistoryHasRatings(s, p);
    }
  }

  /** The two tickets are rated at most 399 apart, and no waiting player is passed over who waits ahead. */
  ghost predicate PairedClosely(s: Store, center: int, a: string, b: string) {
    && StoreOk(s) && a in s.pool && b in s.pool && a in s.playerTicket && b in s.playerTicket
    && 0 <= RatingOf(s, b) - RatingOf(s, a) <= 399
    && forall q | q in WaitingIn(s, center - 200, center + 200) && q != a && q != b ::
         WaitsAhead(s, a, q) && WaitsAhead(s, b, q)
  }

  lemma PickPairsClosely(s: Store, center: int, a: string, b: string)
    requires StoreOk(s) && PickFrom(s.pool, center - 200, center + 200, 2) == [a, b]
    requires a in s.playerTicket && b in s.playerTicket
    ensures PairedClosely(s, center, a, b)
  {
    assert a in [a, b] && b in [a, b];
    PickIsFromPool(s.pool, center - 200, center + 200, 2);
    PairedTicketsAreClose(s, center, a, b);
    PickServesInOrder(s, center - 200, center + 200, 2);
    hide WaitsAhead, PooledIn, PickFrom, Stamped, KeysAgree, ExpiryAgrees, PoolCarriesMmr;
  }

  /** After every run, whatever other attempts have left in the pool, an attempt around a rating pairs closely. */
  lemma EveryRunPairsClosely(steps: seq<Step>, center: int, a: string, b: string)
    requires Possible(EMPTY_WORLD, steps)
    requires PickFrom(After(EMPTY_WORLD, steps).store.pool, center - 200, center + 200, 2) == [a, b]
    requires a in After(EMPTY_WORLD, steps).store.playerTicket && b in After(EMPTY_WORLD, steps).store.playerTicket
    ensures PairedClosely(After(EMPTY_WORLD, steps).store, center, a, b)
  {
    hide StoreOk, AttemptsOk, ResultsOk, Possible, After, PickFrom, PairedClosely;
    EmptyWorldIsOk();
    RunIsSafe(EMPTY_WORLD, steps);
    PickPairsClosely(After(EMPTY_WORLD, steps).store, center, a, b);
  }
}
