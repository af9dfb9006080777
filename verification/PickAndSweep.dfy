/** What the atomic pick and the timeout sweep mean for players and tickets. */
module PickAndSweep {
  import opened ZSets
  import opened MatchStore

  // ---------- the pick is sort-and-take by (rating, last enqueue time, player id) ----------

  datatype Entry = Entry(mmr: int, stamp: Stamp)

  function PoolOf(entries: map<string, Entry>): ZSet {
    map p | p in entries :: Composite(entries[p].mmr, entries[p].stamp)
  }

  /** The order in which waiting players are served. */
  predicate ServedBefore(entries: map<string, Entry>, a: string, b: string)
    requires a in entries && b in entries
  {
    var x, y := entries[a], entries[b];
    x.mmr < y.mmr || (x.mmr == y.mmr && (x.stamp < y.stamp || (x.stamp == y.stamp && StringLe(a, b))))
  }

  function InWindow(entries: map<string, Entry>, minScore: int, maxScore: int): set<string> {
    set p | p in entries && WindowLow(minScore, maxScore) <= entries[p].mmr < WindowHigh(minScore, maxScore)
  }

  lemma CompositeWithin(e: Entry, lo: int, hi: int)
    ensures lo as real <= Composite(e.mmr, e.stamp) <= hi as real <==> lo <= e.mmr < hi
  {
    CompositeCarries(e.mmr, e.stamp);
    if lo > e.mmr {
      assert lo as real >= (e.mmr + 1) as real;
    } else {
      assert lo as real <= e.mmr as real;
    }
    if e.mmr < hi {
      assert (e.mmr + 1) as real <= hi as real;
    } else {
      assert e.mmr as real >= hi as real;
    }
  }

  lemma QualifyingIsInWindow(entries: map<string, Entry>, minScore: int, maxScore: int)
    ensures Qualifying(PoolOf(entries), minScore, maxScore).Keys == InWindow(entries, minScore, maxScore)
  {
    forall p | p in entries
      ensures p in Qualifying(PoolOf(entries), minScore, maxScore) <==> p in InWindow(entries, minScore, maxScore)
    {
      CompositeWithin(entries[p], WindowLow(minScore, maxScore), WindowHigh(minScore, maxScore));
    }
  }

  lemma RankedIsServedBefore(entries: map<string, Entry>, z: ZSet, a: string, b: string)
    requires a in z && b in z && a in entries && b in entries
    requires z[a] == PoolOf(entries)[a] && z[b] == PoolOf(entries)[b]
    ensures Ranked(z, a, b) <==> ServedBefore(entries, a, b)
  {
    CompositeOrder(entries[a].mmr, entries[a].stamp, entries[b].mmr, entries[b].stamp);
  }

  /** All or nothing: fewer than `count` players in the window yields nobody; otherwise exactly the first
      `count` of them are taken, in serving order, ahead of everyone in the window who is left. */
  lemma PickIsSortAndTake(entries: map<string, Entry>, minScore: int, maxScore: int, count: nat)
    ensures
      var window := InWindow(entries, minScore, maxScore);
      var r := PickFrom(PoolOf(entries), minScore, maxScore, count);
      && (|window| < count ==> r == [])
      && (|window| >= count ==> |r| == count)
      && (forall p | p in r :: p in window)
      && (forall i, j | 0 <= i < j < |r| ::
          r[i] != r[j] && r[i] in entries && r[j] in entries && ServedBefore(entries, r[i], r[j]))
      && (r != [] ==> forall p, q | p in r && q in window && q !in r :: p in entries && ServedBefore(entries, p, q))
  {
    var z := Qualifying(PoolOf(entries), minScore, maxScore);
    QualifyingIsInWindow(entries, minScore, maxScore);
    var window := InWindow(entries, minScore, maxScore);
    assert |z| == |z.Keys| == |window|;
    TakeAreFirst(z, count);
    var r := PickFrom(PoolOf(entries), minScore, maxScore, count);
    forall a, b | a in z && b in z ensures Ranked(z, a, b) <==> ServedBefore(entries, a, b) {
      RankedIsServedBefore(entries, z, a, b);
    }
    forall p, q | p in r && q in window && q !in r ensures p in entries && ServedBefore(entries, p, q) {
      var i :| 0 <= i < |r| && r[i] == p;
      assert q in z && Ranked(z, r[i], q);
    }
  }

  /** What the truncating centre and half-width do to the requested window. */
  lemma WindowArithmetic(minScore: int, maxScore: int)
    requires minScore <= maxScore
    ensures minScore <= WindowLow(minScore, maxScore) <= minScore + 1
    ensures maxScore - 1 <= WindowHigh(minScore, maxScore) <= maxScore
    ensures (maxScore - minScore) % 2 == 0 ==>
        WindowLow(minScore, maxScore) == minScore && WindowHigh(minScore, maxScore) == maxScore
    ensures (maxScore - minScore) % 2 == 1 && minScore + maxScore >= 0 ==>
        WindowLow(minScore, maxScore) == minScore && WindowHigh(minScore, maxScore) == maxScore - 1
    ensures (maxScore - minScore) % 2 == 1 && minScore + maxScore < 0 ==>
        WindowLow(minScore, maxScore) == minScore + 1 && WindowHigh(minScore, maxScore) == maxScore
  {
    var s, d := minScore + maxScore, maxScore - minScore;
    assert s == d + 2 * minScore;
    assert s % 2 == d % 2;
  }

  /** Nobody is picked from outside [min, max - 1]; everybody in [min + 1, max - 2] is eligible. */
  lemma PickedRatings(entries: map<string, Entry>, minScore: int, maxScore: int, count: nat)
    requires minScore <= maxScore
    ensures forall p | p in PickFrom(PoolOf(entries), minScore, maxScore, count) ::
              p in entries && minScore <= entries[p].mmr <= maxScore - 1
    ensures forall p | p in entries && minScore + 1 <= entries[p].mmr <= maxScore - 2 ::
              p in InWindow(entries, minScore, maxScore)
  {
    PickIsSortAndTake(entries, minScore, maxScore, count);
    WindowArithmetic(minScore, maxScore);
  }

  /** The two players that TryCompleteMatch pairs around a rating are at most 399 apart. */
  lemma PairedRatingsAreClose(entries: map<string, Entry>, center: int, a: string, b: string)
    requires PickFrom(PoolOf(entries), center - 200, center + 200, 2) == [a, b]
    ensures a in entries && b in entries && 0 <= entries[b].mmr - entries[a].mmr <= 399
  {
    var r := PickFrom(PoolOf(entries), center - 200, center + 200, 2);
    assert r[0] == a && r[1] == b;
    assert a in entries && b in entries && entries[a].mmr <= entries[b].mmr by {
      PickIsSortAndTake(entries, center - 200, center + 200, 2);
      assert ServedBefore(entries, r[0], r[1]);
    }
    assert center - 200 <= entries[a].mmr && entries[b].mmr <= center + 199 by {
      PickedRatings(entries, center - 200, center + 200, 2);
      assert a in r && b in r;
    }
  }

  // ---------- the pick on a store: the ratings of tickets and the times of last enqueues ----------

  ghost function EntryAt(score: real): (e: Entry)
    requires Stamped(score)
    ensures score == Composite(e.mmr, e.stamp)
  {
    var mmr, stamp: Stamp :| score == Composite(mmr, stamp);
    Entry(mmr, stamp)
  }

  lemma EntryIs(mmr: int, stamp: Stamp)
    ensures Stamped(Composite(mmr, stamp)) && EntryAt(Composite(mmr, stamp)) == Entry(mmr, stamp)
  {
    var e := EntryAt(Composite(mmr, stamp));
    CompositeOrder(e.mmr, e.stamp, mmr, stamp);
  }

  /** Who was enqueued with which rating and when, for everyone in the pool: it is what the pool was made from. */
  ghost function History(s: Store): (h: map<string, Entry>)
    requires PoolStamped(s)
    ensures PoolOf(h) == s.pool
  {
    map p | p in s.pool :: EntryAt(s.pool[p])
  }

  ghost function LastEnqueue(s: Store, p: string): Stamp
    requires PoolStamped(s) && p in s.pool
  {
    EntryAt(s.pool[p]).stamp
  }

  /** The rating of the player's queued ticket. */
  function RatingOf(s: Store, p: string): int
    requires p in s.playerTicket && s.playerTicket[p] in s.tickets
  {
    s.tickets[s.playerTicket[p]].mmr
  }

  lemma HistoryHasRatings(s: Store, p: string)
    requires StoreOk(s) && p in s.pool && p in s.playerTicket
    ensures p in History(s) && History(s)[p] == Entry(RatingOf(s, p), LastEnqueue(s, p))
  {
    var e := EntryAt(s.pool[p]);
    CompositeCarries(e.mmr, e.stamp);
    CarriesOne(s.pool[p], e.mmr, RatingOf(s, p));
  }

  /** Lower rated ticket first, then who was enqueued last the longer ago, then the smaller id. */
  ghost predicate WaitsAhead(s: Store, p: string, q: string)
    requires StoreOk(s) && p in s.pool && p in s.playerTicket && q in s.pool && q in s.playerTicket
  {
    var m, n, x, y := RatingOf(s, p), RatingOf(s, q), LastEnqueue(s, p), LastEnqueue(s, q);
    m < n || (m == n && (x < y || (x == y && StringLe(p, q))))
  }

  lemma OrderOfStore(s: Store, p: string, q: string)
    requires StoreOk(s) && p in s.pool && p in s.playerTicket && q in s.pool && q in s.playerTicket
    ensures ServedBefore(History(s), p, q) <==> WaitsAhead(s, p, q)
  {
    hide StoreOk, Stamped;
    HistoryHasRatings(s, p);
    HistoryHasRatings(s, q);
  }

  /** The pool members rated inside the window, an entry left over by a completion among them. */
  ghost function PooledIn(s: Store, minScore: int, maxScore: int): set<string>
    requires StoreOk(s)
  {
    InWindow(History(s), minScore, maxScore)
  }

  /** The queued players in the pool whose tickets are rated inside the window. */
  ghost function WaitingIn(s: Store, minScore: int, maxScore: int): set<string>
    requires StoreOk(s)
  {
    set p | p in s.pool && p in s.playerTicket
        && WindowLow(minScore, maxScore) <= RatingOf(s, p) < WindowHigh(minScore, maxScore)
  }

  lemma KeyedInTable(s: Store, p: string)
    requires StoreOk(s) && p in s.playerTicket
    ensures s.playerTicket[p] in s.tickets
  {
  }

  lemma WaitingArePooled(s: Store, minScore: int, maxScore: int)
    requires StoreOk(s)
    ensures forall p | p in s.pool && p in s.playerTicket ::
              p in PooledIn(s, minScore, maxScore) <==> p in WaitingIn(s, minScore, maxScore)
    ensures WaitingIn(s, minScore, maxScore) <= PooledIn(s, minScore, maxScore)
  {
    hide KeysAgree, ExpiryAgrees, PoolCarriesMmr, Stamped, WindowLow, WindowHigh;
    forall p | p in s.pool && p in s.playerTicket
      ensures p in History(s) && s.playerTicket[p] in s.tickets && History(s)[p].mmr == RatingOf(s, p)
    {
      HistoryHasRatings(s, p);
      KeyedInTable(s, p);
    }
  }

  lemma PickIsFromPool(pool: ZSet, minScore: int, maxScore: int, count: nat)
    ensures
      var r := PickFrom(pool, minScore, maxScore, count);
      && (r == [] || |r| == count)
      && (forall p | p in r :: p in pool)
      && (forall i, j | 0 <= i < j < |r| :: r[i] != r[j])
  {
    TakeAreFirst(Qualifying(pool, minScore, maxScore), count);
  }

  /** In any store the pick takes nobody if the window holds fewer than `count` pool members, and otherwise
      `count` of them; those with tickets are rated inside the window and in serving order, and no waiting player
      is passed over who waits ahead of one of them. */
  lemma PickServesInOrder(s: Store, minScore: int, maxScore: int, count: nat)
    requires StoreOk(s)
    ensures
      var pooled, waiting := PooledIn(s, minScore, maxScore), WaitingIn(s, minScore, maxScore);
      var r := PickFrom(s.pool, minScore, maxScore, count);
      && waiting <= pooled && |r| == (if |pooled| < count then 0 else count)
      && (forall p | p in r :: p in pooled && (p in s.playerTicket ==> p in waiting))
      && (forall p | p in waiting :: p in s.pool && p in s.playerTicket)
      && (forall i, j | 0 <= i < j < |r| :: r[i] != r[j])
      && (forall i, j | 0 <= i < j < |r| && r[i] in waiting && r[j] in waiting :: WaitsAhead(s, r[i], r[j]))
      && (r != [] ==> forall p, q | p in r && p in waiting && q in waiting && q !in r :: WaitsAhead(s, p, q))
  {
    var pooled, waiting := PooledIn(s, minScore, maxScore), WaitingIn(s, minScore, maxScore);
    var r := PickFrom(s.pool, minScore, maxScore, count);
    PickIsSortAndTake(History(s), minScore, maxScore, count);
    WaitingArePooled(s, minScore, maxScore);
    assert forall p | p in waiting :: p in s.pool && p in s.playerTicket;
    assert forall p | p in r :: p in s.pool by {
      PickIsFromPool(s.pool, minScore, maxScore, count);
    }
    hide StoreOk, Stamped, InWindow, WaitingIn, PickFrom, ServedBefore, WaitsAhead;
    forall p, q | p in waiting && q in waiting ensures ServedBefore(History(s), p, q) <==> WaitsAhead(s, p, q) {
      OrderOfStore(s, p, q);
    }
    assert forall i | 0 <= i < |r| :: r[i] in r;
  }

  /** With nothing left over in the pool, the pool members in the window are exactly the waiting players: those
      queued and held by no attempt whose tickets are rated inside it. */
  lemma NothingLeftOver(s: Store, held: set<string>, minScore: int, maxScore: int)
    requires AgreesExcept(s, held)
    ensures PooledIn(s, minScore, maxScore) == WaitingIn(s, minScore, maxScore)
    ensures forall p :: p in WaitingIn(s, minScore, maxScore) <==>
              && p in s.playerTicket && p !in held
              && WindowLow(minScore, maxScore) <= RatingOf(s, p) < WindowHigh(minScore, maxScore)
  {
    assert forall p | p in s.playerTicket :: s.playerTicket[p] in s.tickets;
    hide KeysAgree, ExpiryAgrees, PoolCarriesMmr, Stamped, WindowLow, WindowHigh;
    WaitingArePooled(s, minScore, maxScore);
    assert forall p :: p in s.pool <==> p in s.pool.Keys;
    assert forall p | p in PooledIn(s, minScore, maxScore) :: p in History(s) && p in s.pool;
  }

  /** Two players whom TryCompleteMatch picks around a rating have tickets rated at most 399 apart. */
  lemma PairedTicketsAreClose(s: Store, center: int, a: string, b: string)
    requires StoreOk(s) && PickFrom(s.pool, center - 200, center + 200, 2) == [a, b]
    requires a in s.playerTicket && b in s.playerTicket
    ensures center - 200 <= RatingOf(s, a) <= RatingOf(s, b) <= center + 199
  {
    var r := PickFrom(s.pool, center - 200, center + 200, 2);
    assert r[0] == a && r[1] == b && a in r && b in r;
    PickServesInOrder(s, center - 200, center + 200, 2);
    WindowArithmetic(center - 200, center + 200);
    assert WaitsAhead(s, r[0], r[1]);
  }

  // ---------- the pick as a step of the store ----------

  /** Picked players stay queued everywhere but in the pool. */
  lemma PickHolds(s: Store, held: set<string>, minScore: int, maxScore: int, count: nat)
    requires AgreesExcept(s, held)
    ensures
      var r := PickFrom(s.pool, minScore, maxScore, count);
      && AgreesExcept(Without(s, r), held + Ids(r))
      && Ids(r) <= s.playerTicket.Keys && Ids(r) !! held
  {
    var r := PickFrom(s.pool, minScore, maxScore, count);
    PickIsFromPool(s.pool, minScore, maxScore, count);
    SmallerPoolKeepsOk(s, Ids(r));
    assert Without(s, r).pool.Keys == s.pool.Keys - Ids(r);
    assert forall p | p in Ids(r) :: p in s.pool.Keys;
  }

  // ---------- the sweep ----------

  function AfterSweep(s: Store, now: int, limit: int): Store {
    Swept(s, SweepIds(s, now, limit), now)
  }

  /** The sweep takes the first min(limit, number due) expired queued tickets in order of expiry. */
  lemma SweepTakesFirstDue(s: Store, now: int, limit: int)
    requires StoreOk(s)
    ensures AreFirst(Due(s, now), SweepIds(s, now, limit), SweepLimit(limit))
    ensures forall id | id in SweepIds(s, now, limit) :: IsQueued(s, id) && s.tickets[id].expiresAt <= now
  {
    TakeAreFirst(Due(s, now), SweepLimit(limit));
    DueIsExpiredQueued(s, now);
  }

  /** The expired queued tickets. */
  function Expired(s: Store, now: int): set<string> {
    set id | id in s.tickets && s.tickets[id].status == Queued && s.tickets[id].expiresAt <= now
  }

  lemma DueIsExpired(s: Store, now: int)
    requires StoreOk(s)
    ensures Due(s, now).Keys == Expired(s, now) && |Due(s, now)| == |Expired(s, now)|
    ensures forall id | id in Due(s, now) :: id in s.tickets && Due(s, now)[id] == s.tickets[id].expiresAt as real
  {
    DueIsExpiredQueued(s, now);
    assert Due(s, now).Keys == Expired(s, now);
    assert |Due(s, now)| == |Due(s, now).Keys|;
  }

  /** What a sweep takes, in the fields of the tickets: as many expired queued tickets as the limit allows, 100 when
      none is given, and none that expires later than one it leaves. */
  lemma SweepInFields(s: Store, now: int, limit: int)
    requires StoreOk(s)
    ensures
      var l := if limit <= 0 then 100 else limit;
      var expired, ids := Expired(s, now), SweepIds(s, now, limit);
      && |ids| == (if |expired| < l then |expired| else l)
      && (forall i | 0 <= i < |ids| :: ids[i] in expired)
      && (forall i, j | 0 <= i < j < |ids| ::
            ids[i] != ids[j] && s.tickets[ids[i]].expiresAt <= s.tickets[ids[j]].expiresAt)
      && (forall i, id | 0 <= i < |ids| && id in expired && id !in ids ::
            s.tickets[ids[i]].expiresAt <= s.tickets[id].expiresAt)
  {
    var due, ids := Due(s, now), SweepIds(s, now, limit);
    DueIsExpired(s, now);
    SweepTakesFirstDue(s, now, limit);
    assert forall i | 0 <= i < |ids| :: ids[i] in ids;
    forall a, b | a in due && b in due && Ranked(due, a, b) ensures s.tickets[a].expiresAt <= s.tickets[b].expiresAt {
      assert due[a] <= due[b];
    }
    hide StoreOk, Ranked, SweepIds, Due;
  }

  lemma ClosedIsExact(s: Store, ids: set<string>, now: int)
    requires KeysAgree(s) && forall id | id in ids :: IsQueued(s, id)
    ensures Closed(s, ids, TimedOut, now).playerTicket == s.playerTicket - PlayersOf(s, ids)
  {
    var players := PlayersOf(s, ids);
    forall p | p in s.playerTicket ensures s.playerTicket[p] in ids <==> p in players {
      if p in players {
        var id :| id in ids && id in s.tickets && s.tickets[id].player == p;
        assert IsQueued(s, id);
      }
    }
  }

  /** It turns them into timed-out tickets, clears their player keys, pool and expiry entries, and touches
      nothing else. */
  lemma SweepIsExact(s: Store, now: int, limit: int)
    requires StoreOk(s)
    ensures
      var ids := SweepIds(s, now, limit);
      AfterSweep(s, now, limit) == s.(
        tickets := map id | id in s.tickets ::
            if id in Ids(ids) then s.tickets[id].(status := TimedOut, updatedAt := now) else s.tickets[id],
        playerTicket := s.playerTicket - PlayersOf(s, Ids(ids)),
        pool := s.pool - PlayersOf(s, Ids(ids)),
        expiry := s.expiry - Ids(ids))
  {
    var ids := Ids(SweepIds(s, now, limit));
    assert Closed(s, ids, TimedOut, now).playerTicket == s.playerTicket - PlayersOf(s, ids) by {
      SweepTakesFirstDue(s, now, limit);
      ClosedIsExact(s, ids, now);
    }
  }

  lemma SweptKeepsOk(s: Store, now: int, limit: int)
    requires StoreOk(s)
    ensures StoreOk(AfterSweep(s, now, limit))
  {
    ClosedKeepsOk(s, Ids(SweepIds(s, now, limit)), TimedOut, now);
  }

  lemma DueAfterSweep(s: Store, now: int, limit: int)
    ensures Due(AfterSweep(s, now, limit), now).Keys == Due(s, now).Keys - Ids(SweepIds(s, now, limit))
  {
  }

  lemma {:induction false} DistinctIds(ids: seq<string>)
    requires forall i, j | 0 <= i < j < |ids| :: ids[i] != ids[j]
    ensures |Ids(ids)| == |ids|
  {
    if ids != [] {
      var n := |ids| - 1;
      DistinctIds(ids[..n]);
      assert Ids(ids) == Ids(ids[..n]) + {ids[n]};
      assert ids[n] !in Ids(ids[..n]);
    }
  }

  function Minus(n: nat, l: nat): nat {
    if n <= l then 0 else n - l
  }

  lemma SweepShrinksDue(s: Store, now: int, limit: int)
    ensures |Due(AfterSweep(s, now, limit), now)| == Minus(|Due(s, now)|, SweepLimit(limit))
  {
    var ids, due := SweepIds(s, now, limit), Due(s, now);
    DueAfterSweep(s, now, limit);
    TakeAreFirst(due, SweepLimit(limit));
    DistinctIds(ids);
    assert |due.Keys - Ids(ids)| == |due.Keys| - |Ids(ids)| by {
      assert Ids(ids) <= due.Keys;
    }
  }

  /** The store after k sweeps at the same time with nothing arriving in between. */
  function Sweeps(s: Store, now: int, limit: int, k: nat): Store
    decreases k
  {
    if k == 0 then s else Sweeps(AfterSweep(s, now, limit), now, limit, k - 1)
  }

  /** What is left of n after k sweeps of at most l each. */
  function Left(n: nat, l: nat, k: nat): nat
    decreases k
  {
    if k == 0 then n else Left(Minus(n, l), l, k - 1)
  }

  lemma {:induction false} LeftIs(n: nat, l: nat, k: nat)
    ensures Left(n, l, k) == Minus(n, k * l)
    decreases k
  {
    if k > 0 {
      LeftIs(Minus(n, l), l, k - 1);
      assert k * l == (k - 1) * l + l;
    }
  }

  lemma {:induction false} SweepsCount(s: Store, now: int, limit: int, k: nat)
    requires StoreOk(s)
    ensures StoreOk(Sweeps(s, now, limit, k))
    ensures |Due(Sweeps(s, now, limit, k), now)| == Left(|Due(s, now)|, SweepLimit(limit), k)
    decreases k
  {
    hide StoreOk, Due, AfterSweep, SweepLimit;
    if k > 0 {
      SweptKeepsOk(s, now, limit);
      SweepShrinksDue(s, now, limit);
      SweepsCount(AfterSweep(s, now, limit), now, limit, k - 1);
    }
  }

  /** k sweeps leave no expired ticket exactly when k is at least the number expired divided by the limit, which is
      100 when none is given. */
  lemma SweepsDrain(s: Store, now: int, limit: int, k: nat)
    requires StoreOk(s)
    ensures Expired(Sweeps(s, now, limit, k), now) == {}
       <==> |Expired(s, now)| <= k * (if limit <= 0 then 100 else limit)
  {
    SweepsCount(s, now, limit, k);
    LeftIs(|Due(s, now)|, SweepLimit(limit), k);
    DueIsExpired(s, now);
    DueIsExpired(Sweeps(s, now, limit, k), now);
  }
}
