/** The sliding-window worker: score buckets that widen while they find nobody. */
module Matcher {
  import opened ZSets
  import opened MatchStore
  import opened RoomRegistry
  import opened PickAndSweep
  import opened PlayerRepositories
  import opened Mirrors
  import opened RoomServerRepositories
  import opened ServiceSteps
  import opened ServiceAgreement
  import opened MatchServices
  import opened TicketEffects
  import opened ServiceCalls
  import opened ServiceEffects

  const MAX_SCORE := 10_000

  datatype Bucket = Bucket(
    baseMin: int, baseMax: int, threshold: int, step: int, currentMin: int, currentMax: int, emptyCount: int)

  /** How a bucket is set up: its base range inside the scores, widening by some step every few empty scans. */
  predicate WellFormed(b: Bucket) {
    0 <= b.baseMin <= b.baseMax <= MAX_SCORE && b.threshold > 0 && b.step > 0
  }

  datatype Scan = Broken | Empty | Found

  /** What a scan of the bucket finds in a pool. */
  function ScanOf(b: Bucket, pool: ZSet, fails: bool): Scan {
    if fails then Broken
    else if |PickFrom(pool, b.currentMin, b.currentMax, PLAYERS_PER_ROOM)| < PLAYERS_PER_ROOM then Empty
    else Found
  }

  function Reset(b: Bucket): Bucket {
    b.(currentMin := b.baseMin, currentMax := b.baseMax, emptyCount := 0)
  }

  function Expanded(b: Bucket): Bucket {
    b.(currentMin := if b.currentMin - b.step < 0 then 0 else b.currentMin - b.step,
       currentMax := if b.currentMax + b.step > MAX_SCORE then MAX_SCORE else b.currentMax + b.step,
       emptyCount := 0)
  }

  function AfterScan(b: Bucket, scan: Scan): Bucket {
    match scan
    case Broken => b
    case Found => Reset(b)
    case Empty =>
      var counted := b.(emptyCount := b.emptyCount + 1);
      if counted.emptyCount >= b.threshold then Expanded(counted) else counted
  }

  // ---------- the window in closed form ----------

  function AtLeast(low: int, x: int): int {
    if x < low then low else x
  }

  function AtMost(high: int, x: int): int {
    if x > high then high else x
  }

  /** The bucket after n empty scans in a row from its base range. */
  function AfterEmpty(b: Bucket, n: nat): Bucket
    requires b.threshold > 0
  {
    var k := n / b.threshold;
    b.(currentMin := AtLeast(0, b.baseMin - k * b.step),
       currentMax := AtMost(MAX_SCORE, b.baseMax + k * b.step),
       emptyCount := n % b.threshold)
  }

  lemma MulLe(a: int, b: int, t: nat)
    requires a <= b
    ensures a * t <= b * t
  {
  }

  lemma MulNext(a: int, t: nat)
    ensures (a + 1) * t == a * t + t
  {
  }

  /** Quotient and remainder are determined: no other pair fits. */
  lemma DivModUnique(n: nat, t: nat, q: int, r: int)
    requires 0 <= r < t && n == q * t + r
    ensures n / t == q && n % t == r
  {
    var p := n / t;
    assert n == p * t + n % t;
    if p < q {
      MulLe(p + 1, q, t);
      MulNext(p, t);
    } else if q < p {
      MulLe(q + 1, p, t);
      MulNext(q, t);
    }
  }

  lemma DivStep(n: nat, t: nat)
    requires t > 0
    ensures n % t + 1 == t ==> (n + 1) / t == n / t + 1 && (n + 1) % t == 0
    ensures n % t + 1 < t ==> (n + 1) / t == n / t && (n + 1) % t == n % t + 1
  {
    var q, r := n / t, n % t;
    assert n == q * t + r;
    if r + 1 == t {
      MulNext(q, t);
      DivModUnique(n + 1, t, q + 1, 0);
    } else {
      DivModUnique(n + 1, t, q, r + 1);
    }
  }

  /** One more empty scan moves the closed form from n to n + 1. */
  lemma EmptyScanAdvances(b: Bucket, n: nat)
    requires WellFormed(b)
    ensures AfterScan(AfterEmpty(b, n), Empty) == AfterEmpty(b, n + 1)
  {
    DivStep(n, b.threshold);
    MulNext(n / b.threshold, b.step);
    MulLe(0, n / b.threshold, b.step);
  }

  /** A bucket state that some run of scans leads to: n empty scans in a row since the last reset. */
  ghost predicate Reachable(b: Bucket) {
    WellFormed(b) && exists n: nat :: b == AfterEmpty(b, n)
  }

  lemma ResetIsReachable(b: Bucket)
    requires WellFormed(b)
    ensures AfterEmpty(b, 0) == Reset(b) && Reachable(Reset(b))
  {
    assert 0 / b.threshold == 0 && 0 % b.threshold == 0;
    assert Reset(b) == AfterEmpty(Reset(b), 0);
  }

  lemma ClosedWindow(b: Bucket, n: nat)
    requires WellFormed(b)
    ensures
      var c := AfterEmpty(b, n);
      && 0 <= c.currentMin <= b.baseMin && b.baseMax <= c.currentMax <= MAX_SCORE
      && 0 <= c.emptyCount < b.threshold
  {
    MulLe(0, n / b.threshold, b.step);
  }

  /** In every reachable state the window contains the base range and stays within the scores. */
  lemma ReachableWindow(b: Bucket)
    requires Reachable(b)
    ensures 0 <= b.currentMin <= b.baseMin && b.baseMax <= b.currentMax <= MAX_SCORE && 0 <= b.emptyCount < b.threshold
  {
    var n: nat :| b == AfterEmpty(b, n);
    ClosedWindow(b, n);
  }

  /** The closed form depends only on how the bucket is set up. */
  lemma SameSetup(b: Bucket, c: Bucket, n: nat)
    requires WellFormed(b) && c == AfterEmpty(b, n)
    ensures WellFormed(c) && c == AfterEmpty(c, n)
  {
  }

  /** Every scan leads from a reachable state to a reachable one, and success restores the base range. */
  lemma ReachableIsKept(b: Bucket, scan: Scan)
    requires Reachable(b)
    ensures Reachable(AfterScan(b, scan))
    ensures scan.Found? ==> AfterScan(b, scan) == AfterEmpty(b, 0)
  {
    var n: nat :| b == AfterEmpty(b, n);
    match scan
    case Broken =>
    case Found => ResetIsReachable(b);
    case Empty =>
      EmptyScanAdvances(b, n);
      SameSetup(b, AfterScan(b, scan), n + 1);
  }

  /** The bucket after a run of scans, whatever each of them came to. */
  function AfterScans(b: Bucket, scans: seq<Scan>): Bucket {
    if scans == [] then b else AfterScan(AfterScans(b, scans[..|scans| - 1]), scans[|scans| - 1])
  }

  /** How many scans have come back empty since one last found a pair; failed scans do not matter. */
  function EmptySince(scans: seq<Scan>): nat {
    if scans == [] then 0
    else
      var before := EmptySince(scans[..|scans| - 1]);
      match scans[|scans| - 1]
      case Broken => before
      case Empty => before + 1
      case Found => 0
  }

  lemma OtherScans(c: Bucket, b: Bucket, n: nat)
    requires WellFormed(b) && b == Reset(b) && c == AfterEmpty(b, n)
    ensures AfterScan(c, Broken) == c && AfterScan(c, Found) == b
  {
  }

  /** In every run from its base range, failed scans included, a bucket is in the closed form of the empty scans
      since the last success, with a window that contains the base range and stays within the scores. */
  lemma {:induction false} EveryRunOfScans(b: Bucket, scans: seq<Scan>)
    requires WellFormed(b) && b == Reset(b)
    ensures AfterScans(b, scans) == AfterEmpty(b, EmptySince(scans))
    ensures
      var c := AfterScans(b, scans);
      && Reachable(c)
      && 0 <= c.currentMin <= b.baseMin && b.baseMax <= c.currentMax <= MAX_SCORE && 0 <= c.emptyCount < b.threshold
  {
    hide AfterScan;
    ResetIsReachable(b);
    if scans != [] {
      var n := |scans| - 1;
      EveryRunOfScans(b, scans[..n]);
      EmptyScanAdvances(b, EmptySince(scans[..n]));
      OtherScans(AfterScans(b, scans[..n]), b, EmptySince(scans[..n]));
    }
    SameSetup(b, AfterScans(b, scans), EmptySince(scans));
    ClosedWindow(b, EmptySince(scans));
  }

  /** The bucket after scanning one pool after the other, with no Redis error. */
  function AfterPools(b: Bucket, pools: seq<ZSet>): Bucket {
    if pools == [] then b
    else
      var n := |pools| - 1;
      var c := AfterPools(b, pools[..n]);
      AfterScan(c, ScanOf(c, pools[n], false))
  }

  /** Some scan of the run picks a pair. */
  predicate FindsIn(b: Bucket, pools: seq<ZSet>) {
    if pools == [] then false
    else
      var n := |pools| - 1;
      FindsIn(b, pools[..n]) || ScanOf(AfterPools(b, pools[..n]), pools[n], false) == Found
  }

  lemma {:induction false} FindsAt(b: Bucket, pools: seq<ZSet>) returns (i: nat)
    requires FindsIn(b, pools)
    ensures i < |pools| && ScanOf(AfterPools(b, pools[..i]), pools[i], false) == Found
  {
    i := |pools| - 1;
    if FindsIn(b, pools[..i]) {
      var j := FindsAt(b, pools[..i]);
      assert pools[..i][..j] == pools[..j];
      i := j;
    }
  }

  lemma NotFoundIsEmpty(b: Bucket, pool: ZSet)
    ensures ScanOf(b, pool, false) == Found || ScanOf(b, pool, false) == Empty
  {
  }

  /** The closed form of a run of empty scans. */
  lemma {:induction false} EmptyRun(b: Bucket, n: nat, pools: seq<ZSet>)
    requires WellFormed(b) && b == AfterEmpty(b, n) && !FindsIn(b, pools)
    ensures AfterPools(b, pools) == AfterEmpty(b, n + |pools|)
  {
    hide AfterEmpty, AfterScan, ScanOf;
    if pools != [] {
      var m := |pools| - 1;
      EmptyRun(b, n, pools[..m]);
      EmptyScanAdvances(b, n + m);
      assert ScanOf(AfterPools(b, pools[..m]), pools[m], false) == Empty by {
        NotFoundIsEmpty(AfterPools(b, pools[..m]), pools[m]);
      }
    }
  }

  // ---------- the wait is bounded ----------

  /** The waiting players whose rating lies in 0..9999. */
  function Rated(pool: ZSet): set<string> {
    set p | p in pool && 0.0 < pool[p] < MAX_SCORE as real
  }

  lemma {:induction false} CardinalityOfSubset(a: set<string>, b: set<string>)
    requires a <= b
    ensures |a| <= |b|
  {
    if a != {} {
      var x :| x in a;
      CardinalityOfSubset(a - {x}, b - {x});
    }
  }

  lemma WideWindowFinds(b: Bucket, pool: ZSet)
    requires b.currentMin == 0 && b.currentMax == MAX_SCORE && |Rated(pool)| >= PLAYERS_PER_ROOM
    ensures ScanOf(b, pool, false) == Found
  {
    var z := Qualifying(pool, 0, MAX_SCORE);
    assert Rated(pool) <= z.Keys;
    CardinalityOfSubset(Rated(pool), z.Keys);
    assert |z| == |z.Keys|;
    TakeAreFirst(z, PLAYERS_PER_ROOM);
  }

  lemma EnoughRounds(n: nat, t: nat, expansions: nat)
    requires t > 0 && n >= expansions * t
    ensures n / t >= expansions
  {
    var k := n / t;
    assert n == k * t + n % t;
    if k < expansions {
      MulLe(k + 1, expansions, t);
      MulNext(k, t);
    }
  }

  /** After `expansions` widenings the window is as wide as it gets. */
  lemma WindowFillsUp(b: Bucket, n: nat, expansions: nat)
    requires WellFormed(b) && expansions * b.step >= b.baseMin && expansions * b.step >= MAX_SCORE - b.baseMax
    requires n >= expansions * b.threshold
    ensures AfterEmpty(b, n).currentMin == 0 && AfterEmpty(b, n).currentMax == MAX_SCORE
  {
    EnoughRounds(n, b.threshold, expansions);
    MulLe(expansions, n / b.threshold, b.step);
  }

  lemma FindsOnceFull(b: Bucket, n: nat, pools: seq<ZSet>)
    requires WellFormed(b) && b == AfterEmpty(b, n) && pools != []
    requires AfterEmpty(b, n + |pools| - 1).currentMin == 0 && AfterEmpty(b, n + |pools| - 1).currentMax == MAX_SCORE
    requires |Rated(pools[|pools| - 1])| >= PLAYERS_PER_ROOM
    ensures FindsIn(b, pools)
  {
    hide AfterEmpty, ScanOf, Rated, AfterPools;
    var m := |pools| - 1;
    if !FindsIn(b, pools[..m]) {
      EmptyRun(b, n, pools[..m]);
      WideWindowFinds(AfterPools(b, pools[..m]), pools[m]);
    }
  }

  /** From whatever state scans have led to, a bucket finds a pair within expansions * threshold + 1 scans, if
      two rated players wait at each. */
  lemma BucketFindsWithin(b: Bucket, expansions: nat, pools: seq<ZSet>)
    requires Reachable(b) && expansions * b.step >= b.baseMin && expansions * b.step >= MAX_SCORE - b.baseMax
    requires |pools| == expansions * b.threshold + 1
    requires forall i | 0 <= i < |pools| :: |Rated(pools[i])| >= PLAYERS_PER_ROOM
    ensures FindsIn(b, pools)
  {
    hide AfterEmpty, Rated, FindsIn;
    var n: nat :| b == AfterEmpty(b, n);
    WindowFillsUp(b, n + |pools| - 1, expansions);
    FindsOnceFull(b, n, pools);
  }

  // ---------- the worker's five buckets ----------

  function NewBucket(baseMin: int, baseMax: int): Bucket {
    Bucket(baseMin, baseMax, 3, 200, baseMin, baseMax, 0)
  }

  const BUCKETS: seq<Bucket> :=
    [NewBucket(0, 1000), NewBucket(1001, 2000), NewBucket(2001, 3000), NewBucket(3001, 4000), NewBucket(4001, 5000)]

  /** A run of rounds: the pool that each bucket's scan meets in each round. */
  type Rounds = rounds: seq<seq<ZSet>> | forall i :: 0 <= i < |rounds| ==> |rounds[i]| == |BUCKETS|

  ghost predicate Waiting(rounds: Rounds) {
    forall i, j | 0 <= i < |rounds| && 0 <= j < |BUCKETS| :: |Rated(rounds[i][j])| >= PLAYERS_PER_ROOM
  }

  /** The pools that bucket `j` meets. */
  function Column(rounds: Rounds, j: nat): seq<ZSet>
    requires j < |BUCKETS|
  {
    seq(|rounds|, (i: nat) requires i < |rounds| => rounds[i][j])
  }

  /** Bucket `j`, started in state `b`, picks a pair in round `i`. */
  ghost predicate PicksIn(b: Bucket, rounds: Rounds, i: nat, j: nat)
    requires i < |rounds| && j < |BUCKETS|
  {
    ScanOf(AfterPools(b, Column(rounds, j)[..i]), rounds[i][j], false) == Found
  }

  /** Wherever the five buckets have got to, if two players rated 0..9999 wait at every scan of the next 76
      rounds, one of these scans picks a pair. */
  lemma SomeoneIsPickedWithin76(states: seq<Bucket>, rounds: Rounds)
    requires |states| == |BUCKETS| && forall j | 0 <= j < |states| ::
               Reachable(states[j]) && Reset(states[j]) == BUCKETS[j]
    requires |rounds| == 76 && Waiting(rounds)
    ensures exists i, j | 0 <= i < 76 && 0 <= j < |BUCKETS| :: PicksIn(states[j], rounds, i, j)
  {
    var b, pools := states[4], Column(rounds, 4);
    assert Reset(b) == NewBucket(4001, 5000);
    BucketFindsWithin(b, 25, pools);
    var i := FindsAt(b, pools);
    assert PicksIn(states[4], rounds, i, 4);
  }

  /** A score that no window reaches within 24 widenings. */
  predicate OutOfReach(pool: ZSet) {
    forall p | p in pool :: pool[p] > 9_800.0
  }

  lemma NarrowWindowFindsNobody(b: Bucket, pool: ZSet)
    requires WellFormed(b) && b.currentMin <= b.currentMax <= 9_800 && OutOfReach(pool)
    ensures ScanOf(b, pool, false) == Empty
  {
    WindowArithmetic(b.currentMin, b.currentMax);
    var z := Qualifying(pool, b.currentMin, b.currentMax);
    assert z.Keys == {};
    TakeAreFirst(z, PLAYERS_PER_ROOM);
    assert |z| == |z.Keys| == 0;
  }

  lemma NarrowSoFar(b: Bucket, n: nat)
    requires b.threshold == 3 && b.step == 200 && 0 <= b.baseMin <= b.baseMax <= 5000 && n <= 74
    ensures WellFormed(AfterEmpty(b, n)) && AfterEmpty(b, n).currentMin <= AfterEmpty(b, n).currentMax <= 9_800
  {
    assert n / 3 <= 24;
  }

  lemma {:induction false} NobodyFoundInNarrowRun(b: Bucket, pools: seq<ZSet>)
    requires b.threshold == 3 && b.step == 200 && b == Reset(b) && 0 <= b.baseMin <= b.baseMax <= 5000 && |pools| <= 75
    requires forall i | 0 <= i < |pools| :: OutOfReach(pools[i])
    ensures !FindsIn(b, pools)
  {
    hide ScanOf, AfterEmpty, OutOfReach;
    if pools != [] {
      var m := |pools| - 1;
      NobodyFoundInNarrowRun(b, pools[..m]);
      NarrowSoFar(b, m);
      ResetIsReachable(b);
      EmptyRun(b, 0, pools[..m]);
      NarrowWindowFindsNobody(AfterPools(b, pools[..m]), pools[m]);
    }
  }

  /** The bound is tight: with the same two players waiting all the time, a fresh worker finds nobody in its
      first 75 rounds. */
  lemma SeventyFiveRoundsAreNotEnough() returns (rounds: Rounds)
    ensures |rounds| == 75 && Waiting(rounds)
    ensures forall j | 0 <= j < |BUCKETS| :: !FindsIn(BUCKETS[j], Column(rounds, j))
  {
    var pool: ZSet := map["a" := Composite(9900, 1), "b" := Composite(9900, 2)];
    CompositeCarries(9900, 1);
    CompositeCarries(9900, 2);
    assert Rated(pool) == {"a", "b"};
    rounds := seq(75, i => [pool, pool, pool, pool, pool]);
    forall j | 0 <= j < |BUCKETS| ensures !FindsIn(BUCKETS[j], Column(rounds, j)) {
      NobodyFoundInNarrowRun(BUCKETS[j], Column(rounds, j));
    }
  }

  // ---------- the worker ----------

  /** What a scan does to its bucket. */
  function BucketAfter(b: Bucket, before: Backend, d: Draws): Bucket {
    AfterScan(b, ScanOf(b, before.store.pool, d.pickFails))
  }

  /** What a scan does to the store, the rooms and the mirror: one attempt over the bucket's window. */
  ghost predicate ScansTo(b: Bucket, before: Backend, d: Draws, after: Backend) {
    && StoreOk(before.store) && CapacityOk(before.rooms.info) && PLAYERS_PER_ROOM <= |d.stamps|
    && after == PickAttempt(before, b.currentMin, b.currentMax, DEFAULT_MODE, d)
  }

  /** One round of the worker: its buckets and the backend before and after each of its scans. */
  datatype Round = Round(before: seq<Bucket>, states: seq<Backend>, draws: seq<Draws>, after: seq<Bucket>)

  ghost predicate RoundOk(r: Round) {
    && |r.states| == |r.before| + 1 && |r.draws| == |r.before| == |r.after|
    && forall j | 0 <= j < |r.before| ::
         && ScansTo(r.before[j], r.states[j], r.draws[j], r.states[j + 1])
         && r.after[j] == BucketAfter(r.before[j], r.states[j], r.draws[j])
  }

  /** Rounds of the five buckets, each taking up the buckets where the one before left them; in between, others
      may have changed the backend. */
  ghost predicate WorkerRun(rounds: seq<Round>) {
    && (forall i | 0 <= i < |rounds| :: RoundOk(rounds[i]) && |rounds[i].before| == |BUCKETS|)
    && forall i | 0 < i < |rounds| :: rounds[i].before == rounds[i - 1].after
  }

  /** The queued players in the pool whose tickets are rated 0..9999. */
  ghost function WaitingRated(s: Store): set<string>
    requires StoreOk(s)
  {
    set p | p in s.pool && p in s.playerTicket && 0 <= RatingOf(s, p) < MAX_SCORE
  }

  lemma ScoreInRange(score: real, mmr: int)
    requires Carries(score, mmr)
    ensures 0.0 < score < MAX_SCORE as real <==> 0 <= mmr < MAX_SCORE
  {
    assert mmr >= 0 ==> mmr as real >= 0.0;
    assert mmr < 0 ==> (mmr + 1) as real <= 0.0;
    assert mmr < MAX_SCORE ==> (mmr + 1) as real <= MAX_SCORE as real;
    assert mmr >= MAX_SCORE ==> mmr as real >= MAX_SCORE as real;
  }

  /** They are among the pool members with such a score, and all of them if nothing is left over in the pool. */
  lemma RatedTickets(s: Store)
    requires StoreOk(s)
    ensures WaitingRated(s) <= Rated(s.pool)
    ensures s.pool.Keys <= s.playerTicket.Keys ==> WaitingRated(s) == Rated(s.pool)
  {
    hide ExpiryAgrees, PoolStamped;
    forall p | p in s.pool && p in s.playerTicket
      ensures p in s.playerTicket && s.playerTicket[p] in s.tickets
              && (0.0 < s.pool[p] < MAX_SCORE as real <==> 0 <= RatingOf(s, p) < MAX_SCORE)
    {
      ScoreInRange(s.pool[p], RatingOf(s, p));
    }
    assert forall p | p in s.pool :: p in s.pool.Keys;
  }

  /** Two such players wait at every scan, and no scan fails. */
  ghost predicate TicketsWait(rounds: seq<Round>) {
    forall i, j | 0 <= i < |rounds| && 0 <= j < |rounds[i].before| < |rounds[i].states| && j < |rounds[i].draws| ::
      && !rounds[i].draws[j].pickFails
      && StoreOk(rounds[i].states[j].store) && |WaitingRated(rounds[i].states[j].store)| >= PLAYERS_PER_ROOM
  }

  /** The pools that the scans of a worker's run meet. */
  ghost function PoolsOf(rounds: seq<Round>): (pools: Rounds)
    requires WorkerRun(rounds)
    ensures |pools| == |rounds|
  {
    seq(|rounds|, (i: nat) requires i < |rounds| =>
      seq(|BUCKETS|, (j: nat) requires j < |BUCKETS| => rounds[i].states[j].store.pool))
  }

  lemma PoolMet(rounds: seq<Round>, i: nat, j: nat)
    requires WorkerRun(rounds) && i < |rounds| && j < |BUCKETS|
    ensures |Column(PoolsOf(rounds), j)| == |rounds| && j < |rounds[i].states| && j < |rounds[i].before|
    ensures Column(PoolsOf(rounds), j)[i] == PoolsOf(rounds)[i][j] == rounds[i].states[j].store.pool
  {
    hide ScansTo, BucketAfter;
    assert RoundOk(rounds[i]);
  }

  lemma BucketMoves(rounds: seq<Round>, i: nat, j: nat)
    requires WorkerRun(rounds) && TicketsWait(rounds) && i + 1 < |rounds| && j < |BUCKETS|
    ensures j < |rounds[i].states| && j < |rounds[i].before| && j < |rounds[i + 1].before|
    ensures
      var b := rounds[i].before[j];
      rounds[i + 1].before[j] == AfterScan(b, ScanOf(b, rounds[i].states[j].store.pool, false))
  {
    hide AfterScan, ScanOf, ScansTo, StoreOk, WaitingRated;
    assert RoundOk(rounds[i]) && rounds[i + 1].before == rounds[i].after;
  }

  lemma {:induction false} BucketsFollowPools(rounds: seq<Round>, i: nat, j: nat)
    requires WorkerRun(rounds) && TicketsWait(rounds) && i < |rounds| && j < |BUCKETS|
    ensures rounds[i].before[j] == AfterPools(rounds[0].before[j], Column(PoolsOf(rounds), j)[..i])
  {
    hide AfterScan, ScanOf, PoolsOf, Column, TicketsWait;
    PoolMet(rounds, i, j);
    if i > 0 {
      BucketsFollowPools(rounds, i - 1, j);
      BucketMoves(rounds, i - 1, j);
      PoolMet(rounds, i - 1, j);
      var pools := Column(PoolsOf(rounds), j);
      assert pools[..i][..i - 1] == pools[..i - 1];
    }
  }

  lemma TicketsWaitInPools(rounds: seq<Round>)
    requires WorkerRun(rounds) && TicketsWait(rounds)
    ensures Waiting(PoolsOf(rounds))
  {
    hide StoreOk, WaitingRated, Rated, ScansTo, BucketAfter;
    var pools := PoolsOf(rounds);
    forall i, j | 0 <= i < |pools| && 0 <= j < |BUCKETS| ensures |Rated(pools[i][j])| >= PLAYERS_PER_ROOM {
      var s := rounds[i].states[j].store;
      assert RoundOk(rounds[i]);
      RatedTickets(s);
      CardinalityOfSubset(WaitingRated(s), Rated(s.pool));
    }
  }

  /** Wherever the five buckets have got to, if two queued players with tickets rated 0..9999 wait at every scan of
      the worker's next 76 rounds, one of these scans finds a pair to match. */
  lemma WorkerFindsWithin76(rounds: seq<Round>)
    requires |rounds| == 76 && WorkerRun(rounds) && TicketsWait(rounds)
    requires forall j | 0 <= j < |BUCKETS| :: Reachable(rounds[0].before[j]) && Reset(rounds[0].before[j]) == BUCKETS[j]
    ensures exists i, j | 0 <= i < 76 && 0 <= j < |BUCKETS| ::
      ScanOf(rounds[i].before[j], rounds[i].states[j].store.pool, false) == Found
  {
    hide ScanOf, Reachable, Reset, RoundOk, AfterPools, TicketsWait, Waiting, PoolsOf, Column;
    TicketsWaitInPools(rounds);
    var pools := PoolsOf(rounds);
    PoolMet(rounds, 0, 0);
    SomeoneIsPickedWithin76(rounds[0].before, pools);
    var i, j :| 0 <= i < 76 && 0 <= j < |BUCKETS| && PicksIn(rounds[0].before[j], pools, i, j);
    BucketsFollowPools(rounds, i, j);
    PoolMet(rounds, i, j);
  }

  /** The pool members whose score lies between the bounds. */
  function PoolWithin(pool: ZSet, low: int, high: int): set<string> {
    set p | p in pool && low as real <= pool[p] <= high as real
  }

  /** What a scan does to its bucket, in numbers: failing, nothing; finding a pair, back to the base range; finding
      none, one more on the count, and at the threshold a step wider on both sides within 0..10000. */
  predicate MovesAs(b: Bucket, pool: ZSet, fails: bool, after: Bucket) {
    var pair := |PoolWithin(pool, WindowLow(b.currentMin, b.currentMax), WindowHigh(b.currentMin, b.currentMax))| >= 2;
    && after == b.(currentMin := after.currentMin, currentMax := after.currentMax, emptyCount := after.emptyCount)
    && if fails then after == b
       else if pair then after.currentMin == b.baseMin && after.currentMax == b.baseMax && after.emptyCount == 0
       else if b.emptyCount + 1 < b.threshold then
         after.currentMin == b.currentMin && after.currentMax == b.currentMax && after.emptyCount == b.emptyCount + 1
       else
         && after.currentMin == (if b.currentMin < b.step then 0 else b.currentMin - b.step)
         && after.currentMax == (if b.currentMax + b.step > 10_000 then 10_000 else b.currentMax + b.step)
         && after.emptyCount == 0
  }

  lemma ScanFinds(b: Bucket, pool: ZSet)
    ensures
      ScanOf(b, pool, false) == Found <==>
        |PoolWithin(pool, WindowLow(b.currentMin, b.currentMax), WindowHigh(b.currentMin, b.currentMax))| >= 2
  {
    var z := Qualifying(pool, b.currentMin, b.currentMax);
    assert z.Keys == PoolWithin(pool, WindowLow(b.currentMin, b.currentMax), WindowHigh(b.currentMin, b.currentMax));
    assert |z| == |z.Keys|;
    TakeAreFirst(z, PLAYERS_PER_ROOM);
  }

  lemma ScanMoves(b: Bucket, before: Backend, d: Draws)
    ensures MovesAs(b, before.store.pool, d.pickFails, BucketAfter(b, before, d))
  {
    ScanFinds(b, before.store.pool);
    hide PoolWithin, WindowLow, WindowHigh, PickFrom;
  }

  /** What a scan leaves: nothing unless it finds a pair; and of a pair, in the default mode, either a recorded match
      or slots and players given back. */
  ghost predicate LeavesAs(b: Bucket, before: Backend, d: Draws, after: Backend, picked: seq<string>)
    requires 2 <= |d.stamps|
  {
    var within := PoolWithin(before.store.pool, WindowLow(b.currentMin, b.currentMax),
        WindowHigh(b.currentMin, b.currentMax));
    var c := before.(store := before.store.(pool := before.store.pool - Ids(picked)));
    && |picked| == (if d.pickFails || |within| < 2 then 0 else 2)
    && (forall p | p in picked :: p in within) && (forall i, j | 0 <= i < j < |picked| :: picked[i] != picked[j])
    && (picked == [] ==> after == before)
    && (|picked| == 2 ==>
          if Placed(c, picked, "default", d) && TwoKeyed(c.store, picked)
             && !CompletionFails(c.store, picked, d.completeFault) then
            RecordsAs(c, after, picked, "default", d)
          else GivesBackAs(c, after, picked, "default", d))
  }

  lemma PickIsWithin(pool: ZSet, low: int, high: int)
    ensures
      var within, r := PoolWithin(pool, WindowLow(low, high), WindowHigh(low, high)), PickFrom(pool, low, high, 2);
      |r| == (if |within| < 2 then 0 else 2) && forall p | p in r :: p in within
  {
    var z := Qualifying(pool, low, high);
    assert z.Keys == PoolWithin(pool, WindowLow(low, high), WindowHigh(low, high));
    assert |z| == |z.Keys|;
    TakeAreFirst(z, 2);
    hide Sorted, Ranked, WindowLow, WindowHigh;
  }

  lemma ScanLeaves(b: Bucket, before: Backend, d: Draws, after: Backend)
    requires ScansTo(b, before, d, after)
    ensures
      LeavesAs(b, before, d, after,
               if d.pickFails then [] else PickFrom(before.store.pool, b.currentMin, b.currentMax, PLAYERS_PER_ROOM))
  {
    hide StoreOk, CapacityOk, Attempted, AttemptErrors, Completes, PickFrom, PoolWithin, RecordsAs, GivesBackAs, Placed,
      TwoKeyed, CompletionFails, WindowLow, WindowHigh;
    var low, high := b.currentMin, b.currentMax;
    PickIsWithin(before.store.pool, low, high);
    PickIsFromPool(before.store.pool, low, high, 2);
    if !d.pickFails {
      var picked := PickFrom(before.store.pool, low, high, 2);
      SmallerPoolKeepsOk(before.store, Ids(picked));
      AttemptInFields(AfterPick(before, low, high), picked, DEFAULT_MODE, d);
      if picked == [] {
        PickedNobody(before, low, high, DEFAULT_MODE, d);
      }
    }
  }

  lemma BrokenIsNotFound(b: Bucket, pool: ZSet)
    ensures ScanOf(b, pool, true) == Broken
  {
  }

  class ScoreBucket {
    const baseMin: int
    const baseMax: int
    const threshold: int
    const step: int
    var currentMin: int
    var currentMax: int
    var emptyCount: int

    function State(): Bucket
      reads this
    {
      Bucket(baseMin, baseMax, threshold, step, currentMin, currentMax, emptyCount)
    }

    constructor (baseMin: int, baseMax: int)
      ensures State() == NewBucket(baseMin, baseMax)
    {
      this.baseMin, this.baseMax, this.threshold, this.step := baseMin, baseMax, 3, 200;
      currentMin, currentMax, emptyCount := baseMin, baseMax, 0;
    }
  }

  class MatchWorker {
    const matchService: MatchService
    const buckets: seq<ScoreBucket>
    var matchedTotal: int

    /** The buckets are different objects. */
    ghost predicate Valid()
      reads this, matchService.playerRepo, matchService.roomServerRepo, matchService.mysqlRepo
    {
      matchService.Valid() && forall i, j | 0 <= i < j < |buckets| :: buckets[i] != buckets[j]
    }

    function BucketStates(): (r: seq<Bucket>)
      reads this, buckets
      ensures |r| == |buckets| && forall j | 0 <= j < |r| :: r[j] == buckets[j].State()
    {
      seq(|buckets|, (j: nat) requires j < |buckets| reads buckets => buckets[j].State())
    }

    constructor (matchService: MatchService)
      requires matchService.Valid()
      ensures Valid() && fresh(buckets) && this.matchService == matchService && matchedTotal == 0
      ensures |buckets| == |BUCKETS| && forall j | 0 <= j < |buckets| :: buckets[j].State() == BUCKETS[j]
      ensures buckets[0].State() == Bucket(0, 1000, 3, 200, 0, 1000, 0)
      ensures buckets[1].State() == Bucket(1001, 2000, 3, 200, 1001, 2000, 0)
      ensures buckets[2].State() == Bucket(2001, 3000, 3, 200, 2001, 3000, 0)
      ensures buckets[3].State() == Bucket(3001, 4000, 3, 200, 3001, 4000, 0)
      ensures buckets[4].State() == Bucket(4001, 5000, 3, 200, 4001, 5000, 0)
    {
      var b0 := new ScoreBucket(0, 1000);
      var b1 := new ScoreBucket(1001, 2000);
      var b2 := new ScoreBucket(2001, 3000);
      var b3 := new ScoreBucket(3001, 4000);
      var b4 := new ScoreBucket(4001, 5000);
      this.matchService := matchService;
      buckets, matchedTotal := [b0, b1, b2, b3, b4], 0;
    }

    method ExpandBucketRange(bucket: ScoreBucket)
      modifies bucket
      ensures bucket.State() == Expanded(old(bucket.State()))
      ensures bucket.currentMin == if old(bucket.currentMin) < bucket.step then 0
          else old(bucket.currentMin) - bucket.step
      ensures
        var high := old(bucket.currentMax) + bucket.step;
        bucket.currentMax == (if high > 10_000 then 10_000 else high) && bucket.emptyCount == 0
    {
      var newMin, newMax := bucket.currentMin - bucket.step, bucket.currentMax + bucket.step;
      if newMin < 0 {
        newMin := 0;
      }
      if newMax > MAX_SCORE {
        newMax := MAX_SCORE;
      }
      bucket.currentMin, bucket.currentMax, bucket.emptyCount := newMin, newMax, 0;
    }

    method ScanBucket(bucket: ScoreBucket, d: Draws)
      requires Valid() && PLAYERS_PER_ROOM <= |d.stamps| && d.matchId != "" && d.roomId != ""
      modifies this`matchedTotal, bucket, matchService.playerRepo, matchService.roomServerRepo, matchService.mysqlRepo
      ensures Valid()
      ensures bucket.State() == BucketAfter(old(bucket.State()), old(matchService.State()), d)
      ensures ScansTo(old(bucket.State()), old(matchService.State()), d, matchService.State())
      ensures matchedTotal ==
        old(matchedTotal)
        + (if ScanOf(old(bucket.State()), old(matchService.playerRepo.pool), d.pickFails) == Found then 1 else 0)
    {
      hide StoreOk, CapacityOk, Attempted, PickFrom;
      PickIsFromPool(matchService.playerRepo.pool, bucket.currentMin, bucket.currentMax, PLAYERS_PER_ROOM);
      var picked := matchService.playerRepo.SearchAndPickTicketPlayers(
        bucket.currentMin, bucket.currentMax, PLAYERS_PER_ROOM, d.pickFails);
      if picked.Err? {
        return;
      }
      if |picked.value| < PLAYERS_PER_ROOM {
        TooFewDoNothing(matchService.State(), picked.value, DEFAULT_MODE, d);
        bucket.emptyCount := bucket.emptyCount + 1;
        if bucket.emptyCount >= bucket.threshold {
          ExpandBucketRange(bucket);
        }
        return;
      }
      bucket.emptyCount := 0;
      bucket.currentMin := bucket.baseMin;
      bucket.currentMax := bucket.baseMax;
      matchedTotal := matchedTotal + 1;
      var _, _ := matchService.CompletePickedPlayers(picked.value, DEFAULT_MODE, d);
    }

    /** One scan: the bucket moves by what the pool holds, and a picked pair is one match attempt. */
    method MatchInBucket(bucket: ScoreBucket, d: Draws) returns (ghost picked: seq<string>)
      requires Valid() && PLAYERS_PER_ROOM <= |d.stamps| && d.matchId != "" && d.roomId != ""
      modifies this`matchedTotal, bucket, matchService.playerRepo, matchService.roomServerRepo, matchService.mysqlRepo
      ensures Valid()
      ensures bucket.State() == BucketAfter(old(bucket.State()), old(matchService.State()), d)
      ensures ScansTo(old(bucket.State()), old(matchService.State()), d, matchService.State())
      ensures MovesAs(old(bucket.State()), old(matchService.playerRepo.pool), d.pickFails, bucket.State())
      ensures LeavesAs(old(bucket.State()), old(matchService.State()), d, matchService.State(), picked)
      ensures matchedTotal == old(matchedTotal) + if picked == [] then 0 else 1
    {
      hide StoreOk, CapacityOk, BucketAfter, ScansTo, MovesAs, LeavesAs, ScanOf, WindowLow, WindowHigh, PoolWithin;
      ghost var b, before := bucket.State(), matchService.State();
      ScanMoves(b, before, d);
      ScanFinds(b, before.store.pool);
      PickIsWithin(before.store.pool, b.currentMin, b.currentMax);
      ScanBucket(bucket, d);
      ScanLeaves(b, before, d, matchService.State());
      picked := if d.pickFails then [] else PickFrom(before.store.pool, b.currentMin, b.currentMax, PLAYERS_PER_ROOM);
      BrokenIsNotFound(b, before.store.pool);
    }

    /** One round: every bucket is scanned once, each against the store as the scans before it left it. */
    method ScanAllBuckets(draws: seq<Draws>) returns (ghost states: seq<Backend>)
      requires Valid() && |draws| == |buckets|
      requires forall d | d in draws :: PLAYERS_PER_ROOM <= |d.stamps| && d.matchId != "" && d.roomId != ""
      modifies this`matchedTotal, buckets, matchService.playerRepo, matchService.roomServerRepo, matchService.mysqlRepo
      ensures Valid() && |states| == |buckets| + 1
      ensures states[0] == old(matchService.State()) && states[|buckets|] == matchService.State()
      ensures RoundOk(Round(old(BucketStates()), states, draws, BucketStates()))
    {
      hide StoreOk, CapacityOk, BucketAfter, ScansTo;
      states := [matchService.State()];
      for i := 0 to |buckets|
        invariant Valid() && |states| == i + 1
        invariant states[0] == old(matchService.State()) && states[i] == matchService.State()
        invariant forall j | 0 <= j < i :: ScansTo(old(buckets[j].State()), states[j], draws[j], states[j + 1])
        invariant forall j | 0 <= j < i ::
            buckets[j].State() == BucketAfter(old(buckets[j].State()), states[j], draws[j])
        invariant forall j | i <= j < |buckets| :: buckets[j].State() == old(buckets[j].State())
      {
        var _ := MatchInBucket(buckets[i], draws[i]);
        states := states + [matchService.State()];
      }
    }
  }
}
