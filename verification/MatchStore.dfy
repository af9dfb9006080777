/** The match tickets and results kept in Redis, as values: the ticket hashes, the player-to-ticket keys,
    the ticket pool, the expiry index and the result hashes, with the effect of each repository operation. */
module MatchStore {
  import opened ZSets

  datatype Option<+T> = None | Some(value: T)

  datatype Error =
    | RedisFailure
    | PlayerAlreadyQueued
    | TicketNotFound
    | TicketNotQueued
    | NoAvailableRoomServer
    | GameServerNotFound
    | Invalid(field: string)

  datatype Result<+T> = Ok(value: T) | Err(error: Error)

  /** Which of an operation's Redis calls fails, counted from 0; a failed call has no effect. */
  type Fault = Option<nat>

  datatype Status = Queued | Matched | Cancelled | TimedOut

  datatype Ticket = Ticket(
    id: string, player: string, mmr: int, mode: string, status: Status, matchId: string, roomId: string,
    createdAt: int, updatedAt: int, expiresAt: int)

  datatype MatchResult = MatchResult(
    matchId: string, roomId: string, serverId: string, serverAddr: string, mode: string,
    players: seq<string>, status: Status, createdAt: int)

  datatype Store = Store(
    tickets: map<string, Ticket>,
    playerTicket: map<string, string>,
    pool: ZSet,
    expiry: ZSet,
    results: map<string, MatchResult>)

  const PLAYERS_PER_ROOM := 2

  const EMPTY_STORE := Store(map[], map[], map[], map[], map[])

  // ---------- the ordering key of the pool ----------

  /** A clock reading in milliseconds that the pool's ordering key can tell apart. */
  type Stamp = ms: int | 0 < ms < 10_000_000_000_000 witness 1

  const MAX_TIMESTAMP: real := 10_000_000_000_000.0

  function Composite(mmr: int, stamp: Stamp): real {
    mmr as real + stamp as real / MAX_TIMESTAMP
  }

  /** The score lies strictly between two neighbouring ratings, so it says which rating it was made from. */
  predicate Carries(score: real, mmr: int) {
    mmr as real < score < (mmr + 1) as real
  }

  lemma CompositeCarries(mmr: int, stamp: Stamp)
    ensures Carries(Composite(mmr, stamp), mmr)
  {
    assert 0.0 < stamp as real < MAX_TIMESTAMP;
  }

  lemma CarriesOne(score: real, m: int, n: int)
    requires Carries(score, m) && Carries(score, n)
    ensures m == n
  {
    assert (m as real) < (n + 1) as real && (n as real) < (m + 1) as real;
  }

  /** Lower rating first; among equal ratings, earlier enqueue first. */
  lemma CompositeOrder(m: int, s: Stamp, n: int, t: Stamp)
    ensures Composite(m, s) < Composite(n, t) <==> m < n || (m == n && s < t)
    ensures Composite(m, s) == Composite(n, t) <==> m == n && s == t
  {
    CompositeCarries(m, s);
    CompositeCarries(n, t);
    assert m < n ==> (m + 1) as real <= n as real;
    assert n < m ==> (n + 1) as real <= m as real;
    assert s < t ==> s as real < t as real;
    assert t < s ==> t as real < s as real;
  }

  // ---------- what the store keeps true at every repository step ----------

  predicate IsQueued(s: Store, id: string) {
    id in s.tickets && s.tickets[id].status == Queued
  }

  /** The player-to-ticket keys are exactly the inverse of the queued tickets. */
  ghost predicate KeysAgree(s: Store) {
    && (forall id | id in s.tickets :: s.tickets[id].id == id)
    && (forall p | p in s.playerTicket :: IsQueued(s, s.playerTicket[p]) && s.tickets[s.playerTicket[p]].player == p)
    && (forall id | IsQueued(s, id) ::
          s.tickets[id].player in s.playerTicket && s.playerTicket[s.tickets[id].player] == id)
  }

  /** The expiry index holds exactly the queued tickets, each at its expiry time. */
  ghost predicate ExpiryAgrees(s: Store) {
    && (forall id :: id in s.expiry <==> IsQueued(s, id))
    && (forall id | id in s.expiry :: id in s.tickets && s.expiry[id] == s.tickets[id].expiresAt as real)
  }

  /** A queued player who is in the pool is there with the rating of the ticket. */
  ghost predicate PoolCarriesMmr(s: Store) {
    forall p | p in s.pool && p in s.playerTicket && s.playerTicket[p] in s.tickets ::
      Carries(s.pool[p], s.tickets[s.playerTicket[p]].mmr)
  }

  /** The score was made from some rating and some clock reading. */
  ghost predicate Stamped(score: real) {
    exists mmr, stamp: Stamp :: score == Composite(mmr, stamp)
  }

  /** Every pool entry, queued or left over, was written by an enqueue. */
  ghost predicate PoolStamped(s: Store) {
    forall p | p in s.pool :: Stamped(s.pool[p])
  }

  ghost predicate StoreOk(s: Store) {
    KeysAgree(s) && ExpiryAgrees(s) && PoolCarriesMmr(s) && PoolStamped(s)
  }

  /** With no player picked out of it, the pool holds exactly the queued players as well. */
  ghost predicate AgreesExcept(s: Store, held: set<string>) {
    StoreOk(s) && s.pool.Keys == s.playerTicket.Keys - held
  }

  ghost predicate Agrees(s: Store) {
    AgreesExcept(s, {})
  }

  // ---------- create ----------

  /** The Redis command of CreateMatchTicket that fails, if one does; a failed command has no effect. */
  datatype CreateFault = NoFault | PlayerKeyFails | TicketWriteFails | TicketExpireFails | PoolAddFails | ExpiryAddFails

  predicate CreateSucceeds(s: Store, t: Ticket, fault: CreateFault) {
    fault == NoFault && t.player !in s.playerTicket
  }

  /** A failure of the first command hides whether the player was already queued. */
  function CreateError(s: Store, t: Ticket, fault: CreateFault): Option<Error> {
    if CreateSucceeds(s, t, fault) then None
    else if fault != PlayerKeyFails && t.player in s.playerTicket then Some(PlayerAlreadyQueued)
    else Some(RedisFailure)
  }

  function WithTicket(s: Store, t: Ticket, stamp: Stamp): Store {
    s.(tickets := s.tickets[t.id := t],
       playerTicket := s.playerTicket[t.player := t.id],
       pool := s.pool[t.player := Composite(t.mmr, stamp)],
       expiry := s.expiry[t.id := t.expiresAt as real])
  }

  function Created(s: Store, t: Ticket, stamp: Stamp, fault: CreateFault): Store {
    if CreateSucceeds(s, t, fault) then WithTicket(s, t, stamp)
    else if fault == ExpiryAddFails && t.player !in s.playerTicket then s.(pool := s.pool - {t.player})
    else s
  }

  lemma WithTicketQueue(s: Store, t: Ticket, stamp: Stamp)
    requires t.id !in s.tickets && t.status == Queued
    ensures forall id :: IsQueued(WithTicket(s, t, stamp), id) <==> id == t.id || IsQueued(s, id)
    ensures KeysAgree(s) && t.player !in s.playerTicket ==> KeysAgree(WithTicket(s, t, stamp))
  {
  }

  lemma WithTicketKeepsOk(s: Store, t: Ticket, stamp: Stamp)
    requires StoreOk(s) && t.id !in s.tickets && t.status == Queued && t.player !in s.playerTicket
    ensures StoreOk(WithTicket(s, t, stamp))
  {
    WithTicketQueue(s, t, stamp);
    var r := WithTicket(s, t, stamp);
    assert ExpiryAgrees(r) by {
      assert !IsQueued(s, t.id);
    }
    assert PoolCarriesMmr(r) by {
      CompositeCarries(t.mmr, stamp);
      assert forall p | p in s.playerTicket :: s.playerTicket[p] != t.id;
    }
  }

  lemma SmallerPoolKeepsOk(s: Store, gone: set<string>)
    requires StoreOk(s)
    ensures StoreOk(s.(pool := s.pool - gone))
  {
    var r := s.(pool := s.pool - gone);
    assert forall id :: IsQueued(r, id) <==> IsQueued(s, id);
  }

  lemma CreatedKeepsOk(s: Store, t: Ticket, stamp: Stamp, fault: CreateFault)
    requires StoreOk(s) && t.id !in s.tickets && t.status == Queued
    ensures StoreOk(Created(s, t, stamp, fault))
  {
    if CreateSucceeds(s, t, fault) {
      WithTicketKeepsOk(s, t, stamp);
    } else {
      SmallerPoolKeepsOk(s, {t.player});
    }
  }

  /** A failed creation leaves the store as it was, except in one case: the last command fails and the
      player, though without a ticket key, still had a pool entry, which the clean-up then removes. */
  lemma CreateRollsBackExactlyWhen(s: Store, t: Ticket, stamp: Stamp, fault: CreateFault)
    requires !CreateSucceeds(s, t, fault)
    ensures Created(s, t, stamp, fault) == s
       <==> !(fault == ExpiryAddFails && t.player !in s.playerTicket && t.player in s.pool)
  {
    if t.player !in s.pool {
      assert s.pool - {t.player} == s.pool;
    } else {
      assert t.player !in s.pool - {t.player};
    }
  }

  lemma CreateRollsBack(s: Store, t: Ticket, stamp: Stamp, fault: CreateFault)
    requires Agrees(s) && !CreateSucceeds(s, t, fault)
    ensures Created(s, t, stamp, fault) == s
  {
    CreateRollsBackExactlyWhen(s, t, stamp, fault);
  }

  // ---------- moving tickets out of the queue ----------

  datatype Change = Close(status: Status, at: int) | Match(matchId: string, roomId: string, at: int)

  predicate LeavesQueue(c: Change) {
    c.Close? ==> c.status == Cancelled || c.status == TimedOut
  }

  function Apply(c: Change, t: Ticket): Ticket {
    match c
    case Close(status, at) => t.(status := status, updatedAt := at)
    case Match(matchId, roomId, at) => t.(status := Matched, matchId := matchId, roomId := roomId, updatedAt := at)
  }

  /** The tickets `ids` take the change and lose their player keys and expiry entries. */
  function Settled(s: Store, ids: set<string>, c: Change): Store {
    s.(tickets := map id | id in s.tickets :: if id in ids then Apply(c, s.tickets[id]) else s.tickets[id],
       playerTicket := map p | p in s.playerTicket && s.playerTicket[p] !in ids :: s.playerTicket[p],
       expiry := s.expiry - ids)
  }

  function PlayersOf(s: Store, ids: set<string>): set<string> {
    set id | id in ids && id in s.tickets :: s.tickets[id].player
  }

  /** Cancellation and timeout also take the players out of the pool; completion does not. */
  function Closed(s: Store, ids: set<string>, status: Status, now: int): Store {
    Settled(s, ids, Close(status, now)).(pool := s.pool - PlayersOf(s, ids))
  }

  lemma SettledQueue(s: Store, ids: set<string>, c: Change)
    requires LeavesQueue(c)
    ensures forall id :: IsQueued(Settled(s, ids, c), id) <==> IsQueued(s, id) && id !in ids
  {
  }

  lemma SettledKeepsOk(s: Store, ids: set<string>, c: Change)
    requires StoreOk(s) && LeavesQueue(c)
    ensures StoreOk(Settled(s, ids, c))
  {
    SettledQueue(s, ids, c);
    var r := Settled(s, ids, c);
    assert forall id | id in r.tickets && id !in ids :: r.tickets[id] == s.tickets[id];
    assert forall id | id in s.tickets :: r.tickets[id].id == s.tickets[id].id;
  }

  lemma ClosedKeepsOk(s: Store, ids: set<string>, status: Status, now: int)
    requires StoreOk(s) && LeavesQueue(Close(status, now))
    ensures StoreOk(Closed(s, ids, status, now))
  {
    SettledKeepsOk(s, ids, Close(status, now));
    SmallerPoolKeepsOk(Settled(s, ids, Close(status, now)), PlayersOf(s, ids));
  }

  /** Closing queued tickets keeps the four places in exact agreement, whoever is held by an attempt. */
  lemma ClosedKeepsAgreement(s: Store, ids: set<string>, status: Status, now: int, held: set<string>)
    requires AgreesExcept(s, held) && LeavesQueue(Close(status, now))
    requires forall id | id in ids :: IsQueued(s, id)
    ensures AgreesExcept(Closed(s, ids, status, now), held)
  {
    ClosedKeepsOk(s, ids, status, now);
    var r := Closed(s, ids, status, now);
    forall p ensures p in r.pool <==> p in r.playerTicket && p !in held {
      if p in s.playerTicket && s.playerTicket[p] in ids {
        assert s.tickets[s.playerTicket[p]].player == p;
        assert p in PlayersOf(s, ids);
      }
      if p in PlayersOf(s, ids) {
        var id :| id in ids && id in s.tickets && s.tickets[id].player == p;
        assert s.playerTicket[p] == id;
      }
    }
  }

  lemma CreateThenSettle(s: Store, t: Ticket, stamp: Stamp, c: Change)
    requires KeysAgree(s) && ExpiryAgrees(s) && t.id !in s.tickets && t.player !in s.playerTicket
    ensures Settled(WithTicket(s, t, stamp), {t.id}, c)
         == s.(tickets := s.tickets[t.id := Apply(c, t)], pool := s.pool[t.player := Composite(t.mmr, stamp)])
  {
    assert !IsQueued(s, t.id) && t.id !in s.expiry;
    assert forall p | p in s.playerTicket :: s.playerTicket[p] != t.id;
    hide KeysAgree, ExpiryAgrees, Composite, Apply, IsQueued;
    var r := Settled(WithTicket(s, t, stamp), {t.id}, c);
    assert r.tickets == s.tickets[t.id := Apply(c, t)];
    assert r.playerTicket == s.playerTicket;
    assert r.expiry == s.expiry;
  }

  /** Cancelling a ticket undoes its creation: pool, keys, expiry index and all other tickets are what they were,
      and the ticket itself stays on record as cancelled. */
  lemma CancelUndoesCreate(s: Store, t: Ticket, stamp: Stamp, now: int)
    requires Agrees(s) && t.id !in s.tickets && t.status == Queued && t.player !in s.playerTicket
    ensures Closed(WithTicket(s, t, stamp), {t.id}, Cancelled, now)
         == s.(tickets := s.tickets[t.id := t.(status := Cancelled, updatedAt := now)])
  {
    CreateThenSettle(s, t, stamp, Close(Cancelled, now));
    var w := WithTicket(s, t, stamp);
    hide Settled, KeysAgree, ExpiryAgrees, PoolCarriesMmr, Composite;
    assert PlayersOf(w, {t.id}) == {t.player};
    assert w.pool - {t.player} == s.pool;
  }

  // ---------- timeout sweep ----------

  function SweepLimit(limit: int): nat {
    if limit <= 0 then 100 else limit
  }

  function Due(s: Store, now: int): ZSet {
    UpTo(s.expiry, now as real)
  }

  function SweepIds(s: Store, now: int, limit: int): seq<string> {
    Take(Sorted(Due(s, now)), SweepLimit(limit))
  }

  function Ids(ids: seq<string>): set<string> {
    set id | id in ids
  }

  function Swept(s: Store, ids: seq<string>, now: int): Store {
    Closed(s, Ids(ids), TimedOut, now)
  }

  /** The listing is call 0 and the i-th ticket is call i + 1: how many tickets are dealt with. */
  function SweepReach(fault: Fault, n: nat): nat {
    match fault
    case None => n
    case Some(0) => 0
    case Some(k) => if k <= n then k - 1 else n
  }

  predicate SweepErrs(fault: Fault, n: nat) {
    fault.Some? && fault.value <= n
  }

  lemma DueIsExpiredQueued(s: Store, now: int)
    requires StoreOk(s)
    ensures forall id :: id in Due(s, now) <==> IsQueued(s, id) && s.tickets[id].expiresAt <= now
  {
  }

  // ---------- pick ----------

  /** Go's integer division by a positive divisor: the quotient is truncated toward zero. */
  function TruncDiv(a: int, b: int): int
    requires b > 0
  {
    if a >= 0 then a / b else -((-a) / b)
  }

  function WindowLow(minScore: int, maxScore: int): int {
    TruncDiv(minScore + maxScore, 2) - TruncDiv(maxScore - minScore, 2)
  }

  function WindowHigh(minScore: int, maxScore: int): int {
    TruncDiv(minScore + maxScore, 2) + TruncDiv(maxScore - minScore, 2)
  }

  function Qualifying(pool: ZSet, minScore: int, maxScore: int): ZSet {
    Within(pool, WindowLow(minScore, maxScore) as real, WindowHigh(minScore, maxScore) as real)
  }

  function PickFrom(pool: ZSet, minScore: int, maxScore: int, count: nat): seq<string> {
    var members := Take(Sorted(Qualifying(pool, minScore, maxScore)), count);
    if |members| < count then [] else members
  }

  function Without(s: Store, players: seq<string>): Store {
    s.(pool := s.pool - Ids(players))
  }

  // ---------- complete ----------

  /** Those of `players` who have a queued ticket, in order. */
  function StillQueued(s: Store, players: seq<string>): seq<string> {
    if players == [] then []
    else
      var n := |players| - 1;
      var rest := StillQueued(s, players[..n]);
      if players[n] in s.playerTicket then rest + [players[n]] else rest
  }

  function TicketIds(s: Store, players: seq<string>): set<string> {
    set p | p in players && p in s.playerTicket :: s.playerTicket[p]
  }

  function Completed(s: Store, players: seq<string>, result: MatchResult): Store {
    var matched := StillQueued(s, players);
    if |matched| < 2 then s
    else Settled(s, TicketIds(s, matched), Match(result.matchId, result.roomId, result.createdAt))
         .(results := s.results[result.matchId := result.(players := matched)])
  }

  /** The i-th player is read by call i, and the transaction is the call after the last player. */
  predicate CompleteErrs(s: Store, players: seq<string>, fault: Fault) {
    && fault.Some?
    && (fault.value < |players| || (fault.value == |players| && |StillQueued(s, players)| >= 2))
  }

  function CompletedUnless(s: Store, players: seq<string>, result: MatchResult, fault: Fault): Store {
    if CompleteErrs(s, players, fault) then s else Completed(s, players, result)
  }

  /** The stored tickets of the players, as they are after the match. */
  function StoredTickets(before: Store, after: Store, players: seq<string>): seq<Ticket>
    requires forall p | p in players :: p in before.playerTicket && before.playerTicket[p] in after.tickets
  {
    seq(|players|, (i: nat) requires i < |players| => after.tickets[before.playerTicket[players[i]]])
  }

  lemma {:induction false} StillQueuedMembers(s: Store, players: seq<string>)
    ensures forall p :: p in StillQueued(s, players) <==> p in players && p in s.playerTicket
    ensures |StillQueued(s, players)| <= |players|
    ensures |StillQueued(s, players)| == |players| ==> StillQueued(s, players) == players
  {
    if players != [] {
      var n := |players| - 1;
      StillQueuedMembers(s, players[..n]);
      assert players == players[..n] + [players[n]];
    }
  }

  lemma CompletedHasResult(s: Store, players: seq<string>, result: MatchResult)
    requires |StillQueued(s, players)| >= 2
    ensures result.matchId in Completed(s, players, result).results
    ensures Completed(s, players, result).results[result.matchId] == result.(players := StillQueued(s, players))
  {
  }

  lemma CompletedKeepsOk(s: Store, players: seq<string>, result: MatchResult)
    requires StoreOk(s)
    ensures StoreOk(Completed(s, players, result))
  {
    var matched := StillQueued(s, players);
    if |matched| >= 2 {
      var change := Match(result.matchId, result.roomId, result.createdAt);
      SettledKeepsOk(s, TicketIds(s, matched), change);
      var t, r := Settled(s, TicketIds(s, matched), change), Completed(s, players, result);
      assert forall id :: IsQueued(r, id) <==> IsQueued(t, id);
    }
  }

  // ---------- requeue ----------

  /** The i-th player is put back by call i: how many are put back. */
  function RequeueReach(fault: Fault, n: nat): nat {
    if fault.Some? && fault.value < n then fault.value else n
  }

  /** The pool after the first `n` players have been put back, each at its own clock reading. */
  function RequeuedPool(s: Store, players: seq<string>, stamps: seq<Stamp>, n: nat): ZSet
    requires n <= |players| <= |stamps|
  {
    if n == 0 then s.pool
    else
      var pool := RequeuedPool(s, players, stamps, n - 1);
      var p := players[n - 1];
      if p in s.playerTicket && IsQueued(s, s.playerTicket[p]) then
        pool[p := Composite(s.tickets[s.playerTicket[p]].mmr, stamps[n - 1])]
      else pool
  }

  function Requeued(s: Store, players: seq<string>, stamps: seq<Stamp>, n: nat): Store
    requires n <= |players| <= |stamps|
  {
    s.(pool := RequeuedPool(s, players, stamps, n))
  }

  lemma PutBackKeepsOk(s: Store, pool: ZSet, p: string, stamp: Stamp)
    requires StoreOk(s.(pool := pool)) && p in s.playerTicket && s.playerTicket[p] in s.tickets
    ensures StoreOk(s.(pool := pool[p := Composite(s.tickets[s.playerTicket[p]].mmr, stamp)]))
  {
    CompositeCarries(s.tickets[s.playerTicket[p]].mmr, stamp);
    var t, r := s.(pool := pool), s.(pool := pool[p := Composite(s.tickets[s.playerTicket[p]].mmr, stamp)]);
    assert forall id :: IsQueued(r, id) <==> IsQueued(t, id);
  }

  lemma {:induction false} RequeuedPoolIs(s: Store, players: seq<string>, stamps: seq<Stamp>, n: nat)
    requires StoreOk(s) && n <= |players| <= |stamps|
    ensures RequeuedPool(s, players, stamps, n).Keys
         == s.pool.Keys + set p | p in players[..n] && p in s.playerTicket
    ensures forall p | p in s.pool && p !in players[..n] :: RequeuedPool(s, players, stamps, n)[p] == s.pool[p]
    ensures StoreOk(Requeued(s, players, stamps, n))
  {
    hide ExpiryAgrees, PoolCarriesMmr, PoolStamped, Composite;
    if n == 0 {
      assert Requeued(s, players, stamps, n) == s;
    } else {
      RequeuedPoolIs(s, players, stamps, n - 1);
      assert players[..n] == players[..n - 1] + [players[n - 1]];
      var p := players[n - 1];
      if p in s.playerTicket {
        PutBackKeepsOk(s, RequeuedPool(s, players, stamps, n - 1), p, stamps[n - 1]);
      }
    }
  }
}
