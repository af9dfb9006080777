/** What the operations on tickets leave behind, field by field and without the functions that define them. */
module TicketEffects {
  import opened ZSets
  import opened MatchStore
  import opened PickAndSweep

  // ---------- creation ----------

  /** What is reported, and that a creation enters the ticket in all four places or, failing, changes nothing but a
      pool entry of an unqueued player that its last clean-up removes. */
  predicate CreatesAs(before: Store, after: Store, t: Ticket, stamp: Stamp, fault: CreateFault, error: Option<Error>) {
    var queued := t.player in before.playerTicket;
    && error == (if fault == PlayerKeyFails then Some(RedisFailure)
                 else if queued then Some(PlayerAlreadyQueued)
                 else if fault != NoFault then Some(RedisFailure)
                 else None)
    && after == if error.None? then
         before.(
           tickets := before.tickets[t.id := t],
           playerTicket := before.playerTicket[t.player := t.id],
           pool := before.pool[t.player := t.mmr as real + stamp as real / 10_000_000_000_000.0],
           expiry := before.expiry[t.id := t.expiresAt as real])
       else if fault == ExpiryAddFails && !queued then before.(pool := before.pool - {t.player})
       else before
  }

  lemma CreateEffect(s: Store, t: Ticket, stamp: Stamp, fault: CreateFault)
    ensures CreatesAs(s, Created(s, t, stamp, fault), t, stamp, fault, CreateError(s, t, fault))
  {
  }

  // ---------- completion ----------

  /** Two of the players, counted with repetition, hold a ticket key. */
  predicate TwoKeyed(s: Store, players: seq<string>) {
    exists i, j | 0 <= i < j < |players| :: players[i] in s.playerTicket && players[j] in s.playerTicket
  }

  lemma TwoKeyedAppend(s: Store, players: seq<string>, p: string)
    ensures TwoKeyed(s, players + [p])
       <==> TwoKeyed(s, players)
            || (p in s.playerTicket && exists i | 0 <= i < |players| :: players[i] in s.playerTicket)
  {
    var all := players + [p];
    if TwoKeyed(s, all) {
      var i, j :| 0 <= i < j < |all| && all[i] in s.playerTicket && all[j] in s.playerTicket;
      assert all[i] == players[i];
      if j < |players| {
        assert all[j] == players[j];
      }
    }
    if i, j :| 0 <= i < j < |players| && players[i] in s.playerTicket && players[j] in s.playerTicket {
      assert all[i] in s.playerTicket && all[j] in s.playerTicket;
    }
    if i :| 0 <= i < |players| && players[i] in s.playerTicket && p in s.playerTicket {
      assert all[i] in s.playerTicket && all[|players|] in s.playerTicket;
    }
  }

  lemma {:induction false} StillQueuedCount(s: Store, players: seq<string>)
    ensures |StillQueued(s, players)| >= 1 <==> exists i | 0 <= i < |players| :: players[i] in s.playerTicket
    ensures |StillQueued(s, players)| >= 2 <==> TwoKeyed(s, players)
  {
    if players != [] {
      var n := |players| - 1;
      StillQueuedCount(s, players[..n]);
      TwoKeyedAppend(s, players[..n], players[n]);
      assert players == players[..n] + [players[n]];
      hide TwoKeyed;
      assert (exists i | 0 <= i < |players| :: players[i] in s.playerTicket)
        <==> (exists i | 0 <= i < n :: players[..n][i] in s.playerTicket) || players[n] in s.playerTicket;
    }
  }

  /** The player's queued ticket is now `t`: matched, and out of the key and the expiry index. */
  predicate MatchedNow(before: Store, after: Store, p: string, result: MatchResult, t: Ticket) {
    && p in before.playerTicket && p !in after.playerTicket
    && var id := before.playerTicket[p];
       && id in before.tickets && id in after.tickets && id !in after.expiry && after.tickets[id] == t
       && t == before.tickets[id].(status := Matched, matchId := result.matchId, roomId := result.roomId,
                                   updatedAt := result.createdAt)
  }

  /** The ticket is as it was, and still in the expiry index if it was there. */
  predicate SameAsBefore(before: Store, after: Store, id: string) {
    && id in before.tickets && id in after.tickets && after.tickets[id] == before.tickets[id]
    && (id in after.expiry <==> id in before.expiry)
    && (id in before.expiry ==> after.expiry[id] == before.expiry[id])
  }

  lemma {:induction false} AllStillQueued(s: Store, players: seq<string>)
    ensures (forall p | p in players :: p in s.playerTicket) ==> StillQueued(s, players) == players
  {
    if players != [] && forall p | p in players :: p in s.playerTicket {
      var n := |players| - 1;
      assert players == players[..n] + [players[n]];
      AllStillQueued(s, players[..n]);
    }
  }

  lemma CompletedKeys(s: Store, players: seq<string>, result: MatchResult)
    requires KeysAgree(s) && |StillQueued(s, players)| >= 2
    ensures
      var r := Completed(s, players, result);
      r.playerTicket == s.playerTicket - Ids(StillQueued(s, players)) && r.pool == s.pool
      && r.results == s.results[result.matchId := result.(players := StillQueued(s, players))]
  {
    StillQueuedMembers(s, players);
    var matched, r := StillQueued(s, players), Completed(s, players, result);
    hide StillQueued;
    forall p | p in s.playerTicket ensures p in r.playerTicket <==> p !in Ids(matched) {
      if q :| q in matched && q in s.playerTicket && s.playerTicket[q] == s.playerTicket[p] {
        assert q == p;
      }
    }
  }

  lemma CompletedTicket(s: Store, players: seq<string>, result: MatchResult, p: string)
    requires StoreOk(s) && |StillQueued(s, players)| >= 2 && p in StillQueued(s, players)
    ensures
      && p in s.playerTicket && s.playerTicket[p] in Completed(s, players, result).tickets
      && MatchedNow(s, Completed(s, players, result), p, result,
                    Completed(s, players, result).tickets[s.playerTicket[p]])
  {
    StillQueuedMembers(s, players);
    CompletedKeys(s, players, result);
    hide StillQueued, ExpiryAgrees, PoolCarriesMmr, PoolStamped;
    assert s.playerTicket[p] in TicketIds(s, StillQueued(s, players));
    assert p in Ids(StillQueued(s, players));
  }

  lemma CompletedOther(s: Store, players: seq<string>, result: MatchResult, id: string)
    requires StoreOk(s) && |StillQueued(s, players)| >= 2 && id in s.tickets
    requires s.tickets[id].status != Queued || s.tickets[id].player !in StillQueued(s, players)
    ensures SameAsBefore(s, Completed(s, players, result), id)
  {
    StillQueuedMembers(s, players);
    hide StillQueued, ExpiryAgrees, PoolCarriesMmr, PoolStamped;
    assert id !in TicketIds(s, StillQueued(s, players));
  }

  lemma StoreHasKeys(s: Store)
    requires StoreOk(s)
    ensures KeysAgree(s)
  {
  }

  lemma CompletedTickets(s: Store, players: seq<string>, result: MatchResult)
    requires StoreOk(s) && |StillQueued(s, players)| >= 2
    ensures
      var r := Completed(s, players, result);
      forall p | p in StillQueued(s, players) ::
        p in s.playerTicket && s.playerTicket[p] in r.tickets
        && MatchedNow(s, r, p, result, r.tickets[s.playerTicket[p]])
  {
    hide StoreOk, StillQueued, Completed, MatchedNow;
    var r := Completed(s, players, result);
    forall p | p in StillQueued(s, players)
      ensures p in s.playerTicket && s.playerTicket[p] in r.tickets
              && MatchedNow(s, r, p, result, r.tickets[s.playerTicket[p]])
    {
      CompletedTicket(s, players, result, p);
    }
  }

  lemma CompletedOthers(s: Store, players: seq<string>, result: MatchResult)
    requires StoreOk(s) && |StillQueued(s, players)| >= 2
    ensures forall id | id in s.tickets ::
              s.tickets[id].status != Queued || s.tickets[id].player !in StillQueued(s, players) ==>
                SameAsBefore(s, Completed(s, players, result), id)
  {
    hide StoreOk, StillQueued, Completed, SameAsBefore;
    forall id | id in s.tickets && (s.tickets[id].status != Queued || s.tickets[id].player !in StillQueued(s, players))
      ensures SameAsBefore(s, Completed(s, players, result), id)
    {
      CompletedOther(s, players, result, id);
    }
  }

  /** A completion matches exactly the keyed players, in their order, and rewrites exactly their tickets. */
  ghost predicate CompletesAs(
    before: Store, after: Store, players: seq<string>, result: MatchResult, stored: MatchResult, tickets: seq<Ticket>)
  {
    var matched := stored.players;
    && stored == result.(players := matched) && |tickets| == |matched|
    && (forall p :: p in matched <==> p in players && p in before.playerTicket)
    && ((forall p | p in players :: p in before.playerTicket) ==> matched == players)
    && (forall i | 0 <= i < |matched| :: MatchedNow(before, after, matched[i], result, tickets[i]))
    && after.results == before.results[result.matchId := stored] && after.pool == before.pool
    && after.playerTicket == before.playerTicket - Ids(matched) && after.tickets.Keys == before.tickets.Keys
    && forall id | id in before.tickets ::
         before.tickets[id].status != Queued || before.tickets[id].player !in matched ==>
           SameAsBefore(before, after, id)
  }

  lemma CompletedTable(s: Store, players: seq<string>, result: MatchResult)
    requires |StillQueued(s, players)| >= 2
    ensures Completed(s, players, result).tickets.Keys == s.tickets.Keys
  {
  }

  lemma MatchedInOrder(s: Store, r: Store, matched: seq<string>, result: MatchResult)
    requires forall p | p in matched ::
               p in s.playerTicket && s.playerTicket[p] in r.tickets
               && MatchedNow(s, r, p, result, r.tickets[s.playerTicket[p]])
    ensures |StoredTickets(s, r, matched)| == |matched|
    ensures forall i | 0 <= i < |matched| :: MatchedNow(s, r, matched[i], result, StoredTickets(s, r, matched)[i])
  {
    hide MatchedNow;
    assert forall i | 0 <= i < |matched| :: matched[i] in matched;
  }

  lemma CompletionEffect(s: Store, players: seq<string>, result: MatchResult)
    requires StoreOk(s) && |StillQueued(s, players)| >= 2
    ensures
      var matched, r := StillQueued(s, players), Completed(s, players, result);
      && (forall p | p in matched :: p in s.playerTicket && s.playerTicket[p] in r.tickets)
      && CompletesAs(s, r, players, result, result.(players := matched), StoredTickets(s, r, matched))
  {
    hide StoreOk, KeysAgree, StillQueued, Completed, StoredTickets, MatchedNow, SameAsBefore, Ids;
    var matched, r := StillQueued(s, players), Completed(s, players, result);
    StoreHasKeys(s);
    CompletedTable(s, players, result);
    CompletedKeys(s, players, result);
    CompletedTickets(s, players, result);
    MatchedInOrder(s, r, matched, result);
    CompletedOthers(s, players, result);
    AllStillQueued(s, players);
    StillQueuedMembers(s, players);
  }

  // ---------- requeue ----------

  /** The player's pool score is made of the rating of the queued ticket and the clock reading. */
  predicate EnqueuedAt(s: Store, p: string, stamp: Stamp) {
    && p in s.pool && p in s.playerTicket && s.playerTicket[p] in s.tickets
    && s.pool[p] == s.tickets[s.playerTicket[p]].mmr as real + stamp as real / 10_000_000_000_000.0
  }

  /** Among the first `n` calls the i-th is the last for its player. */
  predicate LastCall(players: seq<string>, n: nat, i: nat)
    requires i < n <= |players|
  {
    forall j | i < j < n :: players[j] != players[i]
  }

  lemma {:induction false} RequeuedPlayer(s: Store, players: seq<string>, stamps: seq<Stamp>, n: nat, i: nat)
    requires KeysAgree(s) && i < n <= |players| <= |stamps|
    requires players[i] in s.playerTicket && LastCall(players, n, i)
    ensures EnqueuedAt(Requeued(s, players, stamps, n), players[i], stamps[i])
  {
    if i < n - 1 {
      RequeuedPlayer(s, players, stamps, n - 1, i);
    }
  }

  /** The player's pool entry is as it was. */
  predicate SameEntry(before: Store, after: Store, p: string) {
    (p in after.pool <==> p in before.pool) && (p in before.pool ==> after.pool[p] == before.pool[p])
  }

  lemma {:induction false} RequeuedOther(s: Store, players: seq<string>, stamps: seq<Stamp>, n: nat, p: string)
    requires n <= |players| <= |stamps| && (p !in players[..n] || p !in s.playerTicket)
    ensures SameEntry(s, Requeued(s, players, stamps, n), p)
  {
    if n > 0 {
      assert players[..n] == players[..n - 1] + [players[n - 1]];
      RequeuedOther(s, players, stamps, n - 1, p);
    }
  }

  /** A requeue of the first `n` players enqueues the keyed ones, each at the reading of the player's last call, and
      leaves everyone else's entry as it was. */
  ghost predicate RequeuesAs(before: Store, after: Store, players: seq<string>, stamps: seq<Stamp>, n: nat)
    requires n <= |players| <= |stamps|
  {
    && after == before.(pool := after.pool)
    && (forall i | 0 <= i < n ::
          players[i] in before.playerTicket && LastCall(players, n, i) ==> EnqueuedAt(after, players[i], stamps[i]))
    && (forall p :: (p in players[..n] && p in before.playerTicket) || SameEntry(before, after, p))
  }

  lemma RequeueEffect(s: Store, players: seq<string>, stamps: seq<Stamp>, n: nat)
    requires KeysAgree(s) && n <= |players| <= |stamps|
    ensures RequeuesAs(s, Requeued(s, players, stamps, n), players, stamps, n)
  {
    var r := Requeued(s, players, stamps, n);
    hide KeysAgree, RequeuedPool, EnqueuedAt, LastCall, SameEntry;
    forall i | 0 <= i < n
      ensures players[i] in s.playerTicket && LastCall(players, n, i) ==> EnqueuedAt(r, players[i], stamps[i])
    {
      if players[i] in s.playerTicket && LastCall(players, n, i) {
        RequeuedPlayer(s, players, stamps, n, i);
      }
    }
    forall p ensures (p in players[..n] && p in s.playerTicket) || SameEntry(s, r, p) {
      if !(p in players[..n] && p in s.playerTicket) {
        RequeuedOther(s, players, stamps, n, p);
      }
    }
  }

  // ---------- timeout ----------

  /** The ticket was queued and has timed out: `t` is stored, and the ticket is out of every other place. */
  predicate TimedOutNow(before: Store, after: Store, now: int, t: Ticket) {
    && t.id in before.tickets && t.id in after.tickets && after.tickets[t.id] == t
    && before.tickets[t.id].status == Queued && before.tickets[t.id].expiresAt <= now
    && t == before.tickets[t.id].(status := TimedOut, updatedAt := now)
    && t.player !in after.playerTicket && t.player !in after.pool && t.id !in after.expiry
  }

  lemma ExpiryKept(s: Store, r: Store, now: int, t: Ticket)
    requires TimedOutNow(s, r, now, t)
    ensures t.id in s.tickets && t.expiresAt == s.tickets[t.id].expiresAt
  {
  }

  lemma SweptTicket(s: Store, ids: seq<string>, now: int, id: string)
    requires StoreOk(s) && id in ids && IsQueued(s, id) && s.tickets[id].expiresAt <= now
    ensures id in Swept(s, ids, now).tickets && Swept(s, ids, now).tickets[id].id == id
    ensures TimedOutNow(s, Swept(s, ids, now), now, Swept(s, ids, now).tickets[id])
  {
    hide ExpiryAgrees, PoolCarriesMmr, PoolStamped;
    assert id in Ids(ids) && s.tickets[id].player in PlayersOf(s, Ids(ids));
    assert s.playerTicket[s.tickets[id].player] == id;
  }

  /** The ticket is as it was, and it was not to be taken before the ones that were. */
  ghost predicate LeftBy(before: Store, after: Store, now: int, timedOut: seq<Ticket>, id: string) {
    && id in before.tickets && id in after.tickets && after.tickets[id] == before.tickets[id]
    && (id in Expired(before, now) ==> forall t | t in timedOut :: t.expiresAt <= before.tickets[id].expiresAt)
  }

  predicate Took(timedOut: seq<Ticket>, id: string) {
    exists t | t in timedOut :: t.id == id
  }

  /** A sweep times out as many expired queued tickets as the limit allows, 100 when none is given, each once, and
      leaves none that expires earlier than one it takes. */
  ghost predicate SweepsAs(before: Store, after: Store, now: int, limit: int, timedOut: seq<Ticket>) {
    var l := if limit <= 0 then 100 else limit;
    var expired := |Expired(before, now)|;
    && |timedOut| == (if expired < l then expired else l)
    && (forall t | t in timedOut :: TimedOutNow(before, after, now, t))
    && (forall i, j | 0 <= i < j < |timedOut| :: timedOut[i].id != timedOut[j].id)
    && after.tickets.Keys == before.tickets.Keys && after.results == before.results
    && forall id | id in before.tickets ::
         Took(timedOut, id) || LeftBy(before, after, now, timedOut, id)
  }

  lemma SweptOther(s: Store, now: int, limit: int, timedOut: seq<Ticket>, id: string)
    requires StoreOk(s) && id in s.tickets && id !in SweepIds(s, now, limit)
    requires forall t | t in timedOut ::
               t.id in SweepIds(s, now, limit) && t.id in s.tickets && t.expiresAt == s.tickets[t.id].expiresAt
    ensures LeftBy(s, Swept(s, SweepIds(s, now, limit), now), now, timedOut, id)
  {
    SweepInFields(s, now, limit);
    var ids := SweepIds(s, now, limit);
    hide StoreOk, SweepIds, Expired;
    assert id !in Ids(ids);
    forall t | t in timedOut && id in Expired(s, now) ensures t.expiresAt <= s.tickets[id].expiresAt {
      var i :| 0 <= i < |ids| && ids[i] == t.id;
    }
  }

  /** `timedOut` are the stored tickets of `ids` after they have been swept. */
  predicate AreSwept(s: Store, ids: seq<string>, now: int, timedOut: seq<Ticket>) {
    && |timedOut| == |ids|
    && forall i | 0 <= i < |ids| ::
         ids[i] in Swept(s, ids, now).tickets && timedOut[i] == Swept(s, ids, now).tickets[ids[i]]
  }

  lemma AsManySwept(s: Store, ids: seq<string>, now: int, timedOut: seq<Ticket>)
    requires AreSwept(s, ids, now, timedOut)
    ensures |timedOut| == |ids|
  {
  }

  lemma SweptList(s: Store, ids: seq<string>, now: int, timedOut: seq<Ticket>)
    requires StoreOk(s) && AreSwept(s, ids, now, timedOut)
    requires forall id | id in ids :: id in s.tickets && IsQueued(s, id) && s.tickets[id].expiresAt <= now
    ensures forall i | 0 <= i < |ids| :: timedOut[i].id == ids[i]
    ensures forall t | t in timedOut :: TimedOutNow(s, Swept(s, ids, now), now, t) && t.id in ids
    ensures forall t | t in timedOut :: t.id in s.tickets && t.expiresAt == s.tickets[t.id].expiresAt
  {
    hide StoreOk, Swept, TimedOutNow, IsQueued;
    forall i | 0 <= i < |ids|
      ensures timedOut[i].id == ids[i] && ids[i] in ids && TimedOutNow(s, Swept(s, ids, now), now, timedOut[i])
    {
      SweptTicket(s, ids, now, ids[i]);
    }
    forall t | t in timedOut ensures t.id in s.tickets && t.expiresAt == s.tickets[t.id].expiresAt {
      ExpiryKept(s, Swept(s, ids, now), now, t);
    }
  }

  lemma SweptCount(s: Store, now: int, limit: int, timedOut: seq<Ticket>)
    requires StoreOk(s) && |timedOut| == |SweepIds(s, now, limit)|
    requires forall i | 0 <= i < |timedOut| :: timedOut[i].id == SweepIds(s, now, limit)[i]
    ensures
      var l := if limit <= 0 then 100 else limit;
      |timedOut| == if |Expired(s, now)| < l then |Expired(s, now)| else l
    ensures forall i, j | 0 <= i < j < |timedOut| :: timedOut[i].id != timedOut[j].id
  {
    hide StoreOk, SweepIds, Expired;
    SweepInFields(s, now, limit);
  }

  lemma SweptRest(s: Store, now: int, limit: int, timedOut: seq<Ticket>, id: string)
    requires StoreOk(s) && AreSwept(s, SweepIds(s, now, limit), now, timedOut) && id in s.tickets
    ensures Took(timedOut, id) || LeftBy(s, Swept(s, SweepIds(s, now, limit), now), now, timedOut, id)
  {
    var ids := SweepIds(s, now, limit);
    SweepTakesFirstDue(s, now, limit);
    SweptList(s, ids, now, timedOut);
    AsManySwept(s, ids, now, timedOut);
    hide StoreOk, SweepIds, Swept, TimedOutNow, LeftBy, IsQueued, AreFirst, AreSwept;
    if id in ids {
      var i :| 0 <= i < |ids| && ids[i] == id;
      assert timedOut[i] in timedOut;
    } else {
      SweptOther(s, now, limit, timedOut, id);
    }
  }

  lemma SweptAreDue(s: Store, now: int, limit: int)
    requires StoreOk(s)
    ensures forall id | id in SweepIds(s, now, limit) ::
              id in s.tickets && IsQueued(s, id) && s.tickets[id].expiresAt <= now
  {
    SweepTakesFirstDue(s, now, limit);
  }

  lemma SweptTable(s: Store, ids: seq<string>, now: int)
    ensures Swept(s, ids, now).tickets.Keys == s.tickets.Keys && Swept(s, ids, now).results == s.results
  {
  }

  lemma SweepEffect(s: Store, now: int, limit: int, timedOut: seq<Ticket>)
    requires StoreOk(s) && AreSwept(s, SweepIds(s, now, limit), now, timedOut)
    ensures SweepsAs(s, Swept(s, SweepIds(s, now, limit), now), now, limit, timedOut)
  {
    hide StoreOk, SweepIds, Swept, TimedOutNow, LeftBy, Expired, IsQueued, AreFirst, AreSwept, Took;
    var ids := SweepIds(s, now, limit);
    var r := Swept(s, ids, now);
    SweptTable(s, ids, now);
    AsManySwept(s, ids, now, timedOut);
    SweptAreDue(s, now, limit);
    SweptList(s, ids, now, timedOut);
    SweptCount(s, now, limit, timedOut);
    forall id | id in s.tickets ensures Took(timedOut, id) || LeftBy(s, r, now, timedOut, id) {
      SweptRest(s, now, limit, timedOut, id);
    }
  }
}
