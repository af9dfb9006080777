/** The repository of tickets, over the Redis keys it updates in place. */
module PlayerRepositories {
  import opened ZSets
  import opened MatchStore
  import opened PickAndSweep
  import opened TicketEffects

  datatype Completion = NoMatch | Done(result: MatchResult, tickets: seq<Ticket>)

  function Names(tickets: seq<Ticket>): seq<string> {
    seq(|tickets|, (i: nat) requires i < |tickets| => tickets[i].player)
  }

  /** The ticket is the one the store holds for its player. */
  predicate HoldsTicket(s: Store, t: Ticket) {
    t.player in s.playerTicket && s.playerTicket[t.player] == t.id && t.id in s.tickets && s.tickets[t.id] == t
  }

  function MatchChange(result: MatchResult): Change {
    Match(result.matchId, result.roomId, result.createdAt)
  }

  lemma MatchedAreStored(s: Store, queued: seq<Ticket>, matched: seq<Ticket>, result: MatchResult)
    requires forall t | t in queued :: HoldsTicket(s, t)
    requires |matched| == |queued|
    requires forall i | 0 <= i < |queued| :: matched[i] == Apply(MatchChange(result), queued[i])
    ensures
      var r := Settled(s, TicketIds(s, Names(queued)), MatchChange(result));
      && (forall p | p in Names(queued) :: p in s.playerTicket && s.playerTicket[p] in r.tickets)
      && matched == StoredTickets(s, r, Names(queued))
  {
    var r := Settled(s, TicketIds(s, Names(queued)), MatchChange(result));
    var names := Names(queued);
    forall i | 0 <= i < |queued|
      ensures names[i] in s.playerTicket && s.playerTicket[names[i]] in r.tickets
          && matched[i] == r.tickets[s.playerTicket[names[i]]]
    {
      assert queued[i] in queued && HoldsTicket(s, queued[i]);
      assert queued[i].id in TicketIds(s, names) by {
        assert names[i] in names;
      }
    }
  }

  lemma KeyedTicket(s: Store, player: string)
    requires StoreOk(s) && player in s.playerTicket
    ensures IsQueued(s, s.playerTicket[player])
    ensures s.tickets[s.playerTicket[player]].player == player && HoldsTicket(s, s.tickets[s.playerTicket[player]])
  {
  }

  /** Closing one ticket deletes exactly its player's key. */
  lemma ClosingOne(s: Store, id: string, status: Status, now: int)
    requires KeysAgree(s) && IsQueued(s, id)
    ensures Closed(s, {id}, status, now) == s.(
      tickets := s.tickets[id := s.tickets[id].(status := status, updatedAt := now)],
      playerTicket := s.playerTicket - {s.tickets[id].player},
      pool := s.pool - {s.tickets[id].player},
      expiry := s.expiry - {id})
  {
    assert PlayersOf(s, {id}) == {s.tickets[id].player};
    assert Settled(s, {id}, Close(status, now)).playerTicket == s.playerTicket - {s.tickets[id].player};
  }

  lemma ClosedNothing(s: Store, now: int)
    ensures Swept(s, [], now) == s
  {
    assert PlayersOf(s, Ids([])) == {};
  }

  lemma SettledNothing(s: Store, c: Change)
    ensures Settled(s, TicketIds(s, []), c) == s
  {
  }

  lemma SweepStart(s: Store, now: int, limit: int)
    requires StoreOk(s)
    ensures
      var ids := SweepIds(s, now, limit);
      && (forall i | 0 <= i < |ids| :: IsQueued(s, ids[i]) && s.tickets[ids[i]].expiresAt <= now)
      && (forall i, j | 0 <= i < j < |ids| :: ids[i] != ids[j])
  {
    TakeAreFirst(Due(s, now), SweepLimit(limit));
    DueIsExpiredQueued(s, now);
  }

  lemma SweepNext(s: Store, ids: seq<string>, i: nat, now: int)
    requires i < |ids|
    requires forall j | 0 <= j < |ids| :: IsQueued(s, ids[j])
    requires forall j, k | 0 <= j < k < |ids| :: ids[j] != ids[k]
    ensures Closed(Swept(s, ids[..i], now), {ids[i]}, TimedOut, now) == Swept(s, ids[..i + 1], now)
    ensures
      var t := Swept(s, ids[..i], now);
      IsQueued(t, ids[i]) && t.tickets[ids[i]] == s.tickets[ids[i]]
  {
    var done, next := Ids(ids[..i]), Ids(ids[..i + 1]);
    assert ids[..i + 1] == ids[..i] + [ids[i]];
    assert next == done + {ids[i]};
    assert ids[i] !in done;
    var t := Swept(s, ids[..i], now);
    assert t.tickets[ids[i]] == s.tickets[ids[i]];
    assert PlayersOf(s, next) == PlayersOf(s, done) + PlayersOf(t, {ids[i]});
    assert t.pool - PlayersOf(t, {ids[i]}) == s.pool - PlayersOf(s, next);
  }

  lemma OneKeyPerTicket(s: Store, t: Ticket)
    requires StoreOk(s) && HoldsTicket(s, t)
    ensures forall p | p in s.playerTicket :: s.playerTicket[p] == t.id <==> p == t.player
  {
  }

  /** Deleting the key of each ticket's player in turn is settling one more ticket. */
  lemma SettledNext(s: Store, names: seq<string>, i: nat, t: Ticket, c: Change)
    requires i < |names| && names[i] == t.player && HoldsTicket(s, t)
    requires forall p | p in s.playerTicket :: s.playerTicket[p] == t.id <==> p == t.player
    ensures
      var r := Settled(s, TicketIds(s, names[..i]), c);
      && t.id in r.tickets && Apply(c, r.tickets[t.id]) == Apply(c, t)
      && Settled(s, TicketIds(s, names[..i + 1]), c) == r.(
           tickets := r.tickets[t.id := Apply(c, t)],
           playerTicket := r.playerTicket - {t.player},
           expiry := r.expiry - {t.id})
  {
    assert names[..i + 1] == names[..i] + [t.player];
    assert TicketIds(s, names[..i + 1]) == TicketIds(s, names[..i]) + {t.id};
  }

  class PlayerRepository {
    var tickets: map<string, Ticket>
    var playerTicket: map<string, string>
    var pool: ZSet
    var expiry: ZSet
    var results: map<string, MatchResult>

    function State(): Store
      reads this
    {
      Store(tickets, playerTicket, pool, expiry, results)
    }

    ghost predicate Valid()
      reads this
    {
      StoreOk(State())
    }

    constructor ()
      ensures Valid() && State() == EMPTY_STORE
    {
      tickets, playerTicket, pool, expiry, results := map[], map[], map[], map[], map[];
    }

    method AddPlayerToPool(player: string, mmr: int, stamp: Stamp)
      modifies this`pool
      ensures pool == old(pool)[player := Composite(mmr, stamp)]
      ensures pool == old(pool)[player := mmr as real + stamp as real / 10_000_000_000_000.0]
    {
      pool := pool[player := mmr as real + stamp as real / MAX_TIMESTAMP];
    }

    /** The player key has been taken: writes the ticket hash and its lifetime, or gives the key back. */
    method WriteTicket(ticket: Ticket, fault: CreateFault) returns (failed: bool)
      requires ticket.id !in tickets && ticket.player !in playerTicket
      modifies this`tickets, this`playerTicket
      ensures failed <==> fault == TicketWriteFails || fault == TicketExpireFails
      ensures tickets == if failed then old(tickets) else old(tickets)[ticket.id := ticket]
      ensures playerTicket == if failed then old(playerTicket) else old(playerTicket)[ticket.player := ticket.id]
    {
      playerTicket := playerTicket[ticket.player := ticket.id];
      if fault == TicketWriteFails {
        playerTicket := playerTicket - {ticket.player};
        return true;
      }
      tickets := tickets[ticket.id := ticket];
      if fault == TicketExpireFails {
        playerTicket, tickets := playerTicket - {ticket.player}, tickets - {ticket.id};
        return true;
      }
      return false;
    }

    /** Enters the written ticket into the pool and the expiry index, or deletes what was written. */
    method IndexTicket(ticket: Ticket, stamp: Stamp, fault: CreateFault) returns (failed: bool)
      modifies this`tickets, this`playerTicket, this`pool, this`expiry
      ensures failed <==> fault == PoolAddFails || fault == ExpiryAddFails
      ensures tickets == if failed then old(tickets) - {ticket.id} else old(tickets)
      ensures playerTicket == if failed then old(playerTicket) - {ticket.player} else old(playerTicket)
      ensures pool == if fault == PoolAddFails then old(pool)
                      else if failed then old(pool) - {ticket.player}
                      else old(pool)[ticket.player := Composite(ticket.mmr, stamp)]
      ensures expiry == if failed then old(expiry) else old(expiry)[ticket.id := ticket.expiresAt as real]
    {
      if fault == PoolAddFails {
        playerTicket, tickets := playerTicket - {ticket.player}, tickets - {ticket.id};
        return true;
      }
      AddPlayerToPool(ticket.player, ticket.mmr, stamp);
      if fault == ExpiryAddFails {
        playerTicket, tickets := playerTicket - {ticket.player}, tickets - {ticket.id};
        pool := pool - {ticket.player};
        return true;
      }
      expiry := expiry[ticket.id := ticket.expiresAt as real];
      return false;
    }

    method CreateMatchTicket(ticket: Ticket, stamp: Stamp, fault: CreateFault) returns (error: Option<Error>)
      requires Valid() && ticket.id !in tickets && ticket.status == Queued
      modifies this
      ensures Valid() && State() == Created(old(State()), ticket, stamp, fault)
      ensures error == CreateError(old(State()), ticket, fault)
      ensures CreatesAs(old(State()), State(), ticket, stamp, fault, error)
    {
      hide StoreOk, Composite, CreatesAs;
      CreateEffect(State(), ticket, stamp, fault);
      CreatedKeepsOk(State(), ticket, stamp, fault);
      if fault == PlayerKeyFails {
        return Some(RedisFailure);
      }
      if ticket.player in playerTicket {
        return Some(PlayerAlreadyQueued);
      }
      var failed := WriteTicket(ticket, fault);
      if failed {
        return Some(RedisFailure);
      }
      failed := IndexTicket(ticket, stamp, fault);
      if failed {
        assert tickets == old(tickets) && playerTicket == old(playerTicket);
        return Some(RedisFailure);
      }
      return None;
    }

    method GetMatchTicket(ticketId: string) returns (ticket: Option<Ticket>)
      ensures ticket == if ticketId in tickets then Some(tickets[ticketId]) else None
    {
      if ticketId !in tickets {
        return None;
      }
      return Some(tickets[ticketId]);
    }

    /** The four writes that take a queued ticket out of every place it is kept in. */
    method CloseTicket(ticketId: string, player: string, status: Status, now: int)
      requires Valid() && IsQueued(State(), ticketId) && tickets[ticketId].player == player
      requires LeavesQueue(Close(status, now))
      modifies this
      ensures Valid() && State() == Closed(old(State()), {ticketId}, status, now)
      ensures tickets == old(tickets)[ticketId := old(tickets)[ticketId].(status := status, updatedAt := now)]
      ensures playerTicket == old(playerTicket) - {player} && pool == old(pool) - {player}
      ensures expiry == old(expiry) - {ticketId} && results == old(results)
    {
      ClosedKeepsOk(State(), {ticketId}, status, now);
      ClosingOne(State(), ticketId, status, now);
      tickets := tickets[ticketId := tickets[ticketId].(status := status, updatedAt := now)];
      playerTicket := playerTicket - {player};
      pool := pool - {player};
      expiry := expiry - {ticketId};
    }

    method CancelMatchTicket(ticketId: string, now: int, fails: bool) returns (r: Result<Ticket>)
      requires Valid()
      modifies this
      ensures Valid()
      ensures State() == if r.Ok? then Closed(old(State()), {ticketId}, Cancelled, now) else old(State())
      ensures r.Ok? <==> !fails && IsQueued(old(State()), ticketId)
      ensures r.Ok? ==> ticketId in tickets && r.value == tickets[ticketId]
      ensures r.Err? ==> r.error == if fails then RedisFailure
                                    else if ticketId !in old(tickets) then TicketNotFound else TicketNotQueued
      ensures r.Ok? ==>
        var t := old(tickets)[ticketId];
        && t.status == Queued && r.value == t.(status := Cancelled, updatedAt := now)
        && tickets == old(tickets)[ticketId := r.value] && results == old(results)
        && playerTicket == old(playerTicket) - {t.player} && pool == old(pool) - {t.player}
        && expiry == old(expiry) - {ticketId}
    {
      if fails {
        return Err(RedisFailure);
      }
      var found := GetMatchTicket(ticketId);
      if found.None? {
        return Err(TicketNotFound);
      }
      var ticket := found.value;
      if ticket.status != Queued {
        return Err(TicketNotQueued);
      }
      CloseTicket(ticketId, ticket.player, Cancelled, now);
      return Ok(ticket.(status := Cancelled, updatedAt := now));
    }

    /** The ticket is read first and the timeout script then checks it again before it writes; reading or script
        may fail. */
    method TimeoutMatchTicket(ticketId: string, now: int, fails: bool) returns (r: Result<Option<Ticket>>)
      requires Valid()
      modifies this
      ensures Valid()
      ensures r.Err? <==> fails
      ensures r.Err? ==> r.error == RedisFailure && State() == old(State())
      ensures r.Ok? ==>
        && (r.value.Some? <==> IsQueued(old(State()), ticketId) && old(tickets)[ticketId].expiresAt <= now)
        && State() == (if r.value.Some? then Closed(old(State()), {ticketId}, TimedOut, now) else old(State()))
        && (r.value.Some? ==> ticketId in tickets && r.value.value == tickets[ticketId])
      ensures r.Ok? && r.value.Some? ==>
        var t := old(tickets)[ticketId];
        && t.status == Queued && r.value.value == t.(status := TimedOut, updatedAt := now)
        && tickets == old(tickets)[ticketId := r.value.value] && results == old(results)
        && playerTicket == old(playerTicket) - {t.player} && pool == old(pool) - {t.player}
        && expiry == old(expiry) - {ticketId}
    {
      hide PoolCarriesMmr, PoolStamped;
      if fails {
        return Err(RedisFailure);
      }
      var found := GetMatchTicket(ticketId);
      if found.None? {
        expiry := expiry - {ticketId};
        assert State() == old(State());
        return Ok(None);
      }
      var read := found.value;
      if tickets[ticketId].status != Queued {
        expiry := expiry - {ticketId};
        assert State() == old(State());
        return Ok(None);
      }
      if tickets[ticketId].expiresAt > now {
        return Ok(None);
      }
      CloseTicket(ticketId, read.player, TimedOut, now);
      return Ok(Some(read.(status := TimedOut, updatedAt := now)));
    }

    /** The loop over the listed tickets. */
    method TimeoutListed(now: int, limit: int, fault: Fault) returns (r: Result<seq<Ticket>>)
      requires Valid()
      modifies this
      ensures Valid()
      ensures
        var ids := SweepIds(old(State()), now, limit);
        var reached := ids[..SweepReach(fault, |ids|)];
        && State() == Swept(old(State()), reached, now)
        && (r.Err? <==> SweepErrs(fault, |ids|))
        && (r.Err? ==> r.error == RedisFailure)
        && (r.Ok? ==> |r.value| == |ids| && forall i | 0 <= i < |ids| ::
            ids[i] in tickets && r.value[i] == tickets[ids[i]])
    {
      hide StoreOk, Swept, IsQueued, SweepIds;
      if fault == Some(0) {
        ClosedNothing(State(), now);
        return Err(RedisFailure);
      }
      var ids := SweepIds(State(), now, limit);
      ghost var was := State();
      SweepStart(was, now, limit);
      ClosedNothing(was, now);
      var timedOut: seq<Ticket> := [];
      for i := 0 to |ids|
        invariant Valid() && State() == Swept(was, ids[..i], now)
        invariant |timedOut| == i && forall j | 0 <= j < i :: ids[j] in tickets && timedOut[j] == tickets[ids[j]]
        invariant fault.Some? ==> i < fault.value
      {
        SweepNext(was, ids, i, now);
        var ticket := TimeoutMatchTicket(ids[i], now, fault == Some(i + 1));
        if ticket.Err? {
          return Err(ticket.error);
        }
        if ticket.value.Some? {
          timedOut := timedOut + [ticket.value.value];
        }
      }
      assert ids[..|ids|] == ids;
      return Ok(timedOut);
    }

    method TimeoutExpiredMatchTickets(now: int, limit: int, fault: Fault) returns (r: Result<seq<Ticket>>)
      requires Valid()
      modifies this
      ensures Valid()
      ensures
        var ids := SweepIds(old(State()), now, limit);
        var reached := ids[..SweepReach(fault, |ids|)];
        && State() == Swept(old(State()), reached, now)
        && (r.Err? <==> SweepErrs(fault, |ids|))
        && (r.Err? ==> r.error == RedisFailure)
        && (r.Ok? ==> |r.value| == |ids| && forall i | 0 <= i < |ids| ::
            ids[i] in tickets && r.value[i] == tickets[ids[i]])
      ensures
        var l := if limit <= 0 then 100 else limit;
        var expired := |Expired(old(State()), now)|;
        r.Err? <==> fault.Some? && fault.value <= (if expired < l then expired else l)
      ensures r.Ok? ==> SweepsAs(old(State()), State(), now, limit, r.value)
    {
      hide StoreOk, Swept, SweepIds, SweepsAs;
      SweepInFields(State(), now, limit);
      r := TimeoutListed(now, limit, fault);
      if r.Ok? {
        ghost var ids := SweepIds(old(State()), now, limit);
        assert ids[..|ids|] == ids;
        SweepEffect(old(State()), now, limit, r.value);
      }
    }

    /** Picks `count` players out of the pool, or nobody. */
    method SearchAndPickTicketPlayers(minScore: int, maxScore: int, count: nat, fails: bool)
        returns (r: Result<seq<string>>)
      requires Valid()
      modifies this`pool
      ensures Valid()
      ensures r == if fails then Err(RedisFailure) else Ok(PickFrom(old(pool), minScore, maxScore, count))
      ensures State() == if fails then old(State())
          else Without(old(State()), PickFrom(old(pool), minScore, maxScore, count))
    {
      hide StoreOk;
      if fails {
        return Err(RedisFailure);
      }
      var center := TruncDiv(minScore + maxScore, 2);
      var delta := TruncDiv(maxScore - minScore, 2);
      var members := Take(Sorted(Within(pool, (center - delta) as real, (center + delta) as real)), count);
      if |members| == 0 || |members| < count {
        assert pool - Ids([]) == pool;
        return Ok([]);
      }
      ghost var was := pool;
      SmallerPoolKeepsOk(State(), Ids(members));
      for i := 0 to |members|
        invariant pool == was - Ids(members[..i])
      {
        pool := pool - {members[i]};
        assert members[..i + 1] == members[..i] + [members[i]];
      }
      assert members[..|members|] == members;
      return Ok(members);
    }

    /** Reads the players' tickets and keeps those still queued. */
    method ReadQueued(players: seq<string>, fault: Fault) returns (r: Result<seq<Ticket>>)
      requires Valid()
      ensures r.Err? <==> fault.Some? && fault.value < |players|
      ensures r.Err? ==> r.error == RedisFailure
      ensures r.Ok? ==> Names(r.value) == StillQueued(State(), players)
      ensures r.Ok? ==> forall t | t in r.value :: HoldsTicket(State(), t)
    {
      hide StoreOk;
      var queued: seq<Ticket> := [];
      for i := 0 to |players|
        invariant Names(queued) == StillQueued(State(), players[..i])
        invariant forall t | t in queued :: HoldsTicket(State(), t)
        invariant fault.Some? ==> i <= fault.value
      {
        assert players[..i + 1][..i] == players[..i];
        if fault == Some(i) {
          return Err(RedisFailure);
        }
        if players[i] in playerTicket {
          KeyedTicket(State(), players[i]);
          var ticket := GetMatchTicket(playerTicket[players[i]]);
          if ticket.Some? && ticket.value.status == Queued {
            queued := queued + [ticket.value];
          }
        }
      }
      assert players[..|players|] == players;
      return Ok(queued);
    }

    /** The completing transaction's writes for one ticket. */
    method WriteMatchedTicket(ticket: Ticket, change: Change)
      requires change.Match? && ticket.id in tickets && Apply(change, tickets[ticket.id]) == ticket
      modifies this`tickets, this`playerTicket, this`expiry
      ensures tickets == old(tickets)[ticket.id := ticket]
      ensures playerTicket == old(playerTicket) - {ticket.player}
      ensures expiry == old(expiry) - {ticket.id}
    {
      tickets := tickets[ticket.id := tickets[ticket.id].(
        status := ticket.status, matchId := ticket.matchId, roomId := ticket.roomId, updatedAt := ticket.updatedAt)];
      playerTicket := playerTicket - {ticket.player};
      expiry := expiry - {ticket.id};
    }

    /** The writes of the completing transaction to the tickets and their indexes. */
    method WriteMatched(queued: seq<Ticket>, change: Change) returns (matched: seq<Ticket>)
      requires Valid() && change.Match? && forall t | t in queued :: HoldsTicket(State(), t)
      modifies this`tickets, this`playerTicket, this`expiry
      ensures State() == Settled(old(State()), TicketIds(old(State()), Names(queued)), change)
      ensures |matched| == |queued|
      ensures forall i | 0 <= i < |queued| :: matched[i] == Apply(change, queued[i])
    {
      hide StoreOk, Settled, TicketIds;
      ghost var was, names := State(), Names(queued);
      SettledNothing(was, change);
      assert names[..0] == [];
      matched := [];
      for i := 0 to |queued|
        invariant State() == Settled(was, TicketIds(was, names[..i]), change)
        invariant |matched| == i && forall j | 0 <= j < i :: matched[j] == Apply(change, queued[j])
      {
        var ticket := Apply(change, queued[i]);
        matched := matched + [ticket];
        OneKeyPerTicket(was, queued[i]);
        SettledNext(was, names, i, queued[i], change);
        WriteMatchedTicket(ticket, change);
      }
      assert names[..|queued|] == names;
    }

    method CompleteMatch(players: seq<string>, result: MatchResult, fault: Fault) returns (r: Result<Completion>)
      requires Valid()
      modifies this
      ensures Valid() && State() == CompletedUnless(old(State()), players, result, fault)
      ensures r.Err? <==> CompleteErrs(old(State()), players, fault)
      ensures r.Err? ==> r.error == RedisFailure
      ensures r.Err? || r.value.NoMatch? ==> State() == old(State())
      ensures r.Ok? ==> (r.value.Done? <==> |StillQueued(old(State()), players)| >= 2)
      ensures r.Ok? && r.value.Done? ==>
        var matched := StillQueued(old(State()), players);
        && r.value.result == result.(players := matched)
        && (forall p | p in matched :: p in old(playerTicket) && old(playerTicket)[p] in tickets)
        && r.value.tickets == StoredTickets(old(State()), State(), matched)
      ensures r.Err? <==>
        && fault.Some?
        && (fault.value < |players| || (fault.value == |players| && TwoKeyed(old(State()), players)))
      ensures r.Ok? ==> (r.value.Done? <==> TwoKeyed(old(State()), players))
      ensures r.Ok? && r.value.Done? ==>
        CompletesAs(old(State()), State(), players, result, r.value.result, r.value.tickets)
    {
      hide StoreOk, CompletesAs, TwoKeyed;
      StillQueuedCount(State(), players);
      var read := ReadQueued(players, fault);
      if read.Err? {
        return Err(RedisFailure);
      }
      var queued := read.value;
      assert |queued| == |Names(queued)|;
      if |queued| < 2 {
        return Ok(NoMatch);
      }
      if fault == Some(|players|) {
        return Err(RedisFailure);
      }
      CompletedKeepsOk(State(), players, result);
      CompletionEffect(State(), players, result);
      var matched := WriteMatched(queued, MatchChange(result));
      var stored := result.(players := Names(queued));
      results := results[result.matchId := stored];
      MatchedAreStored(old(State()), queued, matched, result);
      return Ok(Done(stored, matched));
    }

    method RequeueMatchTicketPlayers(players: seq<string>, stamps: seq<Stamp>, fault: Fault)
        returns (error: Option<Error>)
      requires Valid() && |players| <= |stamps|
      modifies this`pool
      ensures Valid()
      ensures State() == Requeued(old(State()), players, stamps, RequeueReach(fault, |players|))
      ensures error == if RequeueReach(fault, |players|) < |players| then Some(RedisFailure) else None
      ensures error == if fault.Some? && fault.value < |players| then Some(RedisFailure) else None
      ensures RequeuesAs(old(State()), State(), players, stamps,
                         if fault.Some? && fault.value < |players| then fault.value else |players|)
    {
      hide RequeuesAs;
      RequeueEffect(State(), players, stamps, RequeueReach(fault, |players|));
      ghost var was := State();
      for i := 0 to |players|
        invariant State() == Requeued(was, players, stamps, i)
        invariant fault.Some? ==> i <= fault.value
      {
        if fault == Some(i) {
          RequeuedPoolIs(was, players, stamps, i);
          return Some(RedisFailure);
        }
        if players[i] in playerTicket {
          var ticket := GetMatchTicket(playerTicket[players[i]]);
          if ticket.Some? && ticket.value.status == Queued {
            AddPlayerToPool(ticket.value.player, ticket.value.mmr, stamps[i]);
          }
        }
      }
      RequeuedPoolIs(was, players, stamps, |players|);
      return None;
    }
  }
}
