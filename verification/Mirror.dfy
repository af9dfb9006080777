/** The MySQL tables that mirror tickets and results. */
module Mirrors {
  import opened MatchStore

  datatype Mirror = Mirror(tickets: map<string, Ticket>, results: map<string, MatchResult>)

  const EMPTY_MIRROR := Mirror(map[], map[])

  /** An insert, or an update of every column but the creation time. */
  function UpsertTicket(m: Mirror, t: Ticket): Mirror {
    m.(tickets := m.tickets[t.id := if t.id in m.tickets then t.(createdAt := m.tickets[t.id].createdAt) else t])
  }

  function UpsertResult(m: Mirror, r: MatchResult): Mirror {
    m.(results := m.results[r.matchId :=
      if r.matchId in m.results then r.(createdAt := m.results[r.matchId].createdAt) else r])
  }

  function UpsertTickets(m: Mirror, tickets: seq<Ticket>): Mirror {
    if tickets == [] then m
    else UpsertTicket(UpsertTickets(m, tickets[..|tickets| - 1]), tickets[|tickets| - 1])
  }

  class MySQLRepository {
    var tickets: map<string, Ticket>
    var results: map<string, MatchResult>

    function State(): Mirror
      reads this
    {
      Mirror(tickets, results)
    }

    /** Both tables have their id as primary key. */
    ghost predicate Valid()
      reads this
    {
      && (forall id | id in tickets :: tickets[id].id == id)
      && (forall m | m in results :: results[m].matchId == m)
    }

    constructor ()
      ensures Valid() && State() == EMPTY_MIRROR
    {
      tickets, results := map[], map[];
    }

    method UpsertMatchTicket(t: Ticket)
      requires Valid()
      modifies this`tickets
      ensures Valid() && State() == UpsertTicket(old(State()), t)
      ensures
        var createdAt := if t.id in old(tickets) then old(tickets)[t.id].createdAt else t.createdAt;
        tickets == old(tickets)[t.id := t.(createdAt := createdAt)] && results == old(results)
    {
      if t.id in tickets {
        tickets := tickets[t.id := tickets[t.id].(
          player := t.player, mmr := t.mmr, mode := t.mode, status := t.status, matchId := t.matchId,
          roomId := t.roomId, updatedAt := t.updatedAt, expiresAt := t.expiresAt)];
      } else {
        tickets := tickets[t.id := t];
      }
    }

    method UpsertMatchResult(r: MatchResult)
      requires Valid()
      modifies this`results
      ensures Valid() && State() == UpsertResult(old(State()), r)
      ensures
        var createdAt := if r.matchId in old(results) then old(results)[r.matchId].createdAt else r.createdAt;
        results == old(results)[r.matchId := r.(createdAt := createdAt)] && tickets == old(tickets)
    {
      if r.matchId in results {
        results := results[r.matchId := results[r.matchId].(
          roomId := r.roomId, serverId := r.serverId, serverAddr := r.serverAddr, mode := r.mode,
          players := r.players, status := r.status)];
      } else {
        results := results[r.matchId := r];
      }
    }
  }
}
