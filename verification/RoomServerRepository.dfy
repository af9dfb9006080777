/** The repository of room servers, over the Redis keys it updates in place. */
module RoomServerRepositories {
  import opened ZSets
  import opened MatchStore
  import opened RoomRegistry

  /** The assignment to a server whose slots have just been taken. */
  function AssignmentTo(q: Request, g: GameServer, now: int): RoomAssignment {
    RoomAssignment(q.matchId, q.roomId, g.id, g.addr, ModeOf(q), q.players, "assigned", g.load, now)
  }

  /** Which of the writes of a server have been made when one of them fails, key by key. */
  ghost predicate WritesUpTo(before: Registry, after: Registry, g: GameServer, joins: bool, fault: WriteFault)
    requires g.capacity != 0
  {
    var group := if g.mode in before.members then before.members[g.mode] else {};
    var index := if g.mode in before.loads then before.loads[g.mode] else map[];
    var ratio := g.load as real / g.capacity as real;
    var beaten := fault == NoWriteFault || fault == LoadFails || (fault == MemberFails && !joins);
    var listed := fault == NoWriteFault || (fault == MemberFails && !joins);
    && after.assignments == before.assignments
    && after.info == (if fault == InfoFails then before.info else before.info[g.id := g])
    && after.members == (if !joins || fault == InfoFails || fault == MemberFails then before.members
                         else before.members[g.mode := group + {g.id}])
    && after.heartbeats == (if beaten then before.heartbeats[g.id := g.lastHeartbeatAt as real] else before.heartbeats)
    && after.loads == (if listed then before.loads[g.mode := index[g.id := ratio]] else before.loads)
  }

  class RoomServerRepository {
    var info: map<string, GameServer>
    var members: map<string, set<string>>
    var heartbeats: ZSet
    var loads: map<string, ZSet>
    var assignments: map<string, RoomAssignment>

    function State(): Registry
      reads this
    {
      Registry(info, members, heartbeats, loads, assignments)
    }

    ghost predicate Valid()
      reads this
    {
      CapacityOk(info)
    }

    constructor ()
      ensures Valid() && State() == EMPTY_REGISTRY
    {
      info, members, heartbeats, loads, assignments := map[], map[], map[], map[], map[];
    }

    method UpdateServerLoad(mode: string, sid: string, ratio: real)
      modifies this`loads
      ensures State() == WithRatio(old(State()), mode, sid, ratio)
    {
      var index := if mode in loads then loads[mode] else map[];
      loads := loads[mode := index[sid := ratio]];
    }

    /** The writes that register and heartbeat share; only a registration also joins the set of its mode. */
    method WriteServer(server: GameServer, joins: bool, fault: WriteFault) returns (failed: bool)
      requires Valid() && ServerOk(server)
      modifies this
      ensures Valid() && State() == Written(old(State()), server, joins, fault)
      ensures failed == WriteErrs(joins, fault)
    {
      if fault == InfoFails {
        return true;
      }
      info := info[server.id := server];
      if joins {
        if fault == MemberFails {
          return true;
        }
        var group := if server.mode in members then members[server.mode] else {};
        members := members[server.mode := group + {server.id}];
      }
      if fault == BeatFails {
        return true;
      }
      heartbeats := heartbeats[server.id := server.lastHeartbeatAt as real];
      if fault == LoadFails {
        return true;
      }
      UpdateServerLoad(server.mode, server.id, server.load as real / server.capacity as real);
      return false;
    }

    method RegisterGameServer(server: GameServer, now: int, fault: WriteFault) returns (r: Result<GameServer>)
      requires Valid()
      modifies this
      ensures Valid()
      ensures
        var normalized := Normalize(server, now);
        && State() == (if normalized.Ok? then Written(old(State()), normalized.value, true, fault) else old(State()))
        && r == (if normalized.Ok? && WriteErrs(true, fault) then Err(RedisFailure) else normalized)
      ensures
        var error :=
          if server.id == "" then "server_id"
          else if server.addr == "" then "addr"
          else if server.serverType !in {"", "room", "battle"} then "server_type"
          else if server.status !in {"", "active", "draining", "unhealthy"} then "status"
          else if server.capacity <= 0 then "capacity"
          else if server.load < 0 || server.load > server.capacity then "current_load"
          else "";
        var stored := server.(
          serverType := if server.serverType == "" then "room" else server.serverType,
          mode := if server.mode == "" then "default" else server.mode,
          status := if server.status == "" then "active" else server.status,
          lastHeartbeatAt := if server.lastHeartbeatAt <= 0 then now else server.lastHeartbeatAt,
          updatedAt := now);
        if error != "" then State() == old(State()) && r == Err(Invalid(error))
        else
          && server.capacity > 0 && WritesUpTo(old(State()), State(), stored, true, fault)
          && r == if fault == NoWriteFault then Ok(stored) else Err(RedisFailure)
    {
      var normalized := Normalize(server, now);
      if normalized.Err? {
        return normalized;
      }
      var failed := WriteServer(normalized.value, true, fault);
      return if failed then Err(RedisFailure) else normalized;
    }

    method GetGameServer(sid: string) returns (server: Option<GameServer>)
      ensures server == if sid in info then Some(info[sid]) else None
    {
      return if sid in info then Some(info[sid]) else None;
    }

    method HeartbeatGameServer(sid: string, heartbeat: Heartbeat, now: int, fault: WriteFault)
      returns (r: Result<GameServer>)
      requires Valid()
      modifies this
      ensures Valid()
      ensures sid !in old(info) ==> State() == old(State()) && r == Err(GameServerNotFound)
      ensures sid in old(info) ==>
        var beaten := Beaten(old(info)[sid], heartbeat, now);
        && State() == (if beaten.Ok? then Written(old(State()), beaten.value, false, fault) else old(State()))
        && r == (if beaten.Ok? && WriteErrs(false, fault) then Err(RedisFailure) else beaten)
      ensures sid in old(info) ==>
        var g := old(info)[sid];
        var error :=
          if heartbeat.status !in {"", "active", "draining", "unhealthy"} then "status"
          else if heartbeat.load.Some? && (heartbeat.load.value < 0 || heartbeat.load.value > g.capacity) then
            "current_load"
          else "";
        var stored := g.(
          status := if heartbeat.status == "" then g.status else heartbeat.status,
          load := if heartbeat.load.Some? then heartbeat.load.value else g.load,
          lastHeartbeatAt := now, updatedAt := now);
        if error != "" then State() == old(State()) && r == Err(Invalid(error))
        else
          && g.id == sid && g.capacity > 0 && WritesUpTo(old(State()), State(), stored, false, fault)
          && r == if fault == NoWriteFault || fault == MemberFails then Ok(stored) else Err(RedisFailure)
    {
      var found := GetGameServer(sid);
      if found.None? {
        return Err(GameServerNotFound);
      }
      var server := found.value;
      if heartbeat.status != "" {
        if !ValidStatus(heartbeat.status) {
          return Err(Invalid("status"));
        }
        server := server.(status := heartbeat.status);
      }
      if heartbeat.load.Some? {
        if heartbeat.load.value < 0 || heartbeat.load.value > server.capacity {
          return Err(Invalid("current_load"));
        }
        server := server.(load := heartbeat.load.value);
      }
      server := server.(lastHeartbeatAt := now, updatedAt := now);
      var failed := WriteServer(server, false, fault);
      return if failed then Err(RedisFailure) else Ok(server);
    }

    /** The reserve script: checks and writes in one atomic step. */
    method ReserveScript(sid: string, mode: string, now: int, maxAge: int, slots: nat) returns (reserved: Option<int>)
      requires Valid()
      modifies this`info, this`loads
      ensures Valid()
      ensures reserved.Some? <==> sid in old(info) && CanReserve(old(info)[sid], now, maxAge, slots)
      ensures reserved.None? ==> State() == old(State())
      ensures reserved.Some? ==> State() == Stored(old(State()), Taken(old(info)[sid], slots, now), mode)
      ensures reserved.Some? ==> reserved.value == info[sid].load
      ensures reserved.Some? <==>
        && sid in old(info)
        && var g := old(info)[sid];
           && g.status == "active" && 0 < g.lastHeartbeatAt && now - g.lastHeartbeatAt <= maxAge
           && g.load + slots <= g.capacity
      ensures reserved.Some? ==>
        var g := old(info)[sid];
        var index := if mode in old(loads) then old(loads)[mode] else map[];
        && reserved.value == g.load + slots
        && info == old(info)[sid := g.(load := g.load + slots, updatedAt := now)]
        && loads == old(loads)[mode := index[sid := (g.load + slots) as real / g.capacity as real]]
    {
      if sid !in info {
        return None;
      }
      var server := info[sid];
      if server.status != "active" {
        return None;
      }
      if server.lastHeartbeatAt <= 0 || now - server.lastHeartbeatAt > maxAge {
        return None;
      }
      if server.capacity <= 0 || server.load + slots > server.capacity {
        return None;
      }
      var newLoad := server.load + slots;
      info := info[sid := server.(load := newLoad, updatedAt := now)];
      UpdateServerLoad(mode, sid, newLoad as real / server.capacity as real);
      return Some(newLoad);
    }

    /** Goes through the listed servers of the mode and reserves on the first that lets the players in. */
    method ReserveOnFirst(request: Request, mode: string, now: int, maxAge: int) returns (r: Result<RoomAssignment>)
      requires Valid() && |request.players| > 0 && mode == ModeOf(request)
      modifies this`info, this`loads
      ensures Valid()
      ensures
        var slots := |request.players|;
        var choice := Choice(old(State()), mode, now, maxAge, slots);
        && State() == Allocated(old(State()), mode, now, maxAge, slots)
        && (choice.None? ==> r == Err(NoAvailableRoomServer))
        && (choice.Some? ==>
              && choice.value in old(info) && choice.value in info
              && r == Ok(AssignmentTo(request, info[choice.value], now))
              && info == old(info)[choice.value := Taken(old(info)[choice.value], slots, now)])
    {
      var slots := |request.players|;
      var ids := Sorted(LoadIndex(State(), mode));
      if |ids| == 0 {
        return Err(NoAvailableRoomServer);
      }
      for i := 0 to |ids|
        invariant unchanged(this)
        invariant Choice(State(), mode, now, maxAge, slots) == FirstFit(State(), ids[i..], mode, now, maxAge, slots)
      {
        assert ids[i..][0] == ids[i] && ids[i..][1..] == ids[i + 1..];
        var server := GetGameServer(ids[i]);
        if server.Some? && server.value.mode == mode {
          var reserved := ReserveScript(server.value.id, server.value.mode, now, maxAge, slots);
          if reserved.Some? {
            return Ok(RoomAssignment(
              request.matchId, request.roomId, server.value.id, server.value.addr, mode, request.players,
              "assigned", reserved.value, now));
          }
        }
      }
      return Err(NoAvailableRoomServer);
    }

    method AllocateRoomServer(request: Request, clock: int, fails: bool) returns (r: Result<RoomAssignment>)
      requires Valid()
      modifies this`info, this`loads
      ensures Valid()
      ensures
        var now, slots := NowOf(request, clock), |request.players|;
        var choice := Choice(old(State()), ModeOf(request), now, AgeOf(request), slots);
        if slots == 0 then State() == old(State()) && r == Err(Invalid("player_ids"))
        else if fails then State() == old(State()) && r == Err(RedisFailure)
        else
          && State() == Allocated(old(State()), ModeOf(request), now, AgeOf(request), slots)
          && (choice.None? ==> r == Err(NoAvailableRoomServer))
          && (choice.Some? ==> choice.value in info && r == Ok(AssignmentTo(request, info[choice.value], now)))
      ensures
        var mode := if request.mode == "" then "default" else request.mode;
        var now := if request.now <= 0 then clock else request.now;
        var maxAge := if request.heartbeatTimeout <= 0 then 30_000 else request.heartbeatTimeout;
        r.Ok? ==>
          && r.value.serverId in old(info)
          && var g := old(info)[r.value.serverId];
             && g.mode == mode && g.status == "active" && 0 < g.lastHeartbeatAt && now - g.lastHeartbeatAt <= maxAge
             && g.load + |request.players| <= g.capacity
             && r.value == RoomAssignment(
                  request.matchId, request.roomId, g.id, g.addr, mode, request.players, "assigned",
                  g.load + |request.players|, now)
             && info == old(info)[g.id := g.(load := g.load + |request.players|, updatedAt := now)]
      ensures
        var mode := if request.mode == "" then "default" else request.mode;
        var now := if request.now <= 0 then clock else request.now;
        var maxAge := if request.heartbeatTimeout <= 0 then 30_000 else request.heartbeatTimeout;
        r == Err(NoAvailableRoomServer) <==>
          && |request.players| > 0 && !fails
          && forall sid | mode in old(loads) && sid in old(loads)[mode] && sid in old(info) ::
               var g := old(info)[sid];
               !(g.mode == mode && g.status == "active" && 0 < g.lastHeartbeatAt && now - g.lastHeartbeatAt <= maxAge
                 && g.load + |request.players| <= g.capacity)
      ensures
        var mode := if request.mode == "" then "default" else request.mode;
        var now := if request.now <= 0 then clock else request.now;
        var maxAge := if request.heartbeatTimeout <= 0 then 30_000 else request.heartbeatTimeout;
        IndexAgrees(old(State())) ==>
          (r == Err(NoAvailableRoomServer) <==>
             && |request.players| > 0 && !fails
             && forall sid | sid in old(info) ::
                  var g := old(info)[sid];
                  !(g.mode == mode && g.status == "active" && 0 < g.lastHeartbeatAt && now - g.lastHeartbeatAt <= maxAge
                    && g.load + |request.players| <= g.capacity))
      ensures
        var mode := if request.mode == "" then "default" else request.mode;
        var now := if request.now <= 0 then clock else request.now;
        var maxAge := if request.heartbeatTimeout <= 0 then 30_000 else request.heartbeatTimeout;
        IndexAgrees(old(State())) && r.Ok? ==>
          forall sid | sid in old(info) ::
            var g := old(info)[sid];
            var h := if r.value.serverId in old(info) then old(info)[r.value.serverId] else g;
            g.mode == mode && g.status == "active" && 0 < g.lastHeartbeatAt && now - g.lastHeartbeatAt <= maxAge
            && g.load + |request.players| <= g.capacity ==>
              h.load * g.capacity < g.load * h.capacity
              || (h.load * g.capacity == g.load * h.capacity && StringLe(r.value.serverId, sid))
    {
      hide Choice, Allocated, IndexAgrees, StringLe;
      var mode, maxAge, now, slots := ModeOf(request), AgeOf(request), NowOf(request, clock), |request.players|;
      if slots == 0 {
        return Err(Invalid("player_ids"));
      }
      if fails {
        return Err(RedisFailure);
      }
      ChoiceInFields(State(), mode, now, maxAge, slots);
      LeastLoadedInFields(State(), mode, now, maxAge, slots);
      r := ReserveOnFirst(request, mode, now, maxAge);
    }

    method ReleaseRoomServer(assignment: RoomAssignment, now: int, fails: bool) returns (error: Option<Error>)
      requires Valid()
      modifies this`info, this`loads
      ensures Valid()
      ensures
        if assignment.serverId == "" || |assignment.players| == 0 then State() == old(State()) && error == None
        else if fails then State() == old(State()) && error == Some(RedisFailure)
        else && State() == Released(old(State()), assignment.serverId, OrElse(assignment.mode, DEFAULT_MODE),
            |assignment.players|, now)
             && error == None
      ensures
        var sid, mode := assignment.serverId, if assignment.mode == "" then "default" else assignment.mode;
        if sid == "" || |assignment.players| == 0 || fails || sid !in old(info) then State() == old(State())
        else
          var g := old(info)[sid];
          var load := if g.load < |assignment.players| then 0 else g.load - |assignment.players|;
          var index := if mode in old(loads) then old(loads)[mode] else map[];
          && g.capacity > 0
          && info == old(info)[sid := g.(load := load, updatedAt := now)]
          && loads == old(loads)[mode := index[sid := load as real / g.capacity as real]]
    {
      if assignment.serverId == "" || |assignment.players| == 0 {
        return None;
      }
      var mode := if assignment.mode == "" then DEFAULT_MODE else assignment.mode;
      if fails {
        return Some(RedisFailure);
      }
      var sid, slots := assignment.serverId, |assignment.players|;
      if sid !in info {
        return None;
      }
      var capacity := info[sid].capacity;
      var newLoad := info[sid].load - slots;
      if newLoad < 0 {
        newLoad := 0;
      }
      info := info[sid := info[sid].(load := newLoad, updatedAt := now)];
      if capacity > 0 {
        UpdateServerLoad(mode, sid, newLoad as real / capacity as real);
      }
      return None;
    }

    /** The hash is written before its lifetime is set, so it stays when only the latter fails. */
    method SaveRoomAssignment(assignment: RoomAssignment, writeFails: bool, expireFails: bool)
        returns (error: Option<Error>)
      modifies this`assignments
      ensures assignments ==
        if assignment.matchId != "" && !writeFails then old(assignments)[assignment.matchId := assignment]
        else old(assignments)
      ensures error.None? <==> assignment.matchId != "" && !writeFails && !expireFails
    {
      if assignment.matchId == "" {
        return Some(Invalid("match_id"));
      }
      if writeFails {
        return Some(RedisFailure);
      }
      assignments := assignments[assignment.matchId := assignment];
      return if expireFails then Some(RedisFailure) else None;
    }
  }
}
