/** The TCP room server: room objects updated in place, and the map that says which room each player is in. */
module RoomServers {
  import opened ZSets
  import opened RoomStates

  class RoomState {
    const id: string
    const createdAt: int
    var players: set<string>
    var readyPlayers: set<string>
    var started: bool
    var updatedAt: int

    function Value(): Room
      reads this
    {
      Room(id, players, readyPlayers, started, createdAt, updatedAt)
    }

    constructor (id: string, now: int)
      ensures Value() == Room(id, {}, {}, false, now, now)
    {
      this.id, createdAt, updatedAt := id, now, now;
      players, readyPlayers, started := {}, {}, false;
    }

    method Add(player: string, now: int)
      modifies this
      ensures Value() == old(Value()).(players := old(players) + {player}, updatedAt := now)
    {
      players := players + {player};
      updatedAt := now;
    }

    method Drop(player: string, now: int)
      modifies this
      ensures Value() == old(Value()).(players := old(players) - {player}, ready := old(readyPlayers) - {player},
          updatedAt := now)
    {
      players := players - {player};
      readyPlayers := readyPlayers - {player};
      updatedAt := now;
    }

    /** Marks a player ready and starts the room if that was the last one missing. */
    method MarkReady(player: string, now: int) returns (starts: bool)
      modifies this
      ensures starts == Starts(Marked(old(Value()), player, now))
      ensures Value() == if starts then Marked(old(Value()), player, now).(started := true)
          else Marked(old(Value()), player, now)
    {
      readyPlayers := readyPlayers + {player};
      updatedAt := now;
      starts := |players| >= 2 && |readyPlayers| == |players| && !started;
      if starts {
        started := true;
      }
    }
  }

  class Server {
    var rooms: map<string, RoomState>
    var playerRooms: map<string, string>

    function State(): Rooms
      reads this, rooms.Values
    {
      Rooms(map r | r in rooms :: rooms[r].Value(), playerRooms)
    }

    /** No two rooms share a room object. */
    ghost predicate Apart()
      reads this
    {
      forall r, s | r in rooms && s in rooms && r != s :: rooms[r] != rooms[s]
    }

    ghost predicate Valid()
      reads this, rooms.Values
    {
      Apart() && RoomsOk(State())
    }

    constructor ()
      ensures Valid() && State() == NO_ROOMS
    {
      rooms, playerRooms := map[], map[];
    }

    /** The load it reports: the number of players it has in a room. */
    method CurrentLoad() returns (load: int)
      requires Valid()
      ensures load == TotalPlayers(State().rooms)
    {
      LoadIsTotal(State());
      load := |playerRooms|;
    }

    method EnsureRoomLocked(room: string, now: int)
      requires Apart()
      modifies this`rooms
      ensures Apart() && room in rooms
      ensures State() == old(State()).(rooms := old(State()).rooms[room := RoomOrNew(old(State()), room, now)])
      ensures fresh(rooms.Values - old(rooms.Values))
    {
      if room in rooms {
        return;
      }
      var state := new RoomState(room, now);
      rooms := rooms[room := state];
    }

    /** If one room object changed, one room of the state did. */
    twostate lemma OneRoomChanged(room: string)
      requires room in rooms && rooms == old(rooms)
      requires forall r | r in rooms && r != room :: rooms[r].Value() == old(rooms[r].Value())
      ensures State().rooms == old(State()).rooms[room := rooms[room].Value()]
    {
    }

    method Unmap(room: string, player: string)
      modifies this`playerRooms
      ensures State() == old(State()).(playerRooms := Unmapped(old(State()), room, player))
    {
      if player in playerRooms && playerRooms[player] == room {
        playerRooms := playerRooms - {player};
      }
    }

    method DropFromRoom(room: string, player: string, now: int) returns (empty: bool)
      requires Apart() && room in rooms
      modifies rooms[room]
      ensures
        var r := old(State()).rooms[room];
        var left := r.(players := r.players - {player}, ready := r.ready - {player}, updatedAt := now);
        State() == old(State()).(rooms := old(State()).rooms[room := left]) && (empty <==> left.players == {})
    {
      rooms[room].Drop(player, now);
      OneRoomChanged(room);
      empty := |rooms[room].players| == 0;
    }

    method DeleteRoom(room: string)
      requires Apart()
      modifies this`rooms
      ensures Apart() && State() == old(State()).(rooms := old(State()).rooms - {room})
      ensures rooms.Values <= old(rooms.Values)
    {
      rooms := rooms - {room};
    }

    method AddToRoom(room: string, player: string, now: int)
      requires Apart() && room in rooms
      modifies rooms[room]
      ensures
        var r := old(State()).rooms[room];
        State() == old(State()).(rooms := old(State()).rooms[room := r.(players := r.players + {player},
            updatedAt := now)])
    {
      rooms[room].Add(player, now);
      OneRoomChanged(room);
    }

    method RemovePlayerLocked(room: string, player: string, now: int)
      requires Apart()
      modifies this, rooms.Values
      ensures Apart() && State() == Removed(old(State()), room, player, now)
      ensures rooms.Values <= old(rooms.Values)
    {
      if room !in rooms {
        Unmap(room, player);
        return;
      }
      var empty := DropFromRoom(room, player, now);
      Unmap(room, player);
      if empty {
        DeleteRoom(room);
      }
    }

    method LeaveOtherRoom(room: string, player: string, now: int)
      requires Apart()
      modifies this, rooms.Values
      ensures Apart() && State() == Moved(old(State()), room, player, now)
      ensures rooms.Values <= old(rooms.Values)
    {
      hide Removed;
      if player in playerRooms && playerRooms[player] != room {
        RemovePlayerLocked(playerRooms[player], player, now);
      }
    }

    method MapPlayer(player: string, room: string)
      modifies this`playerRooms
      ensures State() == old(State()).(playerRooms := old(playerRooms)[player := room])
    {
      playerRooms := playerRooms[player := room];
    }

    method EnterRoom(room: string, player: string, now: int)
      requires Apart()
      modifies this, rooms.Values
      ensures Apart() && fresh(rooms.Values - old(rooms.Values)) && room in rooms
      ensures
        var r := RoomOrNew(old(State()), room, now);
        State() == Rooms(old(State()).rooms[room := r.(players := r.players + {player}, updatedAt := now)],
                         old(playerRooms)[player := room])
    {
      hide RoomOrNew;
      EnsureRoomLocked(room, now);
      AddToRoom(room, player, now);
      MapPlayer(player, room);
    }

    method Join(room: string, player: string, now: int) returns (responses: seq<Response>)
      requires Valid()
      modifies this, rooms.Values
      ensures Valid() && fresh(rooms.Values - old(rooms.Values))
      ensures State() == Handled(old(State()), Request("join", room, player), now)
      ensures responses == Answer(old(State()), Request("join", room, player), now)
    {
      if Blank(room) {
        return [Failure("room_id is required")];
      }
      if Blank(player) {
        return [Failure("player_id is required")];
      }
      JoinedKeepsOk(State(), room, player, now);
      hide RoomsOk, SortedNames, Moved, RoomOrNew;
      LeaveOtherRoom(room, player, now);
      EnterRoom(room, player, now);
      return [Response("joined", room, player, SortedNames(rooms[room].players), [], "")];
    }

    method Ready(room: string, player: string, now: int) returns (responses: seq<Response>)
      requires Valid()
      modifies rooms.Values
      ensures Valid()
      ensures State() == Handled(old(State()), Request("ready", room, player), now)
      ensures responses == Answer(old(State()), Request("ready", room, player), now)
    {
      if Blank(room) {
        return [Failure("room_id is required")];
      }
      if Blank(player) {
        return [Failure("player_id is required")];
      }
      if room !in rooms {
        return [Failure("room not found")];
      }
      var state := rooms[room];
      if player !in state.players {
        return [Failure("player must join room before ready")];
      }
      ReadiedKeepsOk(State(), room, player, now);
      hide RoomsOk, SortedNames;
      var starts := state.MarkReady(player, now);
      OneRoomChanged(room);
      responses := [Response("ready", room, player, [], SortedNames(state.readyPlayers), "")];
      if starts {
        responses := responses + [Response("room_started", room, "", SortedNames(state.players), [], "")];
      }
    }

    method Leave(room: string, player: string, now: int) returns (responses: seq<Response>)
      requires Valid()
      modifies this, rooms.Values
      ensures Valid() && rooms.Values <= old(rooms.Values)
      ensures State() == Handled(old(State()), Request("leave", room, player), now)
      ensures responses == Answer(old(State()), Request("leave", room, player), now)
    {
      if Blank(room) {
        return [Failure("room_id is required")];
      }
      if Blank(player) {
        return [Failure("player_id is required")];
      }
      RemovedKeepsOk(State(), room, player, now);
      RemovePlayerLocked(room, player, now);
      return [Response("left", room, player, [], [], "")];
    }

    method HandleRequest(q: Request, now: int) returns (responses: seq<Response>)
      requires Valid()
      modifies this, rooms.Values
      ensures Valid() && fresh(rooms.Values - old(rooms.Values))
      ensures State() == Handled(old(State()), q, now) && responses == Answer(old(State()), q, now)
      ensures AnswersAs(old(State()), q, State(), responses)
    {
      AnswersInFields(State(), q, now);
      hide RoomsOk, SortedNames, AnswersAs;
      if q.kind == "join" {
        responses := Join(q.room, q.player, now);
      } else if q.kind == "ready" {
        responses := Ready(q.room, q.player, now);
      } else if q.kind == "leave" {
        responses := Leave(q.room, q.player, now);
      } else if q.kind == "ping" {
        return [Response("pong", "", "", [], [], "")];
      } else {
        return [Failure("unsupported request type")];
      }
    }
  }
}
