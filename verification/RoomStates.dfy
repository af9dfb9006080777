/** The state of the TCP room server, as a value: rooms, the room of each player, and what each request does.
    A request runs under the server's lock, so it is one step. */
module RoomStates {
  import opened ZSets

  datatype Room = Room(
    id: string, players: set<string>, ready: set<string>, started: bool, createdAt: int, updatedAt: int)

  datatype Rooms = Rooms(rooms: map<string, Room>, playerRooms: map<string, string>)

  const NO_ROOMS := Rooms(map[], map[])

  datatype Request = Request(kind: string, room: string, player: string)

  datatype Response = Response(
    kind: string, room: string, player: string, players: seq<string>, readyPlayers: seq<string>, message: string)

  function Failure(message: string): Response {
    Response("error", "", "", [], [], message)
  }

  const SPACES: set<char> :=
    {' ', '\t', '\n', '\r', '\U{0b}', '\U{0c}', '\U{85}', '\U{a0}', '\U{1680}', '\U{2000}', '\U{2001}', '\U{2002}',
     '\U{2003}', '\U{2004}', '\U{2005}', '\U{2006}', '\U{2007}', '\U{2008}', '\U{2009}', '\U{200a}', '\U{2028}',
     '\U{2029}', '\U{202f}', '\U{205f}', '\U{3000}'}

  /** Nothing is left after trimming white space. */
  predicate Blank(s: string) {
    forall c | c in s :: c in SPACES
  }

  function Missing(room: string, player: string): seq<Response> {
    if Blank(room) then [Failure("room_id is required")]
    else if Blank(player) then [Failure("player_id is required")]
    else []
  }

  // ---------- the three requests ----------

  function Unmapped(s: Rooms, room: string, player: string): map<string, string> {
    if player in s.playerRooms && s.playerRooms[player] == room then s.playerRooms - {player} else s.playerRooms
  }

  /** Takes a player out of a room, and the room away with the last one. */
  function Removed(s: Rooms, room: string, player: string, now: int): Rooms {
    if room !in s.rooms then Rooms(s.rooms, Unmapped(s, room, player))
    else
      var was := s.rooms[room];
      var r := was.(players := was.players - {player}, ready := was.ready - {player}, updatedAt := now);
      Rooms(if r.players == {} then s.rooms - {room} else s.rooms[room := r], Unmapped(s, room, player))
  }

  function Moved(s: Rooms, room: string, player: string, now: int): Rooms {
    if player in s.playerRooms && s.playerRooms[player] != room then
      Removed(s, s.playerRooms[player], player, now)
    else s
  }

  function RoomOrNew(s: Rooms, room: string, now: int): Room {
    if room in s.rooms then s.rooms[room] else Room(room, {}, {}, false, now, now)
  }

  function Joined(s: Rooms, room: string, player: string, now: int): Rooms {
    var t := Moved(s, room, player, now);
    var r := RoomOrNew(t, room, now);
    Rooms(t.rooms[room := r.(players := r.players + {player}, updatedAt := now)], t.playerRooms[player := room])
  }

  predicate CanBeReady(s: Rooms, room: string, player: string) {
    room in s.rooms && player in s.rooms[room].players
  }

  /** The room after the player is marked ready, before it may start. */
  function Marked(r: Room, player: string, now: int): Room {
    r.(ready := r.ready + {player}, updatedAt := now)
  }

  predicate Starts(r: Room) {
    |r.players| >= 2 && |r.ready| == |r.players| && !r.started
  }

  function Readied(s: Rooms, room: string, player: string, now: int): Rooms
    requires CanBeReady(s, room, player)
  {
    var r := Marked(s.rooms[room], player, now);
    s.(rooms := s.rooms[room := if Starts(r) then r.(started := true) else r])
  }

  function Handled(s: Rooms, q: Request, now: int): Rooms {
    if Missing(q.room, q.player) != [] then s
    else if q.kind == "join" then Joined(s, q.room, q.player, now)
    else if q.kind == "ready" && CanBeReady(s, q.room, q.player) then Readied(s, q.room, q.player, now)
    else if q.kind == "leave" then Removed(s, q.room, q.player, now)
    else s
  }

  function ReadyAnswer(s: Rooms, room: string, player: string, now: int): seq<Response> {
    if room !in s.rooms then [Failure("room not found")]
    else if player !in s.rooms[room].players then [Failure("player must join room before ready")]
    else
      var r := Marked(s.rooms[room], player, now);
      [Response("ready", room, player, [], SortedNames(r.ready), "")]
        + if Starts(r) then [Response("room_started", room, "", SortedNames(r.players), [], "")] else []
  }

  function Answer(s: Rooms, q: Request, now: int): seq<Response> {
    if q.kind == "ping" then [Response("pong", "", "", [], [], "")]
    else if q.kind != "join" && q.kind != "ready" && q.kind != "leave" then [Failure("unsupported request type")]
    else if Missing(q.room, q.player) != [] then Missing(q.room, q.player)
    else if q.kind == "join" then
      var after := Joined(s, q.room, q.player, now);
      [Response("joined", q.room, q.player, SortedNames(after.rooms[q.room].players), [], "")]
    else if q.kind == "ready" then ReadyAnswer(s, q.room, q.player, now)
    else [Response("left", q.room, q.player, [], [], "")]
  }

  // ---------- the two maps agree ----------

  ghost predicate RoomOk(s: Rooms, r: string)
    requires r in s.rooms
  {
    && s.rooms[r].id == r && s.rooms[r].players != {} && s.rooms[r].ready <= s.rooms[r].players
    && forall p | p in s.rooms[r].players :: p in s.playerRooms && s.playerRooms[p] == r
  }

  /** A player's room is the room that contains the player; ready players are in the room; no room is empty. */
  ghost predicate RoomsOk(s: Rooms) {
    && (forall p | p in s.playerRooms :: s.playerRooms[p] in s.rooms && p in s.rooms[s.playerRooms[p]].players)
    && (forall r | r in s.rooms :: RoomOk(s, r))
  }

  lemma RemovedKeepsOk(s: Rooms, room: string, player: string, now: int)
    requires RoomsOk(s)
    ensures RoomsOk(Removed(s, room, player, now))
    ensures player in Removed(s, room, player, now).playerRooms ==> s.playerRooms[player] != room
  {
    var t := Removed(s, room, player, now);
    forall r | r in t.rooms ensures RoomOk(t, r) {
      assert RoomOk(s, r);
    }
  }

  lemma MovedKeepsOk(s: Rooms, room: string, player: string, now: int)
    requires RoomsOk(s)
    ensures
      var t := Moved(s, room, player, now);
      RoomsOk(t) && (player in t.playerRooms ==> t.playerRooms[player] == room)
  {
    if player in s.playerRooms && s.playerRooms[player] != room {
      RemovedKeepsOk(s, s.playerRooms[player], player, now);
    }
  }

  lemma JoinedKeepsOk(s: Rooms, room: string, player: string, now: int)
    requires RoomsOk(s)
    ensures RoomsOk(Joined(s, room, player, now))
  {
    var t := Moved(s, room, player, now);
    MovedKeepsOk(s, room, player, now);
    var u := Joined(s, room, player, now);
    forall r | r in u.rooms ensures RoomOk(u, r) {
      if r in t.rooms {
        assert RoomOk(t, r);
      }
    }
  }

  lemma ReadiedKeepsOk(s: Rooms, room: string, player: string, now: int)
    requires RoomsOk(s) && CanBeReady(s, room, player)
    ensures RoomsOk(Readied(s, room, player, now))
  {
    var t := Readied(s, room, player, now);
    forall r | r in t.rooms ensures RoomOk(t, r) {
      assert RoomOk(s, r);
    }
  }

  lemma HandledKeepsOk(s: Rooms, q: Request, now: int)
    requires RoomsOk(s)
    ensures RoomsOk(Handled(s, q, now))
  {
    if Missing(q.room, q.player) == [] {
      if q.kind == "join" {
        JoinedKeepsOk(s, q.room, q.player, now);
      } else if q.kind == "ready" && CanBeReady(s, q.room, q.player) {
        ReadiedKeepsOk(s, q.room, q.player, now);
      } else if q.kind == "leave" {
        RemovedKeepsOk(s, q.room, q.player, now);
      }
    }
  }

  /** A request as it reaches the server, with the clock reading at its handling. */
  type Trace = seq<(Request, int)>

  function AfterRequests(trace: Trace): Rooms {
    if trace == [] then NO_ROOMS
    else var n := |trace| - 1; Handled(AfterRequests(trace[..n]), trace[n].0, trace[n].1)
  }

  /** After every sequence of requests both maps are one partial map from players to rooms: `p` is mapped to
      `r` exactly when room `r` exists and contains `p`. */
  lemma {:induction false} MapsAgree(trace: Trace)
    ensures RoomsOk(AfterRequests(trace))
    ensures
      var s := AfterRequests(trace);
      forall p, r :: p in s.playerRooms && s.playerRooms[p] == r <==> r in s.rooms && p in s.rooms[r].players
  {
    if trace != [] {
      var n := |trace| - 1;
      MapsAgree(trace[..n]);
      HandledKeepsOk(AfterRequests(trace[..n]), trace[n].0, trace[n].1);
    }
    var s := AfterRequests(trace);
    forall p, r | r in s.rooms && p in s.rooms[r].players ensures p in s.playerRooms && s.playerRooms[p] == r {
      assert RoomOk(s, r);
    }
  }

  /** What a request does to the one partial map: only a join and a leave move the player of the request, and
      nobody moves anyone else. */
  lemma RequestsMoveOnlyTheirPlayer(s: Rooms, q: Request, now: int)
    requires RoomsOk(s)
    ensures Handled(s, q, now).playerRooms ==
      if Missing(q.room, q.player) != [] then s.playerRooms
      else if q.kind == "join" then s.playerRooms[q.player := q.room]
      else if q.kind == "leave" && q.player in s.playerRooms && s.playerRooms[q.player] == q.room
          then s.playerRooms - {q.player}
      else s.playerRooms
  {
    hide Blank;
    if q.kind == "join" {
      assert (s.playerRooms - {q.player})[q.player := q.room] == s.playerRooms[q.player := q.room];
    }
  }

  predicate IsReady(s: Rooms, p: string) {
    p in s.playerRooms && s.playerRooms[p] in s.rooms && p in s.rooms[s.playerRooms[p]].ready
  }

  lemma RemovedReadiness(s: Rooms, room: string, player: string, now: int, p: string)
    requires RoomsOk(s)
    ensures IsReady(Removed(s, room, player, now), p)
       <==> IsReady(s, p) && !(p == player && s.playerRooms[p] == room)
  {
    if p in s.playerRooms {
      assert RoomOk(s, s.playerRooms[p]);
    }
  }

  lemma JoinedReadiness(s: Rooms, room: string, player: string, now: int, p: string)
    requires RoomsOk(s)
    ensures IsReady(Joined(s, room, player, now), p)
       <==> IsReady(s, p) && !(p == player && s.playerRooms[p] != room)
  {
    var t := Moved(s, room, player, now);
    MovedKeepsOk(s, room, player, now);
    if player in s.playerRooms {
      RemovedReadiness(s, s.playerRooms[player], player, now, p);
    }
    assert p != player ==> (p in t.playerRooms <==> p in s.playerRooms);
    hide Moved;
    if room in t.rooms {
      assert RoomOk(t, room);
    }
  }

  lemma ReadiedReadiness(s: Rooms, room: string, player: string, now: int, p: string)
    requires RoomsOk(s) && CanBeReady(s, room, player)
    ensures IsReady(Readied(s, room, player, now), p) <==> IsReady(s, p) || p == player
  {
    assert RoomOk(s, room);
  }

  /** Readiness belongs to a stay in a room: it is gained by a ready request in that room, kept by everyone else's
      requests and by joining the same room again, and lost by leaving or joining another. */
  lemma ReadinessLastsTheStay(s: Rooms, q: Request, now: int, p: string)
    requires RoomsOk(s)
    ensures
      var acts := Missing(q.room, q.player) == [] && p == q.player;
      var inRoom := p in s.playerRooms && s.playerRooms[p] == q.room;
      IsReady(Handled(s, q, now), p) <==>
        if acts && q.kind == "ready" && inRoom then true
        else if acts && q.kind == "join" && !inRoom then false
        else if acts && q.kind == "leave" && inRoom then false
        else IsReady(s, p)
  {
    hide Blank, Removed, Joined, Readied;
    RemovedReadiness(s, q.room, q.player, now, p);
    JoinedReadiness(s, q.room, q.player, now, p);
    if q.room in s.rooms {
      assert RoomOk(s, q.room);
    }
    if CanBeReady(s, q.room, q.player) {
      ReadiedReadiness(s, q.room, q.player, now, p);
    }
  }

  // ---------- what is answered, and when rooms were made and changed ----------

  /** The names are those of the members, each once and in ascending order. */
  ghost predicate Lists(names: seq<string>, members: set<string>) {
    && (forall p :: p in names <==> p in members)
    && forall i, j | 0 <= i < j < |names| :: names[i] != names[j] && StringLe(names[i], names[j])
  }

  lemma SortedLists(members: set<string>)
    ensures Lists(SortedNames(members), members)
  {
    hide SortedNames;
    SortedNamesAscend(members);
  }

  ghost predicate AnswersAs(s: Rooms, q: Request, after: Rooms, answers: seq<Response>) {
    if q.kind == "ping" then answers == [Response("pong", "", "", [], [], "")]
    else if q.kind !in {"join", "ready", "leave"} then
      answers == [Response("error", "", "", [], [], "unsupported request type")]
    else if Blank(q.room) then answers == [Response("error", "", "", [], [], "room_id is required")]
    else if Blank(q.player) then answers == [Response("error", "", "", [], [], "player_id is required")]
    else if q.kind == "join" then
      && |answers| == 1 && answers[0] == Response("joined", q.room, q.player, answers[0].players, [], "")
      && Lists(answers[0].players, set p | p in after.playerRooms && after.playerRooms[p] == q.room)
    else if q.kind == "leave" then answers == [Response("left", q.room, q.player, [], [], "")]
    else if q.room !in s.rooms then answers == [Response("error", "", "", [], [], "room not found")]
    else if q.player !in s.rooms[q.room].players then
      answers == [Response("error", "", "", [], [], "player must join room before ready")]
    else
      var r := s.rooms[q.room];
      && |answers| == (if r.ready + {q.player} == r.players && |r.players| >= 2 && !r.started then 2 else 1)
      && answers[0] == Response("ready", q.room, q.player, [], answers[0].readyPlayers, "")
      && Lists(answers[0].readyPlayers, r.ready + {q.player})
      && (|answers| == 2 ==>
            && answers[1] == Response("room_started", q.room, "", answers[1].players, [], "")
            && Lists(answers[1].players, r.players))
  }

  lemma JoinLists(s: Rooms, room: string, player: string, now: int)
    requires RoomsOk(s)
    ensures
      var after := Joined(s, room, player, now);
      room in after.rooms && after.rooms[room].players == set p | p in after.playerRooms && after.playerRooms[p] == room
  {
    JoinedKeepsOk(s, room, player, now);
    var after := Joined(s, room, player, now);
    assert RoomOk(after, room);
    assert player in after.rooms[room].players;
  }

  lemma SameSizeIsSame(a: set<string>, b: set<string>)
    requires a <= b
    ensures |a| == |b| <==> a == b
  {
    if a != b {
      assert a + (b - a) == b;
      assert |b| == |a| + |b - a|;
    }
  }

  /** Every request is answered in this way. */
  lemma AnswersInFields(s: Rooms, q: Request, now: int)
    requires RoomsOk(s)
    ensures AnswersAs(s, q, Handled(s, q, now), Answer(s, q, now))
  {
    hide SortedNames, Blank, Lists, Joined, Removed;
    if q.kind == "join" {
      JoinLists(s, q.room, q.player, now);
      SortedLists(Joined(s, q.room, q.player, now).rooms[q.room].players);
    } else if q.kind == "ready" && CanBeReady(s, q.room, q.player) {
      assert RoomOk(s, q.room);
      var r := Marked(s.rooms[q.room], q.player, now);
      SameSizeIsSame(r.ready, r.players);
      SortedLists(r.ready);
      SortedLists(r.players);
    }
  }

  /** The room is one that the request changes: the one it names, if it acts on it, or the one that its player
      leaves for it. */
  predicate Touches(s: Rooms, q: Request, r: string) {
    && Missing(q.room, q.player) == []
    && match q.kind
       case "join" => r == q.room || (q.player in s.playerRooms && s.playerRooms[q.player] == r)
       case "leave" => r == q.room
       case "ready" => r == q.room && r in s.rooms && q.player in s.rooms[r].players
       case _ => false
  }

  /** The room has kept the time it was made at, or has been made now; and it has changed now, or not at all. */
  predicate Stamped(s: Rooms, t: Rooms, r: string, touched: bool, now: int)
    requires r in t.rooms
  {
    && t.rooms[r].createdAt == (if r in s.rooms then s.rooms[r].createdAt else now)
    && if touched then t.rooms[r].updatedAt == now else r in s.rooms && t.rooms[r] == s.rooms[r]
  }

  lemma RemovedIsStamped(s: Rooms, room: string, player: string, now: int, r: string)
    requires r in Removed(s, room, player, now).rooms
    ensures Stamped(s, Removed(s, room, player, now), r, r == room, now)
  {
  }

  lemma JoinedIsStamped(s: Rooms, room: string, player: string, now: int, r: string)
    requires r in Joined(s, room, player, now).rooms
    ensures Stamped(s, Joined(s, room, player, now), r,
                    r == room || (player in s.playerRooms && s.playerRooms[player] == r), now)
  {
    if player in s.playerRooms && s.playerRooms[player] != room {
      var t := Removed(s, s.playerRooms[player], player, now);
      if r in t.rooms {
        RemovedIsStamped(s, s.playerRooms[player], player, now, r);
      }
      if room in t.rooms {
        RemovedIsStamped(s, s.playerRooms[player], player, now, room);
      }
      assert room in t.rooms <==> room in s.rooms;
      hide Removed;
    }
  }

  lemma OtherIsStamped(s: Rooms, q: Request, now: int, r: string)
    requires r in Handled(s, q, now).rooms
    requires Missing(q.room, q.player) == [] ==> q.kind != "join" && q.kind != "leave"
    ensures Stamped(s, Handled(s, q, now), r, Touches(s, q, r), now)
  {
    hide Blank;
  }

  /** A room keeps the time it was made at, a room that is touched has the time of that, and others do not change. */
  lemma RoomsAreStamped(s: Rooms, q: Request, now: int, r: string)
    requires r in Handled(s, q, now).rooms
    ensures Stamped(s, Handled(s, q, now), r, Touches(s, q, r), now)
  {
    hide Blank, Joined, Removed, Stamped;
    if Missing(q.room, q.player) == [] && q.kind == "join" {
      JoinedIsStamped(s, q.room, q.player, now, r);
    } else if Missing(q.room, q.player) == [] && q.kind == "leave" {
      RemovedIsStamped(s, q.room, q.player, now, r);
    } else {
      OtherIsStamped(s, q, now, r);
    }
  }

  // ---------- the reported load ----------

  ghost function TotalPlayers(rooms: map<string, Room>): nat
    decreases |rooms|
  {
    if rooms == map[] then 0
    else
      var r := SomeKey(rooms);
      assert (rooms - {r}).Keys == rooms.Keys - {r};
      |rooms[r].players| + TotalPlayers(rooms - {r})
  }

  ghost function WithoutRoom(s: Rooms, r: string): Rooms
    requires r in s.rooms
  {
    Rooms(s.rooms - {r}, s.playerRooms - s.rooms[r].players)
  }

  lemma WithoutRoomOk(s: Rooms, r: string)
    requires RoomsOk(s) && r in s.rooms
    ensures RoomsOk(WithoutRoom(s, r)) && |WithoutRoom(s, r).rooms| < |s.rooms|
    ensures |s.playerRooms.Keys| == |s.rooms[r].players| + |WithoutRoom(s, r).playerRooms.Keys|
  {
    var t := WithoutRoom(s, r);
    assert t.rooms.Keys == s.rooms.Keys - {r};
    assert RoomOk(s, r);
    forall o | o in t.rooms ensures RoomOk(t, o) {
      assert RoomOk(s, o);
    }
    var inside := s.rooms[r].players;
    assert inside <= s.playerRooms.Keys && t.playerRooms.Keys == s.playerRooms.Keys - inside;
  }

  /** The load the server reports, the number of mapped players, is the sum of the sizes of its rooms. */
  lemma {:induction false} LoadIsTotal(s: Rooms)
    requires RoomsOk(s)
    ensures |s.playerRooms| == TotalPlayers(s.rooms)
    decreases |s.rooms|
  {
    if s.rooms == map[] {
      assert s.playerRooms == map[];
    } else {
      var r := SomeKey(s.rooms);
      var t := WithoutRoom(s, r);
      WithoutRoomOk(s, r);
      LoadIsTotal(t);
      assert |s.playerRooms| == |s.playerRooms.Keys| && |t.playerRooms| == |t.playerRooms.Keys|;
    }
  }

  // ---------- a room starts at most once in its life ----------

  function CountStarted(responses: seq<Response>, room: string): nat {
    if responses == [] then 0
    else
      (if responses[0].kind == "room_started" && responses[0].room == room then 1 else 0)
      + CountStarted(responses[1..], room)
  }

  /** How many room_started answers the requests have had for this room since it was created. */
  function StartsSinceCreation(trace: Trace, room: string): nat {
    if trace == [] then 0
    else
      var n := |trace| - 1;
      var before, after := AfterRequests(trace[..n]), AfterRequests(trace);
      if room !in after.rooms then 0
      else
        (if room in before.rooms then StartsSinceCreation(trace[..n], room) else 0)
        + CountStarted(Answer(before, trace[n].0, trace[n].1), room)
  }

  predicate HasStarted(s: Rooms, room: string) {
    room in s.rooms && s.rooms[room].started
  }

  lemma CountTwo(a: Response, b: Response, room: string)
    requires a.kind == "ready" && b.kind == "room_started"
    ensures CountStarted([a] + [], room) == 0
    ensures CountStarted([a] + [b], room) == if b.room == room then 1 else 0
  {
    assert ([a] + [b])[1..] == [b] && [b][1..] == [];
  }

  /** One request: a room that has started stays so, and it becomes started exactly when that is announced. */
  lemma StartIsAnnounced(s: Rooms, q: Request, now: int, room: string)
    requires room in Handled(s, q, now).rooms
    ensures CountStarted(Answer(s, q, now), room)
         == (if HasStarted(Handled(s, q, now), room) && !HasStarted(s, room) then 1 else 0)
    ensures HasStarted(s, room) ==> HasStarted(Handled(s, q, now), room)
  {
    hide SortedNames, Blank;
    if q.kind == "ready" && Missing(q.room, q.player) == [] && CanBeReady(s, q.room, q.player) {
      var r := Marked(s.rooms[q.room], q.player, now);
      CountTwo(Response("ready", q.room, q.player, [], SortedNames(r.ready), ""),
               Response("room_started", q.room, "", SortedNames(r.players), [], ""), room);
    } else {
      assert |Answer(s, q, now)| == 1 && Answer(s, q, now)[0].kind != "room_started";
    }
  }

  /** Over every sequence of requests, a room_started is answered at most once between the creation of a room
      and its deletion, and the room remembers whether it was. */
  lemma {:induction false} StartsAtMostOnce(trace: Trace, room: string)
    ensures StartsSinceCreation(trace, room) == (if HasStarted(AfterRequests(trace), room) then 1 else 0)
  {
    if trace != [] {
      var n := |trace| - 1;
      StartsAtMostOnce(trace[..n], room);
      if room in AfterRequests(trace).rooms {
        StartIsAnnounced(AfterRequests(trace[..n]), trace[n].0, trace[n].1, room);
      }
    }
  }

  /** A start is announced exactly when a ready request completes the ready set of a room of at least two that
      has not started. */
  lemma StartsExactlyWhenAllReady(s: Rooms, q: Request, now: int)
    requires RoomsOk(s)
    ensures
      (exists a | a in Answer(s, q, now) :: a.kind == "room_started") <==>
        && q.kind == "ready" && Missing(q.room, q.player) == [] && CanBeReady(s, q.room, q.player)
        && var r := s.rooms[q.room];
           |r.players| >= 2 && r.ready + {q.player} == r.players && !r.started
  {
    if q.kind == "ready" && Missing(q.room, q.player) == [] && CanBeReady(s, q.room, q.player) {
      assert RoomOk(s, q.room);
      hide SortedNames, Blank, RoomsOk, RoomOk;
      var r := Marked(s.rooms[q.room], q.player, now);
      SameSizeIsSame(r.ready, r.players);
      var answers := Answer(s, q, now);
      assert answers[0].kind == "ready";
      assert Starts(r) ==> answers[1].kind == "room_started";
    } else {
      hide SortedNames, Blank, RoomsOk, RoomOk;
      assert forall a | a in Answer(s, q, now) :: a.kind != "room_started";
    }
  }

  /** The announcement is for the room of the request, and lists exactly its players, each once, in order. */
  lemma StartListsThePlayers(s: Rooms, q: Request, now: int, a: Response)
    requires a in Answer(s, q, now) && a.kind == "room_started"
    ensures a.room == q.room && q.room in s.rooms
    ensures forall p :: p in a.players <==> p in s.rooms[q.room].players
    ensures forall i, j | 0 <= i < j < |a.players| ::
        a.players[i] != a.players[j] && StringLe(a.players[i], a.players[j])
  {
    hide SortedNames, Blank;
    if q.room in s.rooms {
      SortedNamesAscend(s.rooms[q.room].players);
    }
  }
}
