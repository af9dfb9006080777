/** The room server registry kept in Redis, as a value: one hash per server, a load index per match mode,
    the heartbeat index, the set of servers per mode and the room assignments. */
module RoomRegistry {
  import opened ZSets
  import opened MatchStore

  const DEFAULT_MODE := "default"
  const DEFAULT_HEARTBEAT_AGE := 30_000

  datatype GameServer = GameServer(
    id: string, serverType: string, addr: string, region: string, mode: string, capacity: int, load: int,
    status: string, lastHeartbeatAt: int, updatedAt: int)

  datatype RoomAssignment = RoomAssignment(
    matchId: string, roomId: string, serverId: string, serverAddr: string, mode: string,
    players: seq<string>, status: string, load: int, createdAt: int)

  datatype Registry = Registry(
    info: map<string, GameServer>,
    members: map<string, set<string>>,
    heartbeats: ZSet,
    loads: map<string, ZSet>,
    assignments: map<string, RoomAssignment>)

  const EMPTY_REGISTRY := Registry(map[], map[], map[], map[], map[])

  // ---------- what a stored server looks like ----------

  predicate ServerOk(g: GameServer) {
    g.id != "" && g.capacity > 0 && 0 <= g.load <= g.capacity
  }

  /** Every server hash is stored under its own id and never holds more than its capacity. */
  ghost predicate CapacityOk(info: map<string, GameServer>) {
    forall sid | sid in info :: info[sid].id == sid && ServerOk(info[sid])
  }

  predicate ValidType(serverType: string) {
    serverType == "room" || serverType == "battle"
  }

  predicate ValidStatus(status: string) {
    status == "active" || status == "draining" || status == "unhealthy"
  }

  function OrElse(value: string, default: string): string {
    if value == "" then default else value
  }

  /** A registration is accepted exactly when it names the server, its address, a positive capacity with a
      load inside it, and, where they are given, a known type and status. */
  function Normalize(g: GameServer, now: int): (r: Result<GameServer>)
    ensures r.Ok? <==> g.addr != "" && ServerOk(g) && (g.serverType == "" || ValidType(g.serverType))
                       && (g.status == "" || ValidStatus(g.status))
    ensures r.Ok? ==> ServerOk(r.value) && r.value.id == g.id && r.value.mode != ""
    ensures r.Ok? ==> ValidType(r.value.serverType) && ValidStatus(r.value.status)
    ensures r.Ok? ==> r.value.capacity == g.capacity && r.value.load == g.load
    ensures r.Ok? && now > 0 ==> r.value.lastHeartbeatAt > 0
  {
    var serverType := OrElse(g.serverType, "room");
    var mode := OrElse(g.mode, DEFAULT_MODE);
    var status := OrElse(g.status, "active");
    if g.id == "" then Err(Invalid("server_id"))
    else if g.addr == "" then Err(Invalid("addr"))
    else if !ValidType(serverType) then Err(Invalid("server_type"))
    else if !ValidStatus(status) then Err(Invalid("status"))
    else if g.capacity <= 0 then Err(Invalid("capacity"))
    else if g.load < 0 || g.load > g.capacity then Err(Invalid("current_load"))
    else Ok(g.(serverType := serverType, mode := mode, status := status, updatedAt := now,
               lastHeartbeatAt := if g.lastHeartbeatAt <= 0 then now else g.lastHeartbeatAt))
  }

  /** What has been accepted is complete: registering it again as it is stored changes nothing but the time. */
  lemma NormalizedIsComplete(g: GameServer, now: int, later: int)
    requires Normalize(g, now).Ok? && now > 0
    ensures
      var stored := Normalize(g, now).value;
      Normalize(stored, later) == Ok(stored.(updatedAt := later))
  {
  }

  datatype Heartbeat = Heartbeat(status: string, load: Option<int>)

  function Beaten(g: GameServer, h: Heartbeat, now: int): (r: Result<GameServer>)
    ensures r.Ok? && ServerOk(g) ==> ServerOk(r.value)
    ensures r.Ok? ==> r.value.id == g.id && r.value.mode == g.mode && r.value.capacity == g.capacity
    ensures r.Ok? && h.load.None? ==> r.value.load == g.load
  {
    if h.status != "" && !ValidStatus(h.status) then Err(Invalid("status"))
    else if h.load.Some? && (h.load.value < 0 || h.load.value > g.capacity) then Err(Invalid("current_load"))
    else Ok(g.(status := OrElse(h.status, g.status), load := if h.load.Some? then h.load.value else g.load,
               lastHeartbeatAt := now, updatedAt := now))
  }

  // ---------- the load index ----------

  function Ratio(g: GameServer): real
    requires g.capacity > 0
  {
    g.load as real / g.capacity as real
  }

  function LoadIndex(r: Registry, mode: string): ZSet {
    if mode in r.loads then r.loads[mode] else map[]
  }

  function WithRatio(r: Registry, mode: string, sid: string, ratio: real): Registry {
    r.(loads := r.loads[mode := LoadIndex(r, mode)[sid := ratio]])
  }

  predicate IndexedRight(r: Registry, sid: string)
    requires sid in r.info && r.info[sid].capacity > 0
  {
    var index := LoadIndex(r, r.info[sid].mode);
    sid in index && index[sid] == Ratio(r.info[sid])
  }

  /** Every registered server is listed under its own mode at its load divided by its capacity. */
  ghost predicate IndexAgrees(r: Registry) {
    CapacityOk(r.info) && forall sid | sid in r.info :: IndexedRight(r, sid)
  }

  // ---------- register and heartbeat ----------

  /** The write that fails while a server's state is stored, if one does. */
  datatype WriteFault = NoWriteFault | InfoFails | MemberFails | BeatFails | LoadFails

  function MembersOf(r: Registry, mode: string): set<string> {
    if mode in r.members then r.members[mode] else {}
  }

  function Written(r: Registry, g: GameServer, joins: bool, fault: WriteFault): Registry
    requires g.capacity > 0
  {
    if fault == InfoFails then r
    else
      var r1 := r.(info := r.info[g.id := g]);
      if joins && fault == MemberFails then r1
      else
        var r2 := if joins then r1.(members := r1.members[g.mode := MembersOf(r1, g.mode) + {g.id}]) else r1;
        if fault == BeatFails then r2
        else
          var r3 := r2.(heartbeats := r2.heartbeats[g.id := g.lastHeartbeatAt as real]);
          if fault == LoadFails then r3 else WithRatio(r3, g.mode, g.id, Ratio(g))
  }

  predicate WriteErrs(joins: bool, fault: WriteFault) {
    fault == InfoFails || (joins && fault == MemberFails) || fault == BeatFails || fault == LoadFails
  }

  lemma WrittenInfo(r: Registry, g: GameServer, joins: bool, fault: WriteFault)
    requires g.capacity > 0
    ensures Written(r, g, joins, fault).info == if fault == InfoFails then r.info else r.info[g.id := g]
  {
  }

  /** The write of a server stops after its hash and before an index entry that was not right already. */
  predicate TearsIndex(r: Registry, g: GameServer, joins: bool, fault: WriteFault)
    requires g.capacity > 0
  {
    && WriteErrs(joins, fault) && fault != InfoFails
    && !(g.id in LoadIndex(r, g.mode) && LoadIndex(r, g.mode)[g.id] == Ratio(g))
  }

  lemma WrittenOwnEntry(r: Registry, g: GameServer, joins: bool, fault: WriteFault)
    requires g.capacity > 0 && fault != InfoFails
    ensures g.id in Written(r, g, joins, fault).info && Written(r, g, joins, fault).info[g.id] == g
    ensures IndexedRight(Written(r, g, joins, fault), g.id) <==> !TearsIndex(r, g, joins, fault)
  {
  }

  lemma WrittenTouchesOnlyIts(r: Registry, g: GameServer, joins: bool, fault: WriteFault)
    requires IndexAgrees(r) && ServerOk(g)
    ensures CapacityOk(Written(r, g, joins, fault).info)
    ensures forall sid | sid in r.info && sid != g.id :: IndexedRight(Written(r, g, joins, fault), sid)
  {
    var w := Written(r, g, joins, fault);
    forall sid | sid in r.info && sid != g.id ensures IndexedRight(w, sid) {
      assert IndexedRight(r, sid) && w.info[sid] == r.info[sid];
    }
  }

  /** Storing a server keeps the load index right unless it stops between the hash and the index, and then
      exactly when the index already listed the new ratio under the new mode. */
  lemma WrittenKeepsIndexExactlyWhen(r: Registry, g: GameServer, joins: bool, fault: WriteFault)
    requires IndexAgrees(r) && ServerOk(g)
    ensures IndexAgrees(Written(r, g, joins, fault)) <==> !TearsIndex(r, g, joins, fault)
  {
    if fault != InfoFails {
      hide IndexedRight, Written, TearsIndex;
      WrittenInfo(r, g, joins, fault);
      WrittenTouchesOnlyIts(r, g, joins, fault);
      WrittenOwnEntry(r, g, joins, fault);
    }
  }

  // ---------- the reserve and release scripts ----------

  /** What the reserve script checks before it takes the slots. */
  predicate CanReserve(g: GameServer, now: int, maxAge: int, slots: nat) {
    && g.status == "active"
    && g.lastHeartbeatAt > 0 && now - g.lastHeartbeatAt <= maxAge
    && g.capacity > 0 && g.load + slots <= g.capacity
  }

  function Taken(g: GameServer, slots: nat, now: int): GameServer {
    g.(load := g.load + slots, updatedAt := now)
  }

  function Given(g: GameServer, slots: nat, now: int): GameServer {
    g.(load := if g.load - slots < 0 then 0 else g.load - slots, updatedAt := now)
  }

  /** Both scripts write the hash and then the ratio into the index they were given. */
  function Stored(r: Registry, g: GameServer, mode: string): Registry
    requires g.capacity > 0
  {
    WithRatio(r.(info := r.info[g.id := g]), mode, g.id, Ratio(g))
  }

  function Released(r: Registry, sid: string, mode: string, slots: nat, now: int): Registry
    requires CapacityOk(r.info)
  {
    if sid !in r.info then r else Stored(r, Given(r.info[sid], slots, now), mode)
  }

  lemma StoredKeepsCapacity(r: Registry, g: GameServer, mode: string)
    requires CapacityOk(r.info) && ServerOk(g)
    ensures CapacityOk(Stored(r, g, mode).info)
  {
  }

  lemma StoredKeepsIndex(r: Registry, g: GameServer)
    requires IndexAgrees(r) && ServerOk(g)
    ensures IndexAgrees(Stored(r, g, g.mode))
  {
    var w := Stored(r, g, g.mode);
    forall sid | sid in r.info && sid != g.id ensures IndexedRight(w, sid) {
      assert IndexedRight(r, sid);
    }
  }

  lemma RatioIsLoad(g: GameServer, h: GameServer)
    requires g.capacity == h.capacity > 0
    ensures Ratio(g) == Ratio(h) <==> g.load == h.load
  {
    var c := g.capacity as real;
    if Ratio(g) == Ratio(h) {
      assert g.load as real == Ratio(g) * c == Ratio(h) * c == h.load as real;
    }
  }

  /** A release keeps the index right exactly when it changes nothing or names the server's own mode. */
  lemma ReleaseKeepsIndexExactlyWhen(r: Registry, sid: string, mode: string, slots: nat, now: int)
    requires IndexAgrees(r)
    ensures IndexAgrees(Released(r, sid, mode, slots, now))
       <==> sid !in r.info || r.info[sid].mode == mode || r.info[sid].load == 0 || slots == 0
  {
    if sid in r.info {
      var g, h := r.info[sid], Given(r.info[sid], slots, now);
      assert IndexedRight(r, sid);
      RatioIsLoad(g, h);
      if g.mode == mode {
        StoredKeepsIndex(r, h);
      } else {
        var w := Released(r, sid, mode, slots, now);
        assert LoadIndex(w, g.mode) == LoadIndex(r, g.mode) && w.info[sid] == h;
        forall other | other in r.info && other != sid ensures IndexedRight(w, other) {
          assert IndexedRight(r, other);
        }
        assert IndexAgrees(w) <==> IndexedRight(w, sid);
      }
    }
  }

  /** What one reservation takes, the matching release gives back: the load, and the index with it. */
  lemma ReserveThenRelease(r: Registry, sid: string, slots: nat, now: int, later: int)
    requires IndexAgrees(r) && sid in r.info && r.info[sid].load + slots <= r.info[sid].capacity
    ensures
      var g := r.info[sid];
      var taken := Stored(r, Taken(g, slots, now), g.mode);
      && CapacityOk(taken.info)
      && Released(taken, sid, g.mode, slots, later) == r.(info := r.info[sid := g.(updatedAt := later)])
  {
    var g := r.info[sid];
    var taken := Stored(r, Taken(g, slots, now), g.mode);
    var back := Released(taken, sid, g.mode, slots, later);
    assert IndexedRight(r, sid);
    assert Given(Taken(g, slots, now), slots, later) == g.(updatedAt := later);
    assert LoadIndex(back, g.mode) == LoadIndex(r, g.mode);
    assert back.loads == r.loads;
    assert back.info == r.info[sid := g.(updatedAt := later)];
  }

  // ---------- allocation ----------

  datatype Request = Request(
    matchId: string, roomId: string, mode: string, players: seq<string>, heartbeatTimeout: int, now: int)

  function ModeOf(q: Request): string {
    OrElse(q.mode, DEFAULT_MODE)
  }

  function AgeOf(q: Request): int {
    if q.heartbeatTimeout <= 0 then DEFAULT_HEARTBEAT_AGE else q.heartbeatTimeout
  }

  function NowOf(q: Request, clock: int): int {
    if q.now <= 0 then clock else q.now
  }

  predicate Fits(r: Registry, sid: string, mode: string, now: int, maxAge: int, slots: nat) {
    sid in r.info && r.info[sid].mode == mode && CanReserve(r.info[sid], now, maxAge, slots)
  }

  /** The loop over the listed servers: the first that fits. */
  function FirstFit(r: Registry, ids: seq<string>, mode: string, now: int, maxAge: int, slots: nat): Option<string> {
    if ids == [] then None
    else if Fits(r, ids[0], mode, now, maxAge, slots) then Some(ids[0])
    else FirstFit(r, ids[1..], mode, now, maxAge, slots)
  }

  function Choice(r: Registry, mode: string, now: int, maxAge: int, slots: nat): Option<string> {
    FirstFit(r, Sorted(LoadIndex(r, mode)), mode, now, maxAge, slots)
  }

  /** The order of the simple search: lower share of the capacity in use first, then the smaller server id. The
      shares load / capacity are compared by cross-multiplication. */
  predicate LessLoaded(r: Registry, a: string, b: string)
    requires a in r.info && b in r.info
  {
    var x, y := r.info[a], r.info[b];
    x.load * y.capacity < y.load * x.capacity || (x.load * y.capacity == y.load * x.capacity && StringLe(a, b))
  }

  lemma SameFactor(p: real, q: real, f: real)
    requires f > 0.0
    ensures p < q <==> p * f < q * f
    ensures p == q <==> p * f == q * f
  {
    if p < q {
      assert (q - p) * f > 0.0;
    } else if q < p {
      assert (p - q) * f > 0.0;
    }
  }

  lemma RatioOrder(x: GameServer, y: GameServer)
    requires x.capacity > 0 && y.capacity > 0
    ensures Ratio(x) < Ratio(y) <==> x.load * y.capacity < y.load * x.capacity
    ensures Ratio(x) == Ratio(y) <==> x.load * y.capacity == y.load * x.capacity
  {
    var c, d := x.capacity as real, y.capacity as real;
    var p, q := Ratio(x), Ratio(y);
    assert p * c == x.load as real && q * d == y.load as real;
    assert (x.load * y.capacity) as real == x.load as real * d == p * (c * d);
    assert (y.load * x.capacity) as real == y.load as real * c == q * (c * d);
    SameFactor(p, q, c * d);
  }

  lemma {:induction false} FirstFitFinds(r: Registry, ids: seq<string>, mode: string, now: int, maxAge: int, slots: nat)
    ensures
      match FirstFit(r, ids, mode, now, maxAge, slots)
      case None => forall sid | sid in ids :: !Fits(r, sid, mode, now, maxAge, slots)
      case Some(best) => exists i | 0 <= i < |ids| && ids[i] == best ::
        && Fits(r, ids[i], mode, now, maxAge, slots)
        && forall j | 0 <= j < i :: !Fits(r, ids[j], mode, now, maxAge, slots)
  {
    if ids != [] {
      if Fits(r, ids[0], mode, now, maxAge, slots) {
        assert FirstFit(r, ids, mode, now, maxAge, slots) == Some(ids[0]);
      } else {
        FirstFitFinds(r, ids[1..], mode, now, maxAge, slots);
        var rest := FirstFit(r, ids[1..], mode, now, maxAge, slots);
        if rest.Some? {
          var i :| 0 <= i < |ids[1..]| && ids[1..][i] == rest.value
            && Fits(r, ids[1..][i], mode, now, maxAge, slots)
            && forall j | 0 <= j < i :: !Fits(r, ids[1..][j], mode, now, maxAge, slots);
          assert ids[i + 1] == rest.value;
          assert forall j | 0 < j < i + 1 :: ids[j] == ids[1..][j - 1];
        }
      }
    }
  }

  /** Going through the load index finds the least loaded of all servers that fit, and finds none exactly
      when none fits. */
  lemma ChoiceIsLeastLoaded(r: Registry, mode: string, now: int, maxAge: int, slots: nat)
    requires IndexAgrees(r)
    ensures
      var choice := Choice(r, mode, now, maxAge, slots);
      && (choice.None? <==> forall sid :: !Fits(r, sid, mode, now, maxAge, slots))
      && (choice.Some? ==>
            && Fits(r, choice.value, mode, now, maxAge, slots)
            && forall sid | Fits(r, sid, mode, now, maxAge, slots) :: LessLoaded(r, choice.value, sid))
  {
    var index := LoadIndex(r, mode);
    var ids := Sorted(index);
    SortedIsListing(index);
    FirstFitFinds(r, ids, mode, now, maxAge, slots);
    forall sid | Fits(r, sid, mode, now, maxAge, slots) ensures sid in ids && index[sid] == Ratio(r.info[sid]) {
      assert IndexedRight(r, sid);
    }
    var choice := Choice(r, mode, now, maxAge, slots);
    if choice.Some? {
      var i :| 0 <= i < |ids| && ids[i] == choice.value
        && forall j | 0 <= j < i :: !Fits(r, ids[j], mode, now, maxAge, slots);
      forall sid | Fits(r, sid, mode, now, maxAge, slots) ensures LessLoaded(r, choice.value, sid) {
        var j :| 0 <= j < |ids| && ids[j] == sid;
        RatioOrder(r.info[choice.value], r.info[sid]);
        if i == j {
          StringLeTotal(sid, sid);
        } else {
          assert Ranked(index, ids[i], ids[j]);
        }
      }
    }
  }

  /** What the loop chooses and when it finds nothing, in the fields of the servers. */
  lemma ChoiceInFields(r: Registry, mode: string, now: int, maxAge: int, slots: nat)
    requires CapacityOk(r.info)
    ensures
      var choice := Choice(r, mode, now, maxAge, slots);
      choice.Some? ==>
        && choice.value in r.info
        && var g := r.info[choice.value];
           && g.id == choice.value && g.mode == mode && g.status == "active"
           && 0 < g.lastHeartbeatAt && now - g.lastHeartbeatAt <= maxAge && g.load + slots <= g.capacity
    ensures Choice(r, mode, now, maxAge, slots).None? <==>
      forall sid | mode in r.loads && sid in r.loads[mode] && sid in r.info ::
        var g := r.info[sid];
        !(g.mode == mode && g.status == "active" && 0 < g.lastHeartbeatAt && now - g.lastHeartbeatAt <= maxAge
          && g.load + slots <= g.capacity)
    ensures IndexAgrees(r) ==>
      (Choice(r, mode, now, maxAge, slots).None? <==>
         forall sid | sid in r.info ::
           var g := r.info[sid];
           !(g.mode == mode && g.status == "active" && 0 < g.lastHeartbeatAt && now - g.lastHeartbeatAt <= maxAge
             && g.load + slots <= g.capacity))
  {
    var index := LoadIndex(r, mode);
    var ids := Sorted(index);
    SortedIsListing(index);
    FirstFitFinds(r, ids, mode, now, maxAge, slots);
    if IndexAgrees(r) {
      ChoiceIsLeastLoaded(r, mode, now, maxAge, slots);
    }
    assert forall sid | sid in r.info :: r.info[sid].id == sid;
    hide Sorted, FirstFit, IndexedRight;
    forall sid | sid in r.info
      ensures Fits(r, sid, mode, now, maxAge, slots) <==>
        var g := r.info[sid];
        g.mode == mode && g.status == "active" && 0 < g.lastHeartbeatAt && now - g.lastHeartbeatAt <= maxAge
        && g.load + slots <= g.capacity
    {
    }
  }

  lemma LeastLoadedInFields(r: Registry, mode: string, now: int, maxAge: int, slots: nat)
    requires CapacityOk(r.info)
    ensures
      var choice := Choice(r, mode, now, maxAge, slots);
      IndexAgrees(r) && choice.Some? ==>
        && choice.value in r.info
        && forall sid | sid in r.info ::
             var g, h := r.info[sid], r.info[choice.value];
             g.mode == mode && g.status == "active" && 0 < g.lastHeartbeatAt && now - g.lastHeartbeatAt <= maxAge
             && g.load + slots <= g.capacity ==>
               h.load * g.capacity < g.load * h.capacity
               || (h.load * g.capacity == g.load * h.capacity && StringLe(choice.value, sid))
  {
    if IndexAgrees(r) {
      ChoiceIsLeastLoaded(r, mode, now, maxAge, slots);
      hide Choice, IndexedRight, StringLe;
      var choice := Choice(r, mode, now, maxAge, slots);
      forall sid | choice.Some? && Fits(r, sid, mode, now, maxAge, slots) ensures LessLoaded(r, choice.value, sid) {
      }
      assert forall sid | sid in r.info :: r.info[sid].capacity > 0;
      forall sid | sid in r.info
        ensures
          var g := r.info[sid];
          (g.mode == mode && g.status == "active" && 0 < g.lastHeartbeatAt && now - g.lastHeartbeatAt <= maxAge
           && g.load + slots <= g.capacity) ==> Fits(r, sid, mode, now, maxAge, slots)
      {
      }
    }
  }

  function Allocated(r: Registry, mode: string, now: int, maxAge: int, slots: nat): Registry
    requires CapacityOk(r.info)
  {
    var choice := Choice(r, mode, now, maxAge, slots);
    if choice.None? || choice.value !in r.info then r
    else Stored(r, Taken(r.info[choice.value], slots, now), mode)
  }

  lemma AllocatedKeeps(r: Registry, mode: string, now: int, maxAge: int, slots: nat)
    requires CapacityOk(r.info)
    ensures CapacityOk(Allocated(r, mode, now, maxAge, slots).info)
    ensures IndexAgrees(r) ==> IndexAgrees(Allocated(r, mode, now, maxAge, slots))
  {
    var ids := Sorted(LoadIndex(r, mode));
    FirstFitFinds(r, ids, mode, now, maxAge, slots);
    var choice := Choice(r, mode, now, maxAge, slots);
    if choice.Some? {
      var g := Taken(r.info[choice.value], slots, now);
      StoredKeepsCapacity(r, g, mode);
      if IndexAgrees(r) {
        StoredKeepsIndex(r, g);
      }
    }
  }
}
