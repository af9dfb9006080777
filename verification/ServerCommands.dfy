/** The room registry at the level of single Redis commands and scripts: a heartbeat reads a server's hash and
    writes the whole of it back later, while registrations, reservations and releases come in between. */
module ServerCommands {
  import opened MatchStore
  import opened RoomRegistry

  /** The hashes, the heartbeats that have read but not yet written, and, as history, the slots each server has
      granted and not taken back, beginning with the load it was first registered with. */
  datatype Commands = Commands(
    info: map<string, GameServer>, pending: map<string, GameServer>, granted: map<string, int>)

  const NO_COMMANDS := Commands(map[], map[], map[])

  datatype Command =
    | RegisterWrite(server: GameServer, now: int)
    | HeartbeatRead(token: string, sid: string, heartbeat: Heartbeat, now: int)
    | HeartbeatWrite(token: string)
    | Reserve(sid: string, now: int, maxAge: int, slots: nat)
    | Release(sid: string, now: int, slots: nat)

  function GrantedTo(c: Commands, sid: string): int {
    if sid in c.granted then c.granted[sid] else 0
  }

  function Registered(c: Commands, server: GameServer, now: int): Commands {
    var g := Normalize(server, now);
    if g.Err? then c
    else c.(info := c.info[g.value.id := g.value],
            granted := if server.id in c.info then c.granted else c.granted[server.id := g.value.load])
  }

  function Snapshot(c: Commands, token: string, sid: string, h: Heartbeat, now: int): Commands {
    if sid !in c.info || Beaten(c.info[sid], h, now).Err? then c
    else c.(pending := c.pending[token := Beaten(c.info[sid], h, now).value])
  }

  function WrittenBack(c: Commands, token: string): Commands {
    if token !in c.pending then c
    else c.(info := c.info[c.pending[token].id := c.pending[token]], pending := c.pending - {token})
  }

  function ReservedOn(c: Commands, sid: string, now: int, maxAge: int, slots: nat): Commands {
    if sid !in c.info || !CanReserve(c.info[sid], now, maxAge, slots) then c
    else c.(info := c.info[sid := Taken(c.info[sid], slots, now)],
            granted := c.granted[sid := GrantedTo(c, sid) + slots])
  }

  function ReleasedOn(c: Commands, sid: string, now: int, slots: nat): Commands {
    if sid !in c.info then c
    else c.(info := c.info[sid := Given(c.info[sid], slots, now)],
            granted := c.granted[sid := GrantedTo(c, sid) - slots])
  }

  function Run(c: Commands, k: Command): Commands {
    match k
    case RegisterWrite(server, now) => Registered(c, server, now)
    case HeartbeatRead(token, sid, h, now) => Snapshot(c, token, sid, h, now)
    case HeartbeatWrite(token) => WrittenBack(c, token)
    case Reserve(sid, now, maxAge, slots) => ReservedOn(c, sid, now, maxAge, slots)
    case Release(sid, now, slots) => ReleasedOn(c, sid, now, slots)
  }

  function RunAll(c: Commands, ks: seq<Command>): Commands {
    if ks == [] then c else Run(RunAll(c, ks[..|ks| - 1]), ks[|ks| - 1])
  }

  /** Every hash, and every hash about to be written, holds a load within its capacity. */
  ghost predicate CapacitySafe(c: Commands) {
    CapacityOk(c.info) && forall token | token in c.pending :: ServerOk(c.pending[token])
  }

  lemma CommandKeepsCapacity(c: Commands, k: Command)
    requires CapacitySafe(c)
    ensures CapacitySafe(Run(c, k))
  {
  }

  /** However the commands interleave, stale heartbeats included, 0 <= load <= capacity and capacity > 0 hold of
      every server hash all the time. */
  lemma {:induction false} CapacityIsAlwaysSafe(ks: seq<Command>)
    ensures CapacitySafe(RunAll(NO_COMMANDS, ks))
  {
    if ks != [] {
      CapacityIsAlwaysSafe(ks[..|ks| - 1]);
      CommandKeepsCapacity(RunAll(NO_COMMANDS, ks[..|ks| - 1]), ks[|ks| - 1]);
    }
  }

  // ---------- what the writes of whole hashes do break ----------

  /** The stored load is what the server has granted. */
  predicate LoadIsGranted(c: Commands, sid: string) {
    sid in c.info && c.info[sid].load == GrantedTo(c, sid)
  }

  /** What keeps a command from breaking that: a registration of the known server reports the granted slots, a
      write-back carries the load that is stored at its time, whether it read or was told that load, and a release
      gives back no more than the stored load. */
  predicate KeepsGrants(c: Commands, k: Command, sid: string) {
    match k
    case RegisterWrite(server, now) =>
      server.id == sid && Normalize(server, now).Ok? && sid in c.info ==> server.load == GrantedTo(c, sid)
    case HeartbeatWrite(token) =>
      token in c.pending && c.pending[token].id == sid && sid in c.info ==> c.pending[token].load == c.info[sid].load
    case Release(released, _, slots) => released == sid && sid in c.info ==> slots <= c.info[sid].load
    case _ => true
  }

  lemma GrantsKeptExactlyWhen(c: Commands, k: Command, sid: string)
    requires CapacitySafe(c) && LoadIsGranted(c, sid)
    ensures LoadIsGranted(Run(c, k), sid) <==> KeepsGrants(c, k, sid)
  {
  }

  /** The commands up to the i-th. */
  function At(c: Commands, ks: seq<Command>, i: nat): Commands
    requires i <= |ks|
  {
    RunAll(c, ks[..i])
  }

  lemma AtNext(c: Commands, ks: seq<Command>, i: nat)
    requires i < |ks|
    ensures At(c, ks, i + 1) == Run(At(c, ks, i), ks[i])
  {
    assert ks[..i + 1][..i] == ks[..i];
  }

  lemma {:induction false} SafeAt(c: Commands, ks: seq<Command>, i: nat)
    requires CapacitySafe(c) && i <= |ks|
    ensures CapacitySafe(At(c, ks, i))
  {
    if i > 0 {
      SafeAt(c, ks, i - 1);
      AtNext(c, ks, i - 1);
      CommandKeepsCapacity(At(c, ks, i - 1), ks[i - 1]);
    }
  }

  lemma {:induction false} GrantedSoFar(c: Commands, ks: seq<Command>, i: nat, sid: string)
    requires CapacitySafe(c) && LoadIsGranted(c, sid) && i <= |ks|
    requires forall j: nat | j < i :: KeepsGrants(At(c, ks, j), ks[j], sid)
    ensures LoadIsGranted(At(c, ks, i), sid)
  {
    if i > 0 {
      hide KeepsGrants, LoadIsGranted, CapacitySafe, Run;
      GrantedSoFar(c, ks, i - 1, sid);
      SafeAt(c, ks, i - 1);
      AtNext(c, ks, i - 1);
      GrantsKeptExactlyWhen(At(c, ks, i - 1), ks[i - 1], sid);
    }
  }

  /** All along a run of commands the stored load is what the server has granted, exactly when no registration
      and no heartbeat writes another load than the stored one and no release is clamped. */
  lemma GrantsExactExactlyWhen(c: Commands, ks: seq<Command>, sid: string)
    requires CapacitySafe(c) && LoadIsGranted(c, sid)
    ensures (forall i: nat | i <= |ks| :: LoadIsGranted(At(c, ks, i), sid))
       <==> (forall i: nat | i < |ks| :: KeepsGrants(At(c, ks, i), ks[i], sid))
  {
    hide KeepsGrants, LoadIsGranted, Run, RunAll, At;
    if forall i: nat | i < |ks| :: KeepsGrants(At(c, ks, i), ks[i], sid) {
      forall i: nat | i <= |ks| ensures LoadIsGranted(At(c, ks, i), sid) {
        GrantedSoFar(c, ks, i, sid);
      }
    } else {
      var i: nat :| i < |ks| && !KeepsGrants(At(c, ks, i), ks[i], sid);
      SafeAt(c, ks, i);
      AtNext(c, ks, i);
      if LoadIsGranted(At(c, ks, i), sid) {
        GrantsKeptExactlyWhen(At(c, ks, i), ks[i], sid);
        assert !LoadIsGranted(At(c, ks, i + 1), sid);
      }
    }
  }

  // ---------- over-commitment ----------

  /** The server has granted no more slots than it has. */
  predicate WithinCapacity(c: Commands, sid: string) {
    sid in c.info && GrantedTo(c, sid) <= c.info[sid].capacity
  }

  /** The stored load accounts for all granted slots. */
  predicate Covered(c: Commands, sid: string) {
    sid in c.info && GrantedTo(c, sid) <= c.info[sid].load
  }

  /** The reserve script lets requests in that ask for a heartbeat recent enough. */
  predicate Accepting(c: Commands, sid: string) {
    sid in c.info && c.info[sid].status == "active" && c.info[sid].lastHeartbeatAt > 0
  }

  predicate Reserving(ks: seq<Command>) {
    forall k | k in ks :: k.Reserve? || k.Release?
  }

  /** Whatever is reserved and released from here on, the server grants no more slots than it has. */
  ghost predicate SafeToReserve(c: Commands, sid: string) {
    forall ks | Reserving(ks) :: WithinCapacity(RunAll(c, ks), sid)
  }

  lemma {:induction false} ReservingKeepsCover(c: Commands, ks: seq<Command>, sid: string)
    requires CapacitySafe(c) && Covered(c, sid) && Reserving(ks)
    ensures CapacitySafe(RunAll(c, ks)) && Covered(RunAll(c, ks), sid)
  {
    if ks != [] {
      var n := |ks| - 1;
      ReservingKeepsCover(c, ks[..n], sid);
      assert ks[n] in ks;
    }
  }

  /** Reservations and releases can never over-commit an accepting server exactly when its stored load accounts
      for all granted slots. */
  lemma SafeToReserveExactlyWhen(c: Commands, sid: string)
    requires CapacitySafe(c) && Accepting(c, sid)
    ensures SafeToReserve(c, sid) <==> Covered(c, sid)
  {
    if Covered(c, sid) {
      forall ks | Reserving(ks) ensures WithinCapacity(RunAll(c, ks), sid) {
        ReservingKeepsCover(c, ks, sid);
      }
    } else {
      var g := c.info[sid];
      var ks := [Reserve(sid, g.lastHeartbeatAt, 0, g.capacity - g.load)];
      assert ks[..0] == [] && RunAll(c, ks) == Run(c, ks[0]);
      assert Reserving(ks) && !WithinCapacity(RunAll(c, ks), sid);
    }
  }

  /** A registration of the known server, or a write-back, carries at least the granted slots; nothing else can
      uncover them. */
  predicate KeepsCover(c: Commands, k: Command, sid: string) {
    match k
    case RegisterWrite(server, now) =>
      server.id == sid && Normalize(server, now).Ok? && sid in c.info ==> GrantedTo(c, sid) <= server.load
    case HeartbeatWrite(token) =>
      token in c.pending && c.pending[token].id == sid ==> GrantedTo(c, sid) <= c.pending[token].load
    case _ => true
  }

  lemma CoverKeptExactlyWhen(c: Commands, k: Command, sid: string)
    requires CapacitySafe(c) && Covered(c, sid)
    ensures Covered(Run(c, k), sid) <==> KeepsCover(c, k, sid)
  {
  }

  lemma {:induction false} CoveredSoFar(c: Commands, ks: seq<Command>, i: nat, sid: string)
    requires CapacitySafe(c) && Covered(c, sid) && i <= |ks|
    requires forall j: nat | j < i :: KeepsCover(At(c, ks, j), ks[j], sid)
    ensures Covered(At(c, ks, i), sid)
  {
    if i > 0 {
      hide KeepsCover, Covered, CapacitySafe, Run;
      CoveredSoFar(c, ks, i - 1, sid);
      SafeAt(c, ks, i - 1);
      AtNext(c, ks, i - 1);
      CoverKeptExactlyWhen(At(c, ks, i - 1), ks[i - 1], sid);
    }
  }

  /** All along a run of commands the stored load accounts for all granted slots, exactly when every registration
      of the known server and every write-back carries at least these. */
  lemma CoveredAlongExactlyWhen(c: Commands, ks: seq<Command>, sid: string)
    requires CapacitySafe(c) && Covered(c, sid)
    ensures (forall i: nat | i <= |ks| :: Covered(At(c, ks, i), sid))
       <==> (forall i: nat | i < |ks| :: KeepsCover(At(c, ks, i), ks[i], sid))
  {
    hide KeepsCover, Covered, Run, RunAll, At;
    if forall i: nat | i < |ks| :: KeepsCover(At(c, ks, i), ks[i], sid) {
      forall i: nat | i <= |ks| ensures Covered(At(c, ks, i), sid) {
        CoveredSoFar(c, ks, i, sid);
      }
    } else {
      var i: nat :| i < |ks| && !KeepsCover(At(c, ks, i), ks[i], sid);
      SafeAt(c, ks, i);
      AtNext(c, ks, i);
      if Covered(At(c, ks, i), sid) {
        CoverKeptExactlyWhen(At(c, ks, i), ks[i], sid);
        assert !Covered(At(c, ks, i + 1), sid);
      }
    }
  }

  /** All along a run in which the server accepts, nothing that could be reserved next over-commits it, exactly
      when every registration of the known server and every write-back carries at least the granted slots. */
  lemma NeverOvercommittedExactlyWhen(c: Commands, ks: seq<Command>, sid: string)
    requires CapacitySafe(c) && Covered(c, sid)
    requires forall i: nat | i <= |ks| :: Accepting(At(c, ks, i), sid)
    ensures (forall i: nat | i <= |ks| :: SafeToReserve(At(c, ks, i), sid))
       <==> (forall i: nat | i < |ks| :: KeepsCover(At(c, ks, i), ks[i], sid))
  {
    hide KeepsCover, Covered, Accepting, SafeToReserve, Run, RunAll, At;
    CoveredAlongExactlyWhen(c, ks, sid);
    forall i: nat | i <= |ks| ensures SafeToReserve(At(c, ks, i), sid) <==> Covered(At(c, ks, i), sid) {
      SafeAt(c, ks, i);
      SafeToReserveExactlyWhen(At(c, ks, i), sid);
    }
  }

  /** And whether the server accepts or not, such a run never over-commits it. */
  lemma CoverNeverOvercommits(c: Commands, ks: seq<Command>, i: nat, sid: string)
    requires CapacitySafe(c) && Covered(c, sid) && i <= |ks|
    requires forall j: nat | j < |ks| :: KeepsCover(At(c, ks, j), ks[j], sid)
    ensures WithinCapacity(At(c, ks, i), sid)
  {
    CoveredSoFar(c, ks, i, sid);
    SafeAt(c, ks, i);
  }

  // ---------- three runs that over-commit ----------

  const SMALL_SERVER := GameServer("s", "room", "addr", "", DEFAULT_MODE, 2, 0, "active", 1, 1)

  const OVERCOMMITTING: seq<Command> :=
    [RegisterWrite(SMALL_SERVER, 1), HeartbeatRead("beat", "s", Heartbeat("", None), 1), Reserve("s", 1, 30_000, 2),
     HeartbeatWrite("beat"), Reserve("s", 1, 30_000, 2)]

  const REREGISTERING: seq<Command> :=
    [RegisterWrite(SMALL_SERVER, 1), Reserve("s", 1, 30_000, 2), RegisterWrite(SMALL_SERVER, 1),
     Reserve("s", 1, 30_000, 2)]

  const REPORTING: seq<Command> :=
    [RegisterWrite(SMALL_SERVER, 1), Reserve("s", 1, 30_000, 2),
     HeartbeatRead("beat", "s", Heartbeat("active", Some(0)), 1), HeartbeatWrite("beat"), Reserve("s", 1, 30_000, 2)]

  lemma FourCommands(c: Commands, ks: seq<Command>)
    requires |ks| >= 4
    ensures At(c, ks, 4) == Run(Run(Run(Run(c, ks[0]), ks[1]), ks[2]), ks[3])
  {
    hide Run;
    assert At(c, ks, 0) == c;
    AtNext(c, ks, 0);
    AtNext(c, ks, 1);
    AtNext(c, ks, 2);
    AtNext(c, ks, 3);
  }

  /** A heartbeat that reads before a reservation and writes after it erases the reservation: a server with
      two slots grants four. */
  lemma StaleHeartbeatOvercommits()
    ensures
      var c := RunAll(NO_COMMANDS, OVERCOMMITTING);
      "s" in c.info && c.info["s"].capacity == 2 && GrantedTo(c, "s") == 4
  {
    var k := OVERCOMMITTING;
    FourCommands(NO_COMMANDS, k);
    AtNext(NO_COMMANDS, k, 4);
    var c := At(NO_COMMANDS, k, 4);
    assert GrantedTo(c, "s") == 2 && c.info["s"].load == 0;
    assert k[..5] == k;
  }

  /** So does a server that registers again, as it does when it restarts, while reservations are open. */
  lemma ReregistrationOvercommits()
    ensures
      var c := RunAll(NO_COMMANDS, REREGISTERING);
      "s" in c.info && c.info["s"].capacity == 2 && GrantedTo(c, "s") == 4
  {
    FourCommands(NO_COMMANDS, REREGISTERING);
    assert REREGISTERING[..4] == REREGISTERING;
  }

  /** And so does a heartbeat that reports how many players have joined, before those of a match have: nothing in
      this run is stale, registered twice or clamped. */
  lemma ReportedLoadOvercommits()
    ensures
      var c := RunAll(NO_COMMANDS, REPORTING);
      "s" in c.info && c.info["s"].capacity == 2 && GrantedTo(c, "s") == 4
  {
    var k := REPORTING;
    FourCommands(NO_COMMANDS, k);
    AtNext(NO_COMMANDS, k, 4);
    var c := At(NO_COMMANDS, k, 4);
    assert GrantedTo(c, "s") == 2 && c.info["s"].load == 0;
    assert k[..5] == k;
  }
}
