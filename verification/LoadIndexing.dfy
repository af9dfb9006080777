/** The load index over whole runs of the match protocol. */
module LoadIndexing {
  import opened ZSets
  import opened MatchStore
  import opened RoomRegistry
  import opened MatchProtocol
  import opened MatchSafety
  import opened MatchOutcomes

  /** A step that leaves a server's index entry wrong: the write of its state stops half-way, or a release
      changes its load after it has moved to another mode. */
  predicate Misindexes(w: World, k: Step)
    requires CapacityOk(w.rooms.info) && Enabled(w, k)
  {
    match k
    case Register(server, now, fault) =>
      var g := Normalize(server, now);
      g.Ok? && TearsIndex(w.rooms, g.value, true, fault)
    case Beat(sid, h, now, fault) =>
      && sid in w.rooms.info
      && var g := Beaten(w.rooms.info[sid], h, now);
         g.Ok? && TearsIndex(w.rooms, g.value, false, fault)
    case Release(m, _, fails) =>
      var a := w.attempts[m].phase.assignment;
      && !fails && |a.players| > 0 && a.serverId in w.rooms.info
      && w.rooms.info[a.serverId].mode != a.mode && w.rooms.info[a.serverId].load > 0
    case _ => false
  }

  lemma AllocateKeepsIndex(w: World, k: Step)
    requires IndexAgrees(w.rooms) && Enabled(w, k) && k.Allocate?
    ensures IndexAgrees(Next(w, k).rooms)
  {
    var players, mode := w.attempts[k.matchId].players, OrElse(k.mode, DEFAULT_MODE);
    AllocatedKeeps(w.rooms, mode, k.at, DEFAULT_HEARTBEAT_AGE, |players|);
  }

  lemma OtherStepKeepsRooms(w: World, k: Step)
    requires CapacityOk(w.rooms.info) && Enabled(w, k)
    requires !k.Allocate? && !k.Release? && !k.Register? && !k.Beat?
    ensures Next(w, k).rooms == w.rooms
  {
    hide Created, CancelNext, SweepNext, Completed, RequeuedPool;
    if k.Create? || k.Cancel? || k.Sweep? {
      StoreStepTouchesNoAttempt(w, k);
    }
  }

  lemma StepKeepsIndexExactlyWhen(w: World, k: Step)
    requires IndexAgrees(w.rooms) && Enabled(w, k)
    ensures IndexAgrees(Next(w, k).rooms) <==> !Misindexes(w, k)
  {
    hide IndexedRight, Written, TearsIndex, Released;
    match k
    case Allocate(_, _, _, _, _) => AllocateKeepsIndex(w, k);
    case Release(m, now, fails) =>
      var a := w.attempts[m].phase.assignment;
      ReleaseKeepsIndexExactlyWhen(w.rooms, a.serverId, a.mode, |a.players|, now);
    case Register(server, now, fault) =>
      var g := Normalize(server, now);
      if g.Ok? {
        WrittenKeepsIndexExactlyWhen(w.rooms, g.value, true, fault);
      }
    case Beat(sid, h, now, fault) =>
      if sid in w.rooms.info && Beaten(w.rooms.info[sid], h, now).Ok? {
        WrittenKeepsIndexExactlyWhen(w.rooms, Beaten(w.rooms.info[sid], h, now).value, false, fault);
      }
    case _ => OtherStepKeepsRooms(w, k);
  }

  ghost predicate NeverMisindexes(w: World, steps: seq<Step>)
    requires CapacityOk(w.rooms.info) && Possible(w, steps)
    decreases |steps|
  {
    steps != [] ==> !Misindexes(w, steps[0]) && NeverMisindexes(Next(w, steps[0]), steps[1..])
  }

  ghost predicate IndexAgreesAlong(w: World, steps: seq<Step>)
    requires CapacityOk(w.rooms.info) && Possible(w, steps)
    decreases |steps|
  {
    IndexAgrees(w.rooms) && (steps != [] ==> IndexAgreesAlong(Next(w, steps[0]), steps[1..]))
  }

  lemma WrongAtOnce(w: World, steps: seq<Step>)
    requires CapacityOk(w.rooms.info) && Possible(w, steps) && !IndexAgrees(w.rooms)
    ensures !IndexAgreesAlong(w, steps)
  {
  }

  /** From the start of a run to its end every server is indexed under its mode at load / capacity, exactly when
      no step of the run leaves an entry wrong. */
  lemma {:induction false} IndexAgreesAlongExactlyWhen(w: World, steps: seq<Step>)
    requires IndexAgrees(w.rooms) && Possible(w, steps)
    ensures IndexAgreesAlong(w, steps) <==> NeverMisindexes(w, steps)
    decreases |steps|
  {
    if steps != [] {
      hide Next, IndexedRight, Misindexes;
      var r := Next(w, steps[0]);
      StepKeepsIndexExactlyWhen(w, steps[0]);
      if IndexAgrees(r.rooms) {
        IndexAgreesAlongExactlyWhen(r, steps[1..]);
      } else {
        WrongAtOnce(r, steps[1..]);
      }
    }
  }
}
