# CoreRank: matchmaking and room capacity

CoreRank keeps waiting players, match tickets, match results and the load of its room servers in Redis, and mirrors
tickets and results to MySQL. One fact, "this player is waiting", is written in four places: the ticket hash, the
player-to-ticket key, the ticket pool and the expiry index. A match is an attempt that picks two players out of the
pool, reserves their slots on a room server, and completes, or gives the slots and the players back. This project models
that protocol, the score-bucket worker that drives it and the in-memory state of the TCP room server, and proves what
they keep over whole runs.

## How the model is laid out

| file | models |
|---|---|
| `ZSets.dfy` | a Redis sorted set as a map from member to score, and its listing by score and then name |
| `MatchStore.dfy`, `PickAndSweep.dfy` | the ticket store as a value; create, close, sweep, pick, complete and requeue |
| `TicketEffects.dfy`, `ServiceEffects.dfy` | what operations on tickets and service calls report and leave, field by field and with their numbers written out, for the contracts of the methods; nothing in the model is defined by them |
| `PlayerRepository.dfy` | the Redis repository of tickets as a class whose methods have those effects |
| `RoomRegistry.dfy`, `RoomServerRepository.dfy` | server hashes, modes, load index; the same two layers |
| `MatchProtocol.dfy`, `MatchSafety.dfy`, `MatchOutcomes.dfy`, `EnqueueTimes.dfy`, `ServerAccounting.dfy`, `LoadIndexing.dfy` | one repository operation as one step, with any number of attempts in flight; safety over runs |
| `ServerCommands.dfy` | one Redis command or script on a server hash as one step |
| `ServiceSteps.dfy`, `ServiceAgreement.dfy`, `ServiceCalls.dfy`, `Mirror.dfy`, `MatchService.dfy` | one service call as one step: agreement of all indexes and of the mirror; the service as a class |
| `ServiceRefinement.dfy`, `ServiceRuns.dfy` | every service call is a run of protocol steps; what every sequence of calls keeps |
| `FailingRuns.dfy` | runs from an empty store after which a conditional property fails |
| `Matcher.dfy` | the sliding-window worker and the bound on waiting |
| `RoomStates.dfy`, `RoomServer.dfy` | the room server: two maps that agree, and a room that starts at most once |

A method of a class is proved against the specification function of its operation, which the theorems are about, and
against a second statement in plain fields and numbers that does not use that function. Every Redis call that the source makes can fail in the model: a `fault` or `fails` parameter says which call
does, and a call that fails has no effect. Clock readings and new identifiers are parameters.

Some properties that the design suggests hold only under a condition. Each is stated as an equivalence with it, and a
lemma gives a run that starts empty and fails it:

- A queued player is lost exactly when a requeue stops at a failing call before a player whom nothing else covers.
  `docs/architecture.md:148` says that picked players are put back and not silently lost; the code reports the error,
  and the players it has not reached stay queued outside the pool until they cancel or time out
  (`FailingRuns.FailedRequeueLosesPlayers`).
- Reservations can over-commit a server exactly when its stored load accounts for less than the slots it has granted,
  and a load gets there in three ways: a heartbeat writes back a whole hash that it read before a reservation; a server
  registers again, as it does when it restarts; or a heartbeat reports the players who have joined, as the room server
  of this repository does in each of its heartbeats (`internal/roomserver/server.go:92-101`), before those of a match
  have. Each makes a server of two slots grant four, although its hash never shows more than two
  (`ServerCommands.StaleHeartbeatOvercommits`, `ServerCommands.ReregistrationOvercommits`,
  `ServerCommands.ReportedLoadOvercommits`).
- The slots of a match attempt stay taken after the attempt exactly when its release fails
  (`FailingRuns.FailedReleaseLeaksSlots`).
- The load index is wrong after the write of a server that stops half-way, and after a release that follows a move to
  another mode (`FailingRuns.TornRegistrationMisindexes`, `FailingRuns.TornHeartbeatMisindexes`,
  `FailingRuns.ReleaseAfterMoveMisindexes`).
- A sweep that fails after its first ticket returns before mirroring any, so MySQL stays behind
  (`ServiceRuns.SweepLeavesMirrorBehind`).
- The clean-up after a failed creation removes the player's pool entry even if it was there before. A player who cancels
  and queues again while held by an attempt leaves such an entry (`FailingRuns.LeftoverEntryIsRemoved`); with the four
  places in agreement there is none.

## Model

| member | source | states |
|---|---|---|
| ZSets.SortedIsListing | internal/repository/room_server_repo.go:205 | the listing of a sorted set names every member once, by score and then by name |
| ZSets.ListingIsUnique | internal/repository/room_server_repo.go:205 | no other sequence is such a listing |
| ZSets.TakeAreFirst | internal/repository/lua_scripts.go:20-21 | a listing with a limit gives the first members, none when there are none, and nobody left out is ahead of them |
| ZSets.SortedNamesAscend | internal/roomserver/server.go:347-354 | player names are reported each once and in ascending order |
| MatchStore.CompositeOrder | internal/repository/lua_scripts.go:45-64 | pool scores order players by rating first and by enqueue time among equal ratings, and tell both apart |
| MatchStore.CompositeCarries | internal/repository/lua_scripts.go:45-64 | a pool score lies strictly between its rating and the next |
| MatchStore.CreatedKeepsOk | internal/repository/match_repo.go:53-86 | creation, whichever command fails, keeps player keys and expiry index exactly those of the queued tickets |
| MatchStore.CreateRollsBackExactlyWhen | internal/repository/match_repo.go:53-86 | a failed creation leaves the store as it was, except exactly when the clean-up of its last command removes an older pool entry |
| FailingRuns.LeftoverEntryIsRemoved | internal/repository/match_repo.go:75-82 | a run leads to a pool entry without a ticket key, which the next failed creation removes |
| MatchStore.CreateRollsBack | internal/repository/match_repo.go:53-86 | from a store in agreement every failed creation leaves it as it was |
| MatchStore.ClosedKeepsAgreement | internal/repository/match_repo.go:99-125 | cancelling or timing out queued tickets keeps the four places in exact agreement, whoever is picked |
| MatchStore.CancelUndoesCreate | internal/repository/match_repo.go:53-125 | cancelling a new ticket takes pool, keys and expiry index back to what they were before its creation and keeps the ticket on record as cancelled |
| MatchStore.CompletedKeepsOk | internal/repository/match_repo.go:135-201 | completing keeps keys and expiry index exact, although it leaves the pool alone |
| MatchStore.RequeuedPoolIs | internal/repository/match_repo.go:238-263 | a requeue puts exactly the reached players who still hold a queued ticket into the pool, with the rating of the ticket |
| MatchStore.StillQueuedMembers | internal/repository/match_repo.go:139-162 | the players that a completion matches are exactly those given who hold a ticket key |
| PickAndSweep.PickIsSortAndTake | internal/repository/lua_scripts.go:11-37 | on any pool made from ratings and enqueue times, as every run's is: the pick takes nobody when too few are in the window, and otherwise exactly the first in order of rating, enqueue time and id |
| PickAndSweep.WindowArithmetic | internal/repository/player_repo.go:65-73 | what truncating division does to the requested window, for every sign and parity |
| PickAndSweep.PickedRatings | internal/repository/player_repo.go:65-95 | on such a pool: picked ratings lie in [min, max-1], and every rating in [min+1, max-2] is eligible |
| PickAndSweep.PairedRatingsAreClose | internal/service/match_service.go:200-211 | on such a pool: the pair of one attempt around a rating differs by at most 399 |
| PickAndSweep.PickServesInOrder | internal/repository/lua_scripts.go:11-37 | on any store: the pick takes nobody when the window holds too few pool members; of those it takes, players with tickets are rated in the window and in order of rating, last enqueue and id, and nobody waiting is passed over |
| PickAndSweep.NothingLeftOver | internal/repository/player_repo.go:65-95 | with nothing left over in the pool, the window holds exactly the queued players whom no attempt holds and whose tickets are rated in it |
| PickAndSweep.PairedTicketsAreClose | internal/service/match_service.go:200-211 | on any store: two players with tickets whom an attempt around a rating picks are rated at most 399 apart |
| PickAndSweep.PickHolds | internal/repository/player_repo.go:65-95 | after a pick the picked players are queued everywhere but in the pool, and nobody else is |
| PickAndSweep.SweepTakesFirstDue | internal/repository/match_repo.go:203-232 | a sweep takes the first min(limit, number due) expired queued tickets by expiry |
| PickAndSweep.SweepInFields | internal/repository/match_repo.go:203-213 | a sweep takes min(limit, number of expired queued tickets), 100 if no limit is given, each once and none that expires later than one it leaves |
| PickAndSweep.SweepIsExact | internal/repository/match_repo.go:265-299 | it times out exactly these, clears their key, pool and expiry entries, and changes nothing else |
| PickAndSweep.SweepsCount | internal/repository/match_repo.go:203-232 | each of k sweeps lowers the number of expired tickets by the limit, down to zero |
| PickAndSweep.SweepsDrain | internal/repository/match_repo.go:203-232 | k sweeps leave no expired ticket exactly when k times the limit, 100 if none is given, is at least the number expired |
| PlayerRepositories.PlayerRepository.AddPlayerToPool | internal/repository/player_repo.go:42-53 | only the player's pool entry changes, to the rating plus the clock reading over 10^13 |
| PlayerRepositories.PlayerRepository.CreateMatchTicket | internal/repository/match_repo.go:53-86 | command by command with its clean-ups: success enters exactly the ticket in all four places; each fault and a queued player give their error and leave everything but, in one case, a pool entry as it was |
| PlayerRepositories.PlayerRepository.CancelMatchTicket | internal/repository/match_repo.go:99-125 | cancels exactly a queued ticket: the record with its new status and time is stored and returned, and key, pool and expiry entry go; unknown and settled tickets are told apart and change nothing |
| PlayerRepositories.PlayerRepository.TimeoutMatchTicket | internal/repository/match_repo.go:265-299 | the script times out a ticket exactly when it is queued and expired, and otherwise, or when a call fails, nothing changes |
| PlayerRepositories.PlayerRepository.TimeoutExpiredMatchTickets | internal/repository/match_repo.go:203-232 | with no failing call, exactly min(limit, number expired) tickets, 100 if no limit is given, are timed out and returned as stored, none expiring later than one left; otherwise those up to the failing call |
| PlayerRepositories.PlayerRepository.SearchAndPickTicketPlayers | internal/repository/player_repo.go:61-95 | takes exactly the picked players out of the pool, or on an error nobody |
| PlayerRepositories.PlayerRepository.CompleteMatch | internal/repository/match_repo.go:135-201 | matches exactly the given players who hold a ticket key, if they are two, with match, room and time in their tickets and the result stored; with fewer, or on an error, the store is unchanged |
| PlayerRepositories.PlayerRepository.RequeueMatchTicketPlayers | internal/repository/match_repo.go:238-263 | gives each keyed player up to the failing call a pool score of ticket rating and clock reading, leaves every other entry, and reports the failure |
| RoomRegistry.NormalizedIsComplete | internal/repository/room_server_repo.go:308-344 | an accepted registration is complete: registering it again as stored changes only the time |
| RoomRegistry.WrittenKeepsIndexExactlyWhen | internal/repository/room_server_repo.go:87-111 | storing a server keeps the load index right unless a write fails between hash and index and the entry was not right already |
| RoomRegistry.ReleaseKeepsIndexExactlyWhen | internal/repository/room_server_repo.go:488-513 | a release keeps the load index right exactly when it names the server's mode or changes no load |
| RoomRegistry.ReserveThenRelease | internal/repository/room_server_repo.go:451-513 | a release undoes the reservation it belongs to: load and index are what they were |
| RoomRegistry.FirstFitFinds | internal/repository/room_server_repo.go:213-261 | the loop returns the first listed server that fits, and none exactly when none of the listed fits |
| RoomRegistry.ChoiceIsLeastLoaded | internal/repository/room_server_repo.go:191-262 | going through the load index finds the least server among all that fit, by load * capacity cross-multiplied and then id, and none exactly when none fits |
| RoomRegistry.ChoiceInFields | internal/repository/room_server_repo.go:451-486 | the chosen server has mode, status, age of heartbeat and room as asked, and none is chosen exactly when no listed one has; with the index right, when no registered one has |
| RoomRegistry.AllocatedKeeps | internal/repository/room_server_repo.go:191-262 | an allocation keeps every load within capacity and the load index right |
| RoomServerRepositories.RoomServerRepository.RegisterGameServer | internal/repository/room_server_repo.go:87-111 | which registration is rejected with which error; which fields are filled in; and which of the four writes have been made under each fault |
| RoomServerRepositories.RoomServerRepository.HeartbeatGameServer | internal/repository/room_server_repo.go:113-151 | an unknown server is an error; status and load are replaced only where given, the time always; a bad one changes nothing; and which writes have been made under each fault |
| RoomServerRepositories.RoomServerRepository.ReserveScript | internal/repository/room_server_repo.go:451-486 | takes the slots exactly when the server is active, was heard of within the given age and has the room; then hash and index both hold the new load |
| RoomServerRepositories.RoomServerRepository.AllocateRoomServer | internal/repository/room_server_repo.go:191-262 | the server it returns has the mode, is active, was heard of within the age (30 seconds if none is given), has the room, and is the least by load / capacity and id of all such; the slots are taken; and no server is reported exactly when there is none |
| RoomServerRepositories.RoomServerRepository.ReleaseRoomServer | internal/repository/room_server_repo.go:264-281 | gives the assignment's slots back down to zero, in hash and index, and does nothing without a server or players |
| RoomServerRepositories.RoomServerRepository.SaveRoomAssignment | internal/repository/room_server_repo.go:283-306 | stores the assignment under its match, even when setting its expiry then fails |
| MatchProtocol.Next | internal/repository/room_server_repo.go:451-513 | after every repository operation, whatever fails in it, every load is within its capacity |
| MatchSafety.StoreOkKept | internal/repository/match_repo.go:53-299 | every step keeps player keys and expiry index exactly those of the queued tickets and pool scores true to ratings |
| MatchSafety.AttemptsOkKept | internal/service/match_service.go:217-299 | every attempt holds two distinct players, with two slots reserved from placement to release |
| MatchSafety.PickLosesNobody | internal/repository/player_repo.go:65-95 | picked players are held by their attempt |
| MatchSafety.CompleteLosesNobody | internal/repository/match_repo.go:135-201 | a completed match needs to hold neither player any more |
| MatchSafety.RequeueLosesNobodyExactlyWhen | internal/repository/match_repo.go:238-263 | a requeue loses nobody exactly when every queued player it does not reach is in the pool or in another attempt |
| MatchSafety.NobodyLostKeptExactlyWhen | internal/service/match_service.go:232-268 | of all steps only a requeue can lose a queued player, and exactly then |
| MatchOutcomes.NobodyLostAlongExactlyWhen | internal/service/match_service.go:217-268 | over every interleaving nobody is lost from start to end exactly when no requeue of the run drops anyone |
| MatchOutcomes.NoQueuedPlayerIsLost | docs/architecture.md:148 | where requeues work, after every run each queued player is in the pool or in an attempt in flight; with none in flight, in the pool |
| FailingRuns.FailedRequeueLosesPlayers | internal/service/match_service.go:232-241 | a run whose requeue fails leaves two queued players in no pool and in no attempt |
| MatchOutcomes.StepKeepsInv | internal/repository/match_repo.go:135-201 | every step keeps all invariants, and revises no settled ticket and no result |
| MatchOutcomes.RunIsSafe | internal/repository/match_repo.go:53-299 | so does every run: status leaves queued once and then never changes |
| MatchOutcomes.ResultsOkKept | internal/repository/match_repo.go:135-201 | every step keeps each result bound to its own two consumed tickets |
| MatchOutcomes.EveryRunFromEmpty | internal/repository/match_repo.go:53-299 | after every possible run from an empty store all invariants hold, each result owns its two tickets, and nobody is lost if no requeue dropped one |
| MatchOutcomes.EachTicketConsumedOnce | internal/repository/match_repo.go:135-201 | the tickets with a match id are exactly the two of that result, one for each of its distinct players, in its room; each matched ticket has its result |
| ServerAccounting.ReleaseNeverClamps | internal/repository/room_server_repo.go:488-513 | the release finds at least the slots it gives back, so its clamp at zero does nothing |
| ServerAccounting.CompleteKeepsAccount | internal/repository/match_repo.go:135-201 | completion turns the reservation of a match into the players of its result |
| ServerAccounting.StepKeepsAccountExactlyWhen | internal/repository/room_server_repo.go:451-513 | a step keeps load = start + open reservations + players of results exactly when it is no registration or heartbeat reporting another load than the stored one |
| ServerAccounting.AccountedAlongExactlyWhen | internal/repository/room_server_repo.go:451-513 | over every run the account, with reservations not given back counted as open, is exact from start to end exactly when no step of it is such |
| ServerAccounting.InFlightKeptExactlyWhen | internal/service/match_service.go:254-268 | of all steps only a release that fails leaves slots taken without an attempt in flight |
| ServerAccounting.HeldAndAccountedAlongExactlyWhen | internal/service/match_service.go:217-268 | over every run load = start + slots of attempts in flight + players of results, and nobody else holds slots, exactly when no step sets the load to another and no release fails |
| ServerAccounting.LoadIsHeldAndPlayed | internal/service/match_service.go:217-268 | and without attempts in flight the load is the start and the players of results alone |
| FailingRuns.FailedReleaseLeaksSlots | internal/service/match_service.go:259-268 | a run whose release fails leaves no attempt, no match and two slots taken |
| ServerAccounting.MatchesFitTheServer | internal/repository/room_server_repo.go:451-513 | and then open reservations and players of results fit into the server together |
| FailingRuns.ReregistrationForgetsReservations | internal/repository/room_server_repo.go:87-111 | a server that registers again while a match in flight has its slots stores a load without them |
| FailingRuns.HeartbeatForgetsReservations | internal/repository/room_server_repo.go:113-151 | so does a heartbeat that reports no joined players |
| EnqueueTimes.StepSetsTimes | internal/repository/player_repo.go:42-53 | of all steps, creations and requeues set the enqueue times in the pool, of exactly the players they enqueue |
| EnqueueTimes.PoolIsItsHistory | internal/repository/player_repo.go:42-53 | after every run the pool is made from ratings and times: each entry has its player's last enqueue, and the ticket's rating if the player is queued |
| EnqueueTimes.EveryRunPairsClosely | internal/service/match_service.go:200-211 | after every run, whatever is left over in the pool, the pair of an attempt around a rating is rated at most 399 apart and passes over nobody waiting ahead |
| LoadIndexing.StepKeepsIndexExactlyWhen | internal/repository/room_server_repo.go:356-361 | a step keeps the load index right unless a write stops half-way or a release follows a change of mode |
| LoadIndexing.IndexAgreesAlongExactlyWhen | internal/repository/room_server_repo.go:356-361 | over every run each server is indexed at load / capacity all along exactly when no step does that |
| FailingRuns.TornRegistrationMisindexes | internal/repository/room_server_repo.go:87-111 | a first registration that fails at its last write leaves its server out of the index |
| FailingRuns.TornHeartbeatMisindexes | internal/repository/room_server_repo.go:113-151 | a heartbeat with a load that fails there leaves the old ratio |
| FailingRuns.ReleaseAfterMoveMisindexes | internal/repository/room_server_repo.go:488-513 | a release after a move to another mode leaves a wrong ratio, with no write failing |
| ServerCommands.CapacityIsAlwaysSafe | internal/repository/room_server_repo.go:87-151 | under every interleaving of single commands, stale heartbeats included, capacity > 0 and 0 <= load <= capacity in every hash |
| ServerCommands.GrantsExactExactlyWhen | internal/repository/room_server_repo.go:87-151 | all along a run of commands the stored load is what was granted, exactly when no registration and no heartbeat writes another load than the stored one and no release is clamped |
| ServerCommands.SafeToReserveExactlyWhen | internal/repository/room_server_repo.go:451-486 | no sequence of reservations and releases can over-commit an accepting server exactly when its stored load accounts for all granted slots |
| ServerCommands.CoveredAlongExactlyWhen | internal/repository/room_server_repo.go:87-151 | it does all along a run of commands exactly when each registration of the known server and each write-back carries at least the granted slots |
| ServerCommands.NeverOvercommittedExactlyWhen | internal/repository/room_server_repo.go:87-151 | so all along a run nothing reserved next can over-commit an accepting server, exactly under that condition |
| ServerCommands.CoverNeverOvercommits | internal/repository/room_server_repo.go:451-486 | and under it no server, accepting or not, grants more than its capacity |
| ServerCommands.StaleHeartbeatOvercommits | internal/repository/room_server_repo.go:113-151 | a heartbeat around a reservation makes a server of two slots grant four |
| ServerCommands.ReregistrationOvercommits | internal/repository/room_server_repo.go:87-111 | so does a second registration between two reservations |
| ServerCommands.ReportedLoadOvercommits | internal/roomserver/server.go:92-101 | so does a heartbeat that reports no joined players after a reservation, with nothing stale, registered twice or clamped |
| TicketEffects.CompletionEffect | internal/repository/match_repo.go:135-201 | what a completion leaves in tickets, keys, expiry index and results, in fields |
| TicketEffects.RequeueEffect | internal/repository/match_repo.go:238-263 | what a requeue leaves in the pool, in numbers |
| TicketEffects.SweepEffect | internal/repository/match_repo.go:203-299 | what a sweep returns and leaves, in fields and with its limit in numbers |
| ServiceEffects.AttemptReports | internal/service/match_service.go:217-268 | whether an attempt completes, and which errors it reports and how many |
| ServiceEffects.AttemptRecords | internal/service/match_service.go:243-299 | the result, tickets, slots and assignment of a match, in fields |
| ServiceEffects.AttemptGivesBack | internal/service/match_service.go:232-268 | players and slots after an attempt without a match, in numbers |
| ServiceEffects.MatchedPairIsClose | internal/service/match_service.go:200-211 | the tickets of a matched pair are rated within 200 of the rating asked for |
| ServiceEffects.OpenedStaysAsked | internal/service/match_service.go:84-138 | a created ticket is, after its attempt, still the one asked for |
| Matcher.ScanMoves | internal/service/matcher.go:287-389 | what a scan does to its bucket, in numbers |
| Matcher.ScanLeaves | internal/service/matcher.go:287-349 | what a scan leaves in store and rooms, in fields and in the default mode |
| ServiceSteps.PutBackRestoresExactlyWhen | internal/service/match_service.go:232-241 | putting picked players back restores exact agreement exactly when no call of it fails |
| ServiceSteps.CompletedAgrees | internal/service/match_service.go:243-268 | completing for all picked players restores exact agreement |
| ServiceSteps.CompletedMirror | internal/service/match_service.go:269-299 | result and ticket upserts after a match bring the mirror level with the store |
| ServiceAgreement.PickAttemptKeepsExactlyWhen | internal/service/match_service.go:200-299 | an attempt keeps all places, the load index and the mirror in agreement exactly when it strands nobody |
| ServiceAgreement.AttemptIsAllOrNothing | internal/service/match_service.go:217-268 | an attempt without a match leaves tickets, pool membership and ratings, loads and index as before the pick, exactly when requeue and release work |
| ServiceCalls.CreateKeepsExactlyWhen | internal/service/match_service.go:84-138 | a creation keeps agreement exactly when it fails early or its attempt strands nobody |
| ServiceCalls.CancelKeeps | internal/service/match_service.go:147-165 | a cancellation always keeps agreement |
| ServiceCalls.SweepKeepsExactlyWhen | internal/service/match_service.go:167-191 | a sweep always keeps the store in agreement, and the mirror exactly when no call fails after its first ticket |
| ServiceCalls.CallKeepsAgreementExactlyWhen | internal/service/match_service.go:63-299 | for every service call: pool, keys and expiry are exactly the queued tickets, the index is exact and the mirror equal, exactly when no call fails at the named places |
| ServiceCalls.HarmlessRunsAgree | internal/service/match_service.go:63-299 | and so after every sequence of such calls |
| ServiceRefinement.AttemptIsARun | internal/service/match_service.go:200-299 | the pick-and-match of a call has the effect of a run of protocol steps, from any world |
| ServiceRefinement.CallIsARun | internal/service/match_service.go:63-299 | so has every service call |
| ServiceRuns.CallsKeepInv | internal/service/match_service.go:63-299 | after every sequence of calls, harmless or not, store and rooms are those of a world with all invariants, and nothing settled was revised |
| ServiceRuns.EverySequenceOfCalls | internal/service/match_service.go:63-299 | from an empty backend: keys and expiry exact, no server over capacity, each result with exactly its two tickets |
| ServiceRuns.HarmlessCallsFromEmpty | internal/service/match_service.go:63-299 | from an empty backend every sequence of harmless calls leaves everything in agreement |
| ServiceRuns.SweepLeavesMirrorBehind | internal/service/match_service.go:167-191 | a sweep that fails at its second ticket leaves the first timed out in Redis and queued in MySQL |
| Mirrors.MySQLRepository.UpsertMatchTicket | internal/repository/mysql_repo.go:190-209 | inserts the row, or overwrites all of it but the creation time it had |
| Mirrors.MySQLRepository.UpsertMatchResult | internal/repository/mysql_repo.go:230-248 | the same for a result row |
| MatchServices.MatchService.CompletePickedPlayers | internal/service/match_service.go:213-299 | errors: a missing server exactly when none has the room, and one for each allocation, completion, release and requeue that is made and fails; a match with its result, tickets, slots and assignment in their fields; or slots and players given back |
| MatchServices.MatchService.TryCompleteMatch | internal/service/match_service.go:200-211 | picks two of the pool members within 200 of the rating if there are two; a matched pair holds tickets rated in [centre - 200, centre + 199], at most 399 apart; and then as for picked players |
| MatchServices.MatchService.CreateTicket | internal/service/match_service.go:84-138 | the ticket has the player, rating, mode, times and waiting time asked for, and its pool score is that of the rating; the attempt is made around that rating; and which errors are returned or, a missing server, passed over |
| MatchServices.MatchService.CancelTicket | internal/service/match_service.go:147-165 | the ticket is returned as stored, cancelled now, its mirror row equal to it; and which error is reported when |
| MatchServices.MatchService.TimeoutExpiredTickets | internal/service/match_service.go:167-191 | new state, and as many timed-out records as expired and within the limit, exactly when no call failed |
| Matcher.MatchWorker.constructor | internal/service/matcher.go:110-172 | the five buckets start at 0-1000, 1001-2000, 2001-3000, 3001-4000 and 4001-5000, with threshold 3 and step 200 |
| Matcher.MatchWorker.ExpandBucketRange | internal/service/matcher.go:361-389 | widens by one step on both sides within 0..10000 and resets the counter |
| Matcher.MatchWorker.MatchInBucket | internal/service/matcher.go:287-349 | a failed scan changes nothing; one that finds a pair takes two members of the window, resets the bucket and leaves a recorded match in the default mode or everything given back; an empty one counts and, at the threshold, widens by a step within 0..10000 |
| Matcher.MatchWorker.ScanAllBuckets | internal/service/matcher.go:271-275 | every bucket is scanned once, against the store as the scans before it left it: a round of the worker's run |
| Matcher.EmptyScanAdvances | internal/service/matcher.go:301-389 | one more empty scan moves the closed form of the window by one |
| Matcher.EmptyRun | internal/service/matcher.go:301-389 | after n empty scans the bucket is in its closed form: window widened by step * (n / threshold), counter n mod threshold |
| Matcher.EveryRunOfScans | internal/service/matcher.go:287-389 | in every run from the base range, failed scans included, the bucket is in the closed form of the empty scans since the last success, and its window contains the base range and stays within 0..10000 |
| Matcher.ReachableWindow | internal/service/matcher.go:301-389 | in every reachable state the window contains the base range and stays within 0..10000 |
| Matcher.ReachableIsKept | internal/service/matcher.go:287-389 | every scan keeps this, and success restores the base range |
| Matcher.BucketFindsWithin | internal/service/matcher.go:287-389 | from every reachable state a bucket finds a pair within a bound given by its setup |
| Matcher.SomeoneIsPickedWithin76 | internal/service/matcher.go:110-172 | with two players rated 0..9999 at each scan, a pair is picked within 76 rounds from wherever the buckets are |
| Matcher.RatedTickets | internal/service/matcher.go:287-300 | queued players in the pool with tickets rated 0..9999 are among those scored so, and all of these if nothing is left over |
| Matcher.WorkerFindsWithin76 | internal/service/matcher.go:271-389 | over 76 rounds of the worker, others acting in between, with two queued players rated 0..9999 at each scan, some scan finds a pair |
| Matcher.SeventyFiveRoundsAreNotEnough | internal/service/matcher.go:110-172 | the bound is tight: there are pools for which 75 rounds find nobody |
| RoomStates.MapsAgree | internal/roomserver/server.go:179-303 | after every sequence of requests a player is mapped to a room exactly when that room exists and contains the player; ready players are players; no room is empty |
| RoomStates.RequestsMoveOnlyTheirPlayer | internal/roomserver/server.go:179-303 | on the partial map from players to rooms, a join puts its player in its room, a leave takes its player out of that room, and no request moves anyone else |
| RoomStates.ReadinessLastsTheStay | internal/roomserver/server.go:179-303 | a player is ready from a ready request until leaving or changing the room, whatever others do |
| RoomStates.RoomsAreStamped | internal/roomserver/server.go:179-303 | a room keeps the time it was made at, has the time of the last request that touched it, and does not change otherwise |
| RoomStates.AnswersInFields | internal/roomserver/server.go:164-268 | every request is answered by kind in full: who is listed, in which order, and which message names what is missing |
| RoomStates.LoadIsTotal | internal/roomserver/server.go:130-134 | the number of mapped players is the sum of the room sizes |
| RoomStates.StartIsAnnounced | internal/roomserver/server.go:208-248 | a room becomes started exactly when that is announced, and stays so while it exists |
| RoomStates.StartsAtMostOnce | internal/roomserver/server.go:208-303 | over every sequence of requests, at most one start is announced between creation and deletion of a room |
| RoomStates.StartsExactlyWhenAllReady | internal/roomserver/server.go:208-248 | a start is announced exactly when a ready request completes the ready set of an unstarted room of at least two |
| RoomStates.StartListsThePlayers | internal/roomserver/server.go:229-246 | the announcement lists exactly the players of the room, each once, in order |
| RoomServers.Server.CurrentLoad | internal/roomserver/server.go:130-134 | the reported load is the sum of the room sizes |
| RoomServers.Server.EnsureRoomLocked | internal/roomserver/server.go:270-284 | the room exists afterwards, empty if it is new |
| RoomServers.Server.RemovePlayerLocked | internal/roomserver/server.go:286-303 | the player is out of the room and of its ready set, and an empty room is gone |
| RoomServers.Server.Join | internal/roomserver/server.go:179-206 | the player is in this room and in no other, and the answer lists its players |
| RoomServers.Server.Ready | internal/roomserver/server.go:208-248 | marks the player ready and starts the room when all are, or says what is missing |
| RoomServers.Server.Leave | internal/roomserver/server.go:250-268 | removes the player |
| RoomServers.Server.HandleRequest | internal/roomserver/server.go:164-177 | every request leaves the state of the state machine and is answered by kind: lists of the room's players or ready players in order, or the message that names what is missing |

## Left out

- HTTP and gRPC handlers, protobuf code, JSON lines over TCP, metrics, dashboards, the robot, scripts and main functions: no state of their own to reason about.
- The Redis client and its retries, and the expiry of keys: setting an expiry can fail, but no key disappears by itself; the sweep is taken to come before ticket keys expire.
- The pool of the older match endpoints (`{match:pool}`), leaderboards, rank service and rank snapshots: thin calls on separate sorted sets.
- JSON and decimal encodings of stored fields, the SQL schema and its set-up.
- Floating-point rounding: scores and load ratios are exact reals, and clock readings in scores lie strictly between 0 and 10^13 ms. Overflow of 64-bit integers near their limits.
- The wall clock, random identifiers and goroutine scheduling: readings and identifiers are parameters, identifiers new and not empty, and a request to the room server, which holds a lock, is one step.
- Deletes that clean up after a failed creation are taken to work.
- Writes to MySQL that fail, and running without MySQL, without a match service in the worker, or with the allocator that only makes up room identifiers (`internal/service/room_allocator.go:17-46`).
- Repository operations are atomic in `MatchProtocol`: the read and the later transaction of cancel and complete are not split, so nothing is claimed about tickets at the level of single commands.
- The level of single commands (`ServerCommands`) has server hashes only, not the load index.
- An error in an allocation, release or cancellation stands for any of its Redis calls failing before its write; an allocation that fails part-way through its list of candidates is not told apart from one that fails at once.
- The sentinel branch of `loadRatio` for a capacity of zero or less: no stored server has one, which the model proves.
- Reads that only look up a record or a count, the timers of the worker's loop, and log output.
- Enforcing room capacity on join: the code does not connect a room's players with the slots reserved for it.
