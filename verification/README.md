# Tower of Hanoi match server — a Dafny model

This project models the core of a two-player Tower of Hanoi tournament
server and its browser client. An administrator creates matches between
two named players and starts them. Each player solves the puzzle in their
own browser and reports moves, elapsed time and completion over a socket.
The first player whose completed game the server accepts wins the match.
The winner is recorded on the stored match and appended to the leaderboard,
and the leaderboard can be exported as CSV.

The model has one module per area of the program:

- `GameLogic`: the board of three towers, legal moves, the start position and completion.
- `Scoring`: the server's and the client's score and accuracy formulas.
- `Durable`: the stored match table, with `findById` and `save`.
- `RuntimeStore`: the in-memory registry of live sessions and the room snapshot.
- `MatchJoin`: slot claiming and the join-block reasons.
- `ServerState`: the whole server state, its well-formedness invariant `Wf`, and the messages sent.
- `MatchSocket`: the socket handlers for admin auth, join, start, progress and disconnect.
- `MatchController`: the HTTP join.
- `AdminController`: create, list, start-all, leaderboard, CSV and reset.
- `AdminAuth`: the HTTP Basic guard on the admin routes.
- `Csv`: the CSV writer, plus a reader that states its round trip.
- `GameStore`: the client's game-state reducers.

Each socket handler is one atomic transition. It takes the server state,
the socket's own data, the event payload and the current instant, and
returns the new server state, the new socket data and the list of messages
sent (`Outcome`). The clock and the environment variables are parameters.
Scores are exact rationals (`real`). `Number(x.toFixed(2))` is modelled as
rounding to hundredths, with halves rounded away from zero. JavaScript
falsiness is modelled explicitly: an empty string counts as "no player"
and "no winner".

The socket dispatcher `MatchSocket.Handle` models the handlers as written.
`MatchSocket.HandleCorrected` is the same dispatcher with the two
corrections described under "## Findings". The whole-server lemmas are
proved for both dispatchers.

## Model

| member | source | states |
|---|---|---|
| GameLogic.CreateInitialTowers | frontend/src/utils/gameLogic.js:1-5 | the start position has every disk on the first tower, largest at the bottom, and is a legal board holding exactly the disks 1..n |
| GameLogic.MinimumMoves | frontend/src/utils/gameLogic.js:7 | the optimum number of moves is 2^n - 1 and is never negative |
| GameLogic.IsValidMove | frontend/src/utils/gameLogic.js:9-24 | moving to the same tower, from a missing tower or from an empty tower is refused; a move onto an empty tower is always accepted; an accepted move names two distinct towers and a non-empty source |
| GameLogic.MoveDisk | frontend/src/utils/gameLogic.js:26-31 | a move carries the top disk of the source to the top of the target, leaves the third tower alone, and keeps the multiset of disks |
| GameLogic.ValidMoveOnLegalBoard | frontend/src/utils/gameLogic.js:9-24 | on a legal board, a move is accepted exactly when the towers differ, the source is non-empty and the target is empty or has a larger top disk |
| GameLogic.MovePreservesLegal | frontend/src/utils/gameLogic.js:9-31 | an accepted move keeps every tower strictly decreasing and the disk multiset unchanged |
| GameLogic.PlayPreservesLegal | frontend/src/utils/gameLogic.js:9-31 | any sequence of attempted moves, where refused moves change nothing, keeps a legal board legal |
| GameLogic.ReachableTowersDecrease | frontend/src/utils/gameLogic.js:1-31 | from the start position, no sequence of moves ever puts a larger disk on a smaller one |
| GameLogic.IsCompleted | frontend/src/utils/gameLogic.js:33 | on a legal board, a game counts as completed exactly when the whole stack is on the third tower in order, and then the other towers are empty |
| GameLogic.FullLastTower | frontend/src/utils/gameLogic.js:33 | on a legal board, a third tower of n disks is exactly the full stack, and it leaves the other towers empty |
| GameLogic.FilledStackIsFull | frontend/src/utils/gameLogic.js:33 | a strictly decreasing tower of n disks drawn from 1..n is exactly the full stack |
| GameLogic.MinimumMovesRecurrence | frontend/src/utils/gameLogic.js:7 | the optimum satisfies the classic recurrence M(n+1) = 2 M(n) + 1 |
| GameLogic.MinimumMovesRange | backend/models/Match.js:7 | for an allowed disk count of 3 to 8, the optimum lies between 7 and 255 moves |
| Scoring.MinimumMoves | backend/utils/gameUtils.js:1 | the server's optimum agrees with the client's |
| Scoring.GetAccuracy | backend/utils/gameUtils.js:3-9 | zero moves gives accuracy 100; accuracy never exceeds 100; it is 100 for any positive count up to the optimum and never negative for a positive count |
| Scoring.CalculateScore | backend/utils/score.js:3-10 | zero moves scores 0, and a score is never negative |
| Scoring.ClientScore | frontend/src/utils/score.js:1-7 | the client's score is 0 for zero moves and never negative |
| Scoring.ClientAccuracy | frontend/src/utils/score.js:9-14 | the client's accuracy is 100 for zero moves and never exceeds 100 |
| Scoring.ClientScoreAgreesWithServer | frontend/src/utils/score.js:1-7 | the score the client shows is the score the server stores, for every disk count, move count and time, including the ordering of the clamp and the rounding |
| Scoring.ClientAccuracyAgreesWithServer | frontend/src/utils/score.js:9-14 | the accuracy the client shows is the accuracy the server stores |
| Scoring.AccuracyNonIncreasingInMoves | backend/utils/gameUtils.js:8 | more moves never raise accuracy |
| Scoring.ScoreNonIncreasingInTime | backend/utils/score.js:8-9 | a slower game never scores higher |
| Scoring.ScoreNonIncreasingInMoves | backend/utils/score.js:8-9 | a game with more moves never scores higher |
| Scoring.ScoreAtOptimum | backend/utils/score.js:8-9 | an optimal solution scores 1000 minus the seconds taken, for times up to 1000 |
| Scoring.ScoreExamples | backend/utils/score.js:3-10 | worked values for four disks: 15 moves in 10 s score 990 at accuracy 100; 30 moves in 50 s score 450 at accuracy 50 |
| Scoring.Round2Monotone | backend/utils/score.js:9 | rounding to hundredths never reverses the order of two values |
| Scoring.Round2Close | backend/utils/score.js:9 | rounding to hundredths moves a value by at most half a hundredth |
| Scoring.ClampRoundCommute | frontend/src/utils/score.js:6 | for any order-preserving rounding that fixes zero, clamping at zero and then rounding equals rounding and then clamping |
| Scoring.Round2 | backend/utils/score.js:9 | rounding to hundredths moves a value by at most half a hundredth and never makes a non-negative value negative |
| Durable.Find | backend/controllers/matchController.js:7-8 | for a well-formed id, a lookup returns the stored record with that id, and returns nothing exactly when no record has that id |
| Durable.Save | backend/controllers/matchController.js:20 | saving replaces the record with the same id and leaves every other record in place |
| Durable.FindAfterSave | backend/sockets/matchSocket.js:50-57 | after a save, looking up the saved id yields the new record and any other id yields what it did before |
| Durable.SaveKeepsIds | backend/sockets/matchSocket.js:50-57 | saving an existing record neither adds nor removes ids and keeps ids unique |
| Durable.FindAfterAppend | backend/controllers/adminController.js:11-19 | creating a record with a fresh id makes it findable, keeps every other lookup and keeps ids unique |
| RuntimeStore.EnsureRuntimeMatch | backend/sockets/runtimeStore.js:3-25 | get-or-create: an existing session comes back untouched and the arguments are ignored; otherwise a fresh session with no start, no winner, no connections and zeroed stats is added; other sessions are unchanged |
| RuntimeStore.EnsureRuntimeMatchIdempotent | backend/sockets/runtimeStore.js:3-25 | ensuring a session twice is the same as ensuring it once, whatever the second call passes |
| RuntimeStore.BuildRoomSnapshot | backend/sockets/matchSocket.js:14-26 | the room snapshot carries the session's match id, disk count, players, winner and both players' stats; presence is not part of it |
| RuntimeStore.SnapshotIgnoresPresence | backend/sockets/matchSocket.js:14-26 | two sessions have the same room snapshot exactly when they differ at most in their connections |
| RuntimeStore.LiveMatches | backend/sockets/matchSocket.js:28-31 | the live-matches broadcast has one snapshot for every live session and nothing else |
| MatchJoin.ClaimSlot | backend/controllers/matchController.js:12-27 | a name already seated keeps its slot; a new name takes the first vacant slot, player 1 before player 2; the claim fails exactly when both slots hold other names; the other slot is untouched |
| MatchJoin.ClaimSlotIdempotent | backend/controllers/matchController.js:12-27 | claiming again under the same name gives the same slot and record |
| MatchJoin.NoMatchProgress | backend/utils/matchJoin.js:1-7 | a match counts as untouched only if it has no winner and no end time; without a live session it is untouched exactly when no moves are stored |
| MatchJoin.GetJoinBlockReason | backend/utils/matchJoin.js:9-30 | "completed" exactly when a winner or end time is stored; "started" exactly when it is not completed but moves exist; "both active" only when both slots are connected; "full" otherwise |
| MatchJoin.ResolveJoinSide | backend/utils/matchJoin.js:32-67 | a seated name keeps its slot; a granted side names the player afterwards; the other slot and all non-player fields are untouched; a refusal changes nothing |
| MatchJoin.ResolveExtendsClaim | backend/utils/matchJoin.js:32-67 | side resolution agrees with plain slot claiming whenever claiming succeeds, and otherwise grants a side only to an untouched match |
| MatchJoin.TakeoverOnlyDisplacesIdle | backend/utils/matchJoin.js:48-64 | a name can displace another player only in an untouched, full match, and only from a disconnected slot; player 2 is displaced only while player 1 is connected |
| MatchJoin.ResolveRefusal | backend/utils/matchJoin.js:32-67 | a join is refused exactly when both slots hold other names and the match has progress or both slots are connected |
| MatchJoin.BlockReasonMatchesResolution | backend/utils/matchJoin.js:1-30 | when no move count is negative, the block reason is neither "completed" nor "started" exactly when the match is untouched, and an untouched refused match reports "both active" |
| MatchJoin.ResolveIdempotent | backend/utils/matchJoin.js:32-67 | resolving again under the same name yields the same side and record, whatever the live session looks like |
| ServerState.SaveKeepsWf | backend/sockets/matchSocket.js:50-57 | saving a record with an existing id keeps the server well formed |
| ServerState.PutSessionKeepsWf | backend/sockets/matchSocket.js:108-128 | replacing a live session by a consistent one that is backed by a stored match keeps the server well formed |
| ServerState.EnsureKeepsWf | backend/sockets/matchSocket.js:39-44 | ensuring the session of a stored match keeps the server well formed and yields a session for that match with its disk count |
| ServerState.CountWinnersAppend | backend/sockets/matchSocket.js:159-188 | winner announcements in two message lists add up |
| MatchSocket.ForceStartMatch | backend/sockets/matchSocket.js:33-59 | a well-formed id naming no match changes nothing; a start never touches users or leaderboard, always yields a started session and never announces a winner |
| MatchSocket.ForceStartStarts | backend/sockets/matchSocket.js:46-57 | starting a stored match leaves its session started and stored in the registry, and no other session changes |
| MatchSocket.ForceStartIdempotent | backend/sockets/matchSocket.js:46-48 | starting an already started match changes nothing and sends nothing |
| MatchSocket.ForceStartSchedules | backend/sockets/matchSocket.js:50-57 | a first start schedules the game three seconds ahead, stores that instant as the match's start time, and tells the room and the administrators |
| MatchSocket.ForceStartPreservesWf | backend/sockets/matchSocket.js:33-59 | starting keeps the server well formed |
| MatchSocket.ConfiguredCredentials | backend/sockets/matchSocket.js:9-12 | the socket's admin credentials come from the same variables and fallbacks as the HTTP guard, so neither is ever empty |
| MatchSocket.SocketAndHttpAcceptSameAdmin | backend/sockets/matchSocket.js:9-73 | a user-id without a colon and a password pass the socket's admin check exactly when a Basic header carrying them passes the HTTP guard |
| MatchSocket.HandleAdminAuth | backend/sockets/matchSocket.js:62-73 | a socket becomes admin exactly when the credentials match or it already was admin; a failure answers only the caller with an error; a success answers the caller and sends the live matches; nothing else changes |
| MatchSocket.HandleJoin | backend/sockets/matchSocket.js:75-132 | a well-formed id naming no match is answered with "Match not found." and nothing changes; a join never changes the admin flag, the users or the leaderboard, and never announces a winner |
| MatchSocket.JoinRefused | backend/sockets/matchSocket.js:90-106 | a join to a match whose slots both hold other names leaves the socket unbound and the matches unchanged, and answers "Match already has two players." |
| MatchSocket.JoinBinds | backend/sockets/matchSocket.js:90-128 | an accepted join binds the socket to the claimed side, stores the claimed record, marks this socket connected on that side, keeps the opponent's connection and the session's progress, then sends the snapshot to the caller, presence to the room and the live matches |
| MatchSocket.JoinFrame | backend/sockets/matchSocket.js:75-132 | a join adds at most the joined match's session and changes no other session |
| MatchSocket.JoinPreservesWf | backend/sockets/matchSocket.js:75-132 | joining keeps the server well formed |
| MatchSocket.JoinIdempotent | backend/sockets/matchSocket.js:75-132 | joining again under the same name binds to the same side and leaves the stored match as the first join left it |
| MatchSocket.RecordWin | backend/sockets/matchSocket.js:159-188 | a recorded win stores the winner, the end time and both players' moves and scores on the match, and appends one leaderboard row with the winner's own score, time and moves |
| MatchSocket.ReportedStats | backend/sockets/matchSocket.js:150-157 | stored stats echo the reported moves, time and completion; the score is never negative, accuracy never exceeds 100, and zero moves gives score 0 and accuracy 100 |
| MatchSocket.HandleProgress | backend/sockets/matchSocket.js:138-195 | a report from an unbound socket, about a match without a live session or about an ended match changes nothing and sends nothing; a report never changes the users or the set of live sessions; the match id comes from the report and is not compared with the socket's binding |
| MatchSocket.ProgressUpdatesReporterOnly | backend/sockets/matchSocket.js:150-157 | an accepted report replaces only the reporter's stats; the opponent's stats, other sessions and other fields stay; the stats go to the room first and the live matches last |
| MatchSocket.ProgressDecides | backend/sockets/matchSocket.js:159-188 | the first completion ends the session with the reporter as winner, announces the winner after the stats, and records exactly one leaderboard row for the reporter and that match |
| MatchSocket.ProgressDoesNotDecide | backend/sockets/matchSocket.js:159-188 | a report that does not win leaves the end, the winner, the stored matches and the leaderboard alone, and sends only stats and live matches |
| MatchSocket.ProgressPreservesWf | backend/sockets/matchSocket.js:138-195 | progress keeps the server well formed |
| MatchSocket.SecondCompletionIgnored | backend/sockets/matchSocket.js:141-148 | once a completion has decided a match, a later completion by anyone changes nothing; exactly one winner is announced and one row added |
| MatchSocket.OutsiderDecidesMatch | backend/sockets/matchSocket.js:138-188 | as written: a socket bound to one match can complete a different live, undecided match; it is declared the winner there, a leaderboard row is added under its name, and that row can carry the score of a slot the reporter does not hold |
| MatchSocket.HandleProgressBound | backend/sockets/matchSocket.js:138-195 | corrected progress: a report naming a match other than the socket's bound one changes nothing and sends nothing; the socket, the users and the set of live sessions never change |
| MatchSocket.BoundProgressTouchesOwnMatchOnly | backend/sockets/matchSocket.js:138-195 | corrected progress: only the bound match's session can change, the leaderboard grows by at most one row, and a new row names the reporter and the bound match |
| MatchSocket.BoundProgressPreservesWf | backend/sockets/matchSocket.js:138-195 | corrected progress keeps the server well formed |
| MatchSocket.HandleDisconnect | backend/sockets/matchSocket.js:197-212 | a disconnect changes only the live sessions and never their set; an unbound socket or a missing session changes nothing; no winner is announced |
| MatchSocket.DisconnectClearsOnlyPresence | backend/sockets/matchSocket.js:197-212 | a disconnect clears the socket's slot and nothing else: the other slot, the snapshot and the other sessions stay, and presence and live matches are sent |
| MatchSocket.DisconnectPreservesWf | backend/sockets/matchSocket.js:197-212 | disconnecting keeps the server well formed |
| MatchSocket.StaleDisconnectDropsLiveSlot | backend/sockets/matchSocket.js:197-212 | as written: after a name joins from socket a and then from socket b, the disconnect of a clears the slot that b holds |
| MatchSocket.HandleDisconnectOwned | backend/sockets/matchSocket.js:197-212 | corrected disconnect: changes only the live sessions, keeps their set and the socket, and announces no winner |
| MatchSocket.DisconnectReleasesOnlyOwnSlot | backend/sockets/matchSocket.js:197-212 | corrected disconnect: a slot held by another socket is never cleared, and the slot this socket holds is cleared |
| MatchSocket.OwnedDisconnectKeepsLiveSlot | backend/sockets/matchSocket.js:197-212 | corrected disconnect: in the two-socket scenario, the slot stays with socket b |
| MatchSocket.OwnedDisconnectPreservesWf | backend/sockets/matchSocket.js:197-212 | the corrected disconnect keeps the server well formed |
| MatchSocket.Handle | backend/sockets/matchSocket.js:61-212 | the socket dispatcher as written: no event changes the users, and only admin auth and join change the socket's data |
| MatchSocket.HandleCorrected | backend/sockets/matchSocket.js:61-212 | the corrected dispatcher agrees with the written one on every event but progress and disconnect, never changes the users, and changes the socket's data only on admin auth and join |
| MatchSocket.HandlePreservesWf | backend/sockets/matchSocket.js:61-212 | every socket event, handled as written, keeps the server well formed |
| MatchSocket.CorrectedPreservesWf | backend/sockets/matchSocket.js:61-212 | every socket event, handled by the corrected dispatcher, keeps the server well formed |
| MatchSocket.JoinKeepsMilestones | backend/sockets/matchSocket.js:75-132 | a join never removes a live session or takes back its start, start instant, end or winner |
| MatchSocket.StartKeepsMilestones | backend/sockets/matchSocket.js:33-59 | a start never removes a live session or takes back its start, start instant, end or winner |
| MatchSocket.ProgressKeepsMilestones | backend/sockets/matchSocket.js:138-195 | a report never removes a live session or takes back its start, start instant, end or winner |
| MatchSocket.DisconnectKeepsMilestones | backend/sockets/matchSocket.js:197-212 | a disconnect, as written, never removes a live session or takes back its start, start instant, end or winner |
| MatchSocket.OwnedDisconnectKeepsMilestones | backend/sockets/matchSocket.js:197-212 | the corrected disconnect never removes a live session or takes back its start, start instant, end or winner |
| MatchSocket.BoundProgressKeepsMilestones | backend/sockets/matchSocket.js:138-195 | corrected progress never removes a live session or takes back its start, start instant, end or winner |
| MatchSocket.HandleKeepsMilestones | backend/sockets/matchSocket.js:61-212 | no socket event, handled as written, removes a live session or takes back its start, start instant, end or winner |
| MatchSocket.CorrectedKeepsMilestones | backend/sockets/matchSocket.js:61-212 | no socket event, handled by the corrected dispatcher, removes a live session or takes back its start, start instant, end or winner |
| MatchSocket.ProgressLeaderboardFollowsWinners | backend/sockets/matchSocket.js:159-188 | a report grows the leaderboard only at its end, by exactly as many rows as winners announced, and a new row names the reporter and the reported match |
| MatchSocket.DecidingProgressFollowsWinners | backend/sockets/matchSocket.js:159-188 | a deciding report adds exactly one row, for the reporter, in step with its one winner announcement |
| MatchSocket.QuietProgressFollowsWinners | backend/sockets/matchSocket.js:150-157 | a non-deciding report neither adds a row nor announces a winner |
| MatchSocket.JoinFollowsWinners | backend/sockets/matchSocket.js:75-132 | a join neither adds a leaderboard row nor announces a winner |
| MatchSocket.StartFollowsWinners | backend/sockets/matchSocket.js:33-59 | a start neither adds a leaderboard row nor announces a winner |
| MatchSocket.DisconnectFollowsWinners | backend/sockets/matchSocket.js:197-212 | a disconnect, as written, neither adds a leaderboard row nor announces a winner |
| MatchSocket.OwnedDisconnectFollowsWinners | backend/sockets/matchSocket.js:197-212 | the corrected disconnect neither adds a leaderboard row nor announces a winner |
| MatchSocket.BoundProgressFollowsWinners | backend/sockets/matchSocket.js:159-188 | under corrected progress, leaderboard rows and winner announcements still go together |
| MatchSocket.HandleLeaderboardMatchesWinners | backend/sockets/matchSocket.js:61-212 | for every socket event handled as written, leaderboard rows and winner announcements go together, and only progress reports announce winners |
| MatchSocket.CorrectedLeaderboardMatchesWinners | backend/sockets/matchSocket.js:61-212 | the same for the corrected dispatcher |
| MatchSocket.NoWinnerMessages | backend/sockets/matchSocket.js:61-212 | a message list with no winner message counts zero winners |
| MatchController.JoinMatch | backend/controllers/matchController.js:4-38 | a well-formed id naming no match is a 404 and a full match a 400 "Match full.", both without change; a join upserts one user row, seats the name in a slot, keeps the disk count and echoes the stored slots |
| MatchController.GetMatchById | backend/controllers/matchController.js:40-50 | for a well-formed id, the stored record with that id, or a 404 exactly when there is none |
| MatchController.JoinMatchFollowsClaim | backend/controllers/matchController.js:12-34 | the HTTP join refuses exactly when slot claiming fails, stores the claimed record, and does not rewrite a match whose slot the name already holds |
| MatchController.ControllerAgreesWithSocket | backend/controllers/matchController.js:12-34 | the HTTP join and the socket join refuse the same joins and store the same record |
| MatchController.JoinMatchIdempotent | backend/controllers/matchController.js:4-38 | joining twice over HTTP under the same name has the effect of joining once |
| MatchController.JoinMatchPreservesWf | backend/controllers/matchController.js:4-38 | the HTTP join keeps the server well formed |
| AdminController.CreateMatch | backend/controllers/adminController.js:11-19 | a missing disk count defaults to 4, while an explicit null is refused as the database's required check does; a count outside 3..8 is refused without change; a created match has the given players, no start, end or winner, and zero moves and scores, and is appended |
| AdminController.CreateMatchStores | backend/controllers/adminController.js:11-19 | creating keeps the server well formed, makes the new match findable and leaves every other lookup alone |
| AdminController.CreatedMatchJoinable | backend/controllers/adminController.js:11-19 | a match created with defaults can be joined, and the first name takes player 1 on four disks |
| AdminController.MergeRow | backend/controllers/adminController.js:24-31 | a listed row carries the stored match, with start, end and stats from its live session when there is one and from the stored times otherwise |
| AdminController.GetLiveMatches | backend/controllers/adminController.js:21-37 | the listing is the newest matches first, at most the limit, each merged with its live session |
| AdminController.LiveMatchesWindow | backend/controllers/adminController.js:21-37 | listed rows are stored matches with distinct ids, and with few enough matches the listing is exactly the table reversed |
| AdminController.LiveRowConsistent | backend/controllers/adminController.js:24-31 | a listed row with a live session is ended exactly when that session has a winner, and started exactly when it has a start instant |
| AdminController.PendingIds | backend/controllers/adminController.js:42 | the matches to start are exactly the stored matches without an end time, each listed once |
| AdminController.StartAllMatches | backend/controllers/adminController.js:39-48 | start-all reports the number of unfinished matches, including ones already started and left alone, and leaves users and leaderboard alone |
| AdminController.ForceStartKeepsIds | backend/sockets/matchSocket.js:33-59 | starting a match never adds or removes stored ids |
| AdminController.StartEach | backend/controllers/adminController.js:43 | starting a list of matches one after another never changes the users or the leaderboard |
| AdminController.StartEachStarts | backend/controllers/adminController.js:43 | starting a list of stored matches keeps the server well formed, starts each listed session and leaves every other session alone |
| AdminController.StartAllStartsPending | backend/controllers/adminController.js:39-48 | after start-all every unfinished match has a started session, the count is the number of unfinished matches, and finished matches' sessions are unchanged |
| AdminController.Insert | backend/controllers/adminController.js:52 | inserting an entry into an ordered leaderboard keeps it ordered and adds exactly that entry |
| AdminController.SortBoard | backend/controllers/adminController.js:52 | the sorted leaderboard is a permutation of the entries, ordered by score descending and, for equal scores, by time ascending |
| AdminController.GetLeaderboard | backend/controllers/adminController.js:50-57 | the leaderboard shows the first entries in that order, as many as the limit allows, all taken from the stored entries |
| AdminController.LeaderboardKeepsBest | backend/controllers/adminController.js:52 | every shown entry ranks at least as well as every entry left out |
| AdminController.GetLeaderboardCsv | backend/controllers/adminController.js:59-69 | the export reads back as the header followed by one record per leaderboard entry |
| AdminController.LeaderboardCsvReadsBack | backend/controllers/adminController.js:59-69 | reading the export back gives the header and then, in leaderboard order, each entry's name, score, time, moves and match id; every entry appears, with no limit |
| AdminController.ResetTournament | backend/controllers/adminController.js:71-80 | reset empties the matches, the leaderboard and the live sessions and keeps the user rows |
| AdminController.ResetEmptiesEverything | backend/controllers/adminController.js:71-80 | after reset the server is well formed, nothing is listed or ranked, and any join, HTTP or socket, finds no match |
| AdminAuth.Configured | backend/middleware/adminAuth.js:7-8 | an unset or empty variable falls back to the default |
| AdminAuth.IndexOf | backend/middleware/adminAuth.js:18 | the first position of the separator, or -1 exactly when it is absent |
| AdminAuth.SplitCredentials | backend/middleware/adminAuth.js:16-23 | a decoded value without a colon has no credentials; otherwise it is the user-id without a colon, a colon and the password |
| AdminAuth.RequireAdminAuth | backend/middleware/adminAuth.js:6-32 | a missing header or a non-Basic header is refused; a request let through carried a token decoding to the configured user-id and password, and the admin user is that user-id |
| AdminAuth.SplitJoinRoundTrip | backend/middleware/adminAuth.js:16-23 | splitting undoes joining with a colon exactly when the user-id has no colon |
| AdminAuth.AcceptsExactlyConfigured | backend/middleware/adminAuth.js:6-32 | a Basic request is let through exactly when its token decodes to the configured user-id, a colon and the configured password, and the user-id has no colon |
| AdminAuth.DefaultCredentials | backend/middleware/adminAuth.js:7-8 | with no environment set, exactly `admin:admin123` is accepted |
| Csv.Double | backend/utils/csv.js:10 | doubling quotes never shortens a field |
| Csv.Quote | backend/utils/csv.js:10 | a written field starts and ends with a quote |
| Csv.Records | backend/utils/csv.js:2-9 | the document is the header record followed by one record per row, in order |
| Csv.ToCsv | backend/utils/csv.js:1-11 | the written document reads back as the header and the rows' cells, and starts with the header record |
| Csv.ReadQuotedDouble | backend/utils/csv.js:10 | un-doubling reads back a doubled field body and stops at its closing quote |
| Csv.ReadFieldsEncodeRecord | backend/utils/csv.js:10 | a written record reads back as its fields |
| Csv.ReadRecordsEncodeRecords | backend/utils/csv.js:1-11 | written records, separated by line feeds, read back as the same records |
| Csv.ToCsvRoundTrip | backend/utils/csv.js:1-11 | reading the export back recovers the header and every row's five cells exactly, a null as empty |
| Csv.ToCsvStartsWithHeader | backend/utils/csv.js:2 | every export starts with the header record |
| GameStore.SetSession | frontend/src/store/useGameStore.js:37-53 | a new session resets the board to the start position for its disk count, with zero moves and time, no start, pause or winner, and keeps sound, theme and opponent |
| GameStore.SetStarted | frontend/src/store/useGameStore.js:55 | starting sets started and clears pause, changing nothing else |
| GameStore.Tick | frontend/src/store/useGameStore.js:57-63 | the clock advances by one second exactly while the game runs, and changes nothing else |
| GameStore.TogglePause | frontend/src/store/useGameStore.js:65 | pause flips and nothing else changes |
| GameStore.ToggleSound | frontend/src/store/useGameStore.js:67 | sound flips and nothing else changes |
| GameStore.ToggleTwiceIsIdentity | frontend/src/store/useGameStore.js:65-67 | toggling pause or sound twice restores the state |
| GameStore.ApplyMove | frontend/src/store/useGameStore.js:76-108 | a move is accepted exactly when the game runs and the move is valid; an accepted move updates the board, counts one move, recomputes completion, score and accuracy, reports them, and changes nothing else; a refused move changes nothing |
| GameStore.ApplyMovePreservesInv | frontend/src/store/useGameStore.js:76-108 | moves keep the board legal and the recorded move count and optimum consistent |
| GameStore.MoveAcceptedExactly | frontend/src/store/useGameStore.js:76-108 | in a running game a move is accepted exactly when the towers differ, the source is non-empty and the target is empty or has a larger top |
| GameStore.CompletedGameIsFrozen | frontend/src/store/useGameStore.js:57-108 | a completed game has the full stack on the third tower, its clock stops and it refuses every move |
| GameStore.SetOpponentFromStats | frontend/src/store/useGameStore.js:110-125 | with a side, the opponent becomes the other side's stats, or zeros when missing, marked connected; without a side nothing changes |
| GameStore.OpponentIgnoresOwnStats | frontend/src/store/useGameStore.js:110-125 | the player's own stats have no effect on the opponent panel |
| GameStore.SetPresence | frontend/src/store/useGameStore.js:127-139 | the opponent's connected flag follows the other side's presence; nothing else changes, and nothing at all without a side |
| GameStore.PresenceIgnoresOwnSlot | frontend/src/store/useGameStore.js:127-139 | the player's own presence flag has no effect |
| GameStore.SetWinner | frontend/src/store/useGameStore.js:141 | only the winner changes |
| GameStore.RestartBoard | frontend/src/store/useGameStore.js:143-153 | a restart resets board, moves, time, score, accuracy, completion, pause and winner, and keeps the session, the start flag and the opponent |
| GameStore.RestartBoardIdempotent | frontend/src/store/useGameStore.js:143-153 | restarting twice is restarting once, and restarting a fresh session changes nothing |
| GameStore.RestartReopens | frontend/src/store/useGameStore.js:143-153 | a restart keeps the state consistent and, once started, the game runs again |
| GameStore.InitialInv | frontend/src/store/useGameStore.js:11-35 | the initial state is consistent: a legal four-disk board with the matching optimum, completion flag and accuracy |
| GameStore.ReducersPreserveInv | frontend/src/store/useGameStore.js:55-153 | every reducer keeps the client state consistent |

## Left out

- Floating point: scores and accuracy are exact rationals, and `toFixed(2)` is exact rounding to hundredths, with halves away from zero. The rounding error of binary doubles is not modelled.
- MongoDB: the match, leaderboard and user collections are in-memory sequences. Schema validation, `trim` and `required` on names, and the try/catch blocks that turn database failures into status 500 are not modelled. An empty or blank player name is accepted where the database would reject it.
- Concurrency: handlers are atomic. Interleaving at `await` points, and the concurrency of `Promise.all` in start-all (modelled as a sequential fold in table order), are not modelled.
- The clock and the environment: `Date.now()` is a parameter `now`. The admin credentials are parameters with their default values.
- Base64 decoding is a parameter `decode` of `AdminAuth.RequireAdminAuth`. Number-to-text formatting in the CSV export is a pair of parameters `showReal` and `showInt`.
- Socket.IO transport: rooms, the network and delivery are not modelled. A message is recorded with its audience (caller, room or administrators).
- The live-matches broadcast is a map from match id to snapshot rather than an array in `Map` iteration order.
- The React components, routing, sound, the socket hook and `toggleTheme` (a DOM and local-storage side effect) are not modelled.
- `adminLogin` only echoes the authenticated user and is not modelled. The server bootstrap and database connection are not modelled either.
- `backend/utils/matchJoin.js` is modelled in `MatchJoin` on its own terms; no handler in the server calls it.
- AdminController.CreateMatch: requires a fresh id, because the database generates ids. It models integer, missing and null disk counts, not values the database would coerce, such as strings or decimals. A null count ends in the database's validation error, which the model reports as a refused creation with no change.
- Durable.Find: match ids are taken to be well-formed database ids. For any other string, such as a mistyped `abc`, the database lookup throws a cast error instead of finding nothing. The model answers "no such match" for every id not in the table.
- MatchController.JoinMatch: for a malformed id the source answers 500 "Failed to join match." from its catch block, while the model answers 404, as for a well-formed unknown id.
- MatchController.GetMatchById: for a malformed id the source answers 500 "Failed to get match.", while the model answers 404.
- MatchSocket.HandleJoin: for a malformed id the source answers the caller "Unable to join match." from its catch block, while the model answers "Match not found.".
- MatchSocket.ForceStartMatch: for a malformed id the lookup's failure propagates. The `match:start` listener has no catch, so the rejection goes unhandled, and on recent Node versions an unhandled rejection ends the process. The model treats that id like an unknown one and changes nothing.
- AdminController.GetLiveMatches: newest-first is taken to be the reverse of table order. The database's sort on creation time leaves matches created at the same instant in unspecified order.
- AdminController.SortBoard: ties in score and time are kept in insertion order. The source's database sort leaves tie order unspecified, and the contract only promises ordered output that is a permutation.
- GameLogic.IsValidMove: requires the target index to name a tower when the source tower is non-empty, because the source throws a TypeError there.
- MatchSocket.HandleProgress: the payload's `moves` and `elapsedSeconds` are integers; the coercion of other JSON values by `Number()` is not modelled.

## Findings

| source | as written | input that shows it | evidently intended | confidence | as-written member | corrected member |
|---|---|---|---|---|---|---|
| backend/sockets/matchSocket.js:197-212 | the disconnect handler clears the connection of the socket's bound side without checking which socket holds it | a name joins a match from socket a, then again from socket b (a second tab, or a reconnect before the old socket's disconnect arrives); socket a then disconnects | clear the side only when this socket is the one connected there, so the live connection of b stays | not executed | MatchSocket.StaleDisconnectDropsLiveSlot | MatchSocket.HandleDisconnectOwned |
| backend/sockets/matchSocket.js:138-188 | the progress handler looks up the match id named in the report and never compares it with the match the socket joined | a socket bound to match A as player 1 reports a completed game for a live, undecided match B whose player 1 is another name | accept a report only for the match the socket is bound to | not executed | MatchSocket.OutsiderDecidesMatch | MatchSocket.HandleProgressBound |

`MatchSocket.HandleDisconnect` is the handler as written. The lemma
`MatchSocket.StaleDisconnectDropsLiveSlot` shows that it marks the slot
disconnected while socket b is still bound there. The room is then told
that the player left, although the player is still connected.
`MatchSocket.HandleDisconnectOwned` adds the ownership check.
`MatchSocket.DisconnectReleasesOnlyOwnSlot` proves that it never clears a
slot held by another socket and still clears the socket's own slot.
`MatchSocket.OwnedDisconnectKeepsLiveSlot` replays the same scenario with
the corrected handler.

`MatchSocket.HandleProgress` is the progress handler as written. The lemma
`MatchSocket.OutsiderDecidesMatch` shows that a socket bound to one match
can decide another. The reporter is declared the winner of B, and a
leaderboard row is added under its name. The winner's side in B is found
by comparing names with B's player 1. When the reporter wrote its stats
into player 1's slot under another player's name, the row therefore
carries player 2's score, which the reporter never reported. `MatchSocket.HandleProgressBound` ignores
a report that names any match other than the bound one.
`MatchSocket.BoundProgressTouchesOwnMatchOnly` proves that only the bound
match's session can then change.

`MatchSocket.HandleCorrected` dispatches progress to
`MatchSocket.HandleProgressBound` and disconnect to
`MatchSocket.HandleDisconnectOwned`. Well-formedness, kept milestones and
the link between leaderboard rows and winner announcements are proved for
it as well as for the dispatcher as written.
