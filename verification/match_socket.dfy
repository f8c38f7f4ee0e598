/**
 * The real-time session protocol (backend/sockets/matchSocket.js).  Each
 * socket handler is one atomic transition from the server state, the
 * calling socket's data, the event payload and the current time to the new
 * server state, the new socket data and the log of messages emitted.
 */
module MatchSocket {
  import opened Common
  import opened Durable
  import opened RuntimeStore
  import opened ServerState
  import MatchJoin
  import Scoring
  import AdminAuth

  /** The countdown between a start command and the scheduled start instant, in milliseconds. */
  const CountdownMillis: int := 3000

  /** What a socket remembers after a successful join (`socket.data`). */
  datatype Binding = Binding(matchId: string, side: Side, playerName: string)

  datatype SocketData = SocketData(binding: Option<Binding>, isAdmin: bool)

  /** A socket that has just connected. */
  const FreshSocket: SocketData := SocketData(None, false)

  /** The administrator credentials the server is configured with. */
  datatype Credentials = Credentials(username: string, password: string)

  /** The result of one handler: new server state, new socket data, messages emitted in order. */
  datatype Outcome = Outcome(server: Server, socket: SocketData, emits: seq<Emit>)

  /** The presence message for a session: which slots currently have a connection. */
  function PresenceOf(rt: Session): Message {
    MatchPresence(rt.connected1.Some?, rt.connected2.Some?)
  }

  // ---------------------------------------------------------------------
  // forceStartMatch
  // ---------------------------------------------------------------------

  datatype StartResult = StartResult(server: Server, runtime: Option<Session>, emits: seq<Emit>)

  /**
   * `forceStartMatch`: an unknown match does nothing; a started session is
   * returned as it is; otherwise the session is marked started with a start
   * instant three seconds from now, which is also stored as the match's
   * start time, and the room and the administrators are told.
   */
  function ForceStartMatch(s: Server, matchId: string, now: int): (r: StartResult)
    ensures Find(s.matches, matchId).None? ==> r == StartResult(s, None, [])
    ensures r.server.leaderboard == s.leaderboard && r.server.users == s.users
    ensures r.runtime.Some? ==> r.runtime.value.started
    ensures NoWinner(r.emits)
  {
    match Find(s.matches, matchId)
    case None => StartResult(s, None, [])
    case Some(m) =>
      var (reg, rt) := EnsureRuntimeMatch(s.registry, m.id, m.diskCount, m.player1, m.player2);
      if rt.started then
        StartResult(s.(registry := reg), Some(rt), [])
      else
        var startAt := now + CountdownMillis;
        var rt' := rt.(started := true, startAt := Some(startAt));
        var reg' := reg[m.id := rt'];
        var m' := m.(startTime := Some(startAt));
        StartResult(s.(matches := Save(s.matches, m'), registry := reg'), Some(rt'),
                    [Emit(Room(matchId), MatchStarted(matchId, startAt, rt.diskCount)), LiveMatchesEmit(reg')])
  }

  /** A stored match always ends up with a started live session. */
  lemma ForceStartStarts(s: Server, matchId: string, now: int)
    requires Find(s.matches, matchId).Some?
    ensures var r := ForceStartMatch(s, matchId, now);
      && r.runtime.Some? && r.runtime.value.started
      && matchId in r.server.registry && r.server.registry[matchId] == r.runtime.value
      && r.server.registry.Keys == s.registry.Keys + {matchId}
      && forall id | id in s.registry && id != matchId :: r.server.registry[id] == s.registry[id]
  {
  }

  /** Starting a started match changes nothing and emits nothing: the start instant never moves. */
  lemma ForceStartIdempotent(s: Server, matchId: string, now: int)
    requires Find(s.matches, matchId).Some?
    requires matchId in s.registry && s.registry[matchId].started
    ensures ForceStartMatch(s, matchId, now) == StartResult(s, Some(s.registry[matchId]), [])
  {
  }

  /** The first start schedules the session and the stored start time three seconds ahead. */
  lemma ForceStartSchedules(s: Server, matchId: string, now: int)
    requires Find(s.matches, matchId).Some?
    requires !(matchId in s.registry && s.registry[matchId].started)
    ensures var r := ForceStartMatch(s, matchId, now);
      && r.runtime.Some? && r.runtime.value.startAt == Some(now + CountdownMillis)
      && Find(r.server.matches, matchId).Some?
      && Find(r.server.matches, matchId).value.startTime == Some(now + CountdownMillis)
      && r.emits == [Emit(Room(matchId), MatchStarted(matchId, now + CountdownMillis, r.runtime.value.diskCount)),
                     LiveMatchesEmit(r.server.registry)]
  {
    var m := Find(s.matches, matchId).value;
    FindAfterSave(s.matches, m.(startTime := Some(now + CountdownMillis)), matchId);
  }

  lemma ForceStartPreservesWf(s: Server, matchId: string, now: int)
    requires Wf(s)
    ensures Wf(ForceStartMatch(s, matchId, now).server)
  {
    if Find(s.matches, matchId).Some? {
      var m := Find(s.matches, matchId).value;
      EnsureKeepsWf(s, m);
      var (reg, rt) := EnsureRuntimeMatch(s.registry, m.id, m.diskCount, m.player1, m.player2);
      var s1 := s.(registry := reg);
      if !rt.started {
        var rt' := rt.(started := true, startAt := Some(now + CountdownMillis));
        PutSessionKeepsWf(s1, rt');
        var s2 := s1.(registry := reg[m.id := rt']);
        SaveKeepsWf(s2, m.(startTime := Some(now + CountdownMillis)));
      }
    }
  }

  // ---------------------------------------------------------------------
  // admin:auth
  // ---------------------------------------------------------------------

  /**
   * `getAdminCredentials`: the same environment variables and fallbacks as
   * the HTTP guard, so neither configured value is ever empty.
   */
  function ConfiguredCredentials(envUser: Option<string>, envPass: Option<string>): (c: Credentials)
    ensures c.username == AdminAuth.Configured(envUser, AdminAuth.DefaultUsername)
    ensures c.password == AdminAuth.Configured(envPass, AdminAuth.DefaultPassword)
    ensures c.username != "" && c.password != ""
  {
    Credentials(AdminAuth.Configured(envUser, AdminAuth.DefaultUsername),
                AdminAuth.Configured(envPass, AdminAuth.DefaultPassword))
  }

  /**
   * The socket and the HTTP guard accept the same administrator: a user-id
   * without a colon and a password pass the socket test exactly when a Basic
   * header whose token decodes to them passes the HTTP guard.
   */
  lemma SocketAndHttpAcceptSameAdmin(username: string, password: string, token: string, decode: string -> string,
                                     envUser: Option<string>, envPass: Option<string>)
    requires ':' !in username
    requires decode(token) == username + ":" + password
    ensures SocketCredentialsValid(username, password, ConfiguredCredentials(envUser, envPass)) <==>
            AdminAuth.RequireAdminAuth(Some(AdminAuth.Scheme + token), decode, envUser, envPass).Authorized?
  {
    var c := ConfiguredCredentials(envUser, envPass);
    AdminAuth.AcceptsExactlyConfigured(token, decode, envUser, envPass);
    AdminAuth.SplitJoinRoundTrip(username, password);
    if ':' !in c.username && decode(token) == c.username + ":" + c.password {
      AdminAuth.SplitJoinRoundTrip(c.username, c.password);
    }
  }

  /** The socket credential test: both given, and both equal to the configured ones. */
  predicate SocketCredentialsValid(username: string, password: string, creds: Credentials) {
    username != "" && password != "" && username == creds.username && password == creds.password
  }

  /**
   * `admin:auth`: valid credentials make the socket an administrator and
   * push it the live matches; invalid ones only produce an error message.
   */
  function HandleAdminAuth(s: Server, sock: SocketData, username: string, password: string,
                           creds: Credentials): (r: Outcome)
    ensures r.server == s
    ensures r.socket.isAdmin <==> sock.isAdmin || SocketCredentialsValid(username, password, creds)
    ensures r.socket.binding == sock.binding
    ensures !SocketCredentialsValid(username, password, creds) ==>
      r.socket == sock && r.emits == [Emit(Caller, AdminAuthError("Invalid admin credentials."))]
    ensures SocketCredentialsValid(username, password, creds) ==>
      r.emits == [Emit(Caller, AdminAuthOk), LiveMatchesEmit(s.registry)]
  {
    if !SocketCredentialsValid(username, password, creds) then
      Outcome(s, sock, [Emit(Caller, AdminAuthError("Invalid admin credentials."))])
    else
      Outcome(s, sock.(isAdmin := true), [Emit(Caller, AdminAuthOk), LiveMatchesEmit(s.registry)])
  }

  // ---------------------------------------------------------------------
  // match:join
  // ---------------------------------------------------------------------

  /**
   * `match:join`: find the match, get or create its session, claim a slot by
   * the fill-then-reject rule, store the binding, mirror both slot names into
   * the session and record this socket as the slot's connection.
   */
  function HandleJoin(s: Server, sock: SocketData, sid: SocketId, matchId: string, playerName: string): (r: Outcome)
    ensures Find(s.matches, matchId).None? ==>
      r == Outcome(s, sock, [Emit(Caller, MatchError("Match not found."))])
    ensures r.socket.isAdmin == sock.isAdmin
    ensures r.server.leaderboard == s.leaderboard && r.server.users == s.users
    ensures NoWinner(r.emits)
  {
    match Find(s.matches, matchId)
    case None => Outcome(s, sock, [Emit(Caller, MatchError("Match not found."))])
    case Some(m) =>
      var (reg, rt) := EnsureRuntimeMatch(s.registry, m.id, m.diskCount, m.player1, m.player2);
      match MatchJoin.ClaimSlot(m, playerName)
      case None => Outcome(s.(registry := reg), sock, [Emit(Caller, MatchError("Match already has two players."))])
      case Some((side, m')) =>
        var rt' := rt.(player1 := m'.player1, player2 := m'.player2).WithConnection(side, Some(sid));
        var reg' := reg[m.id := rt'];
        Outcome(s.(matches := Save(s.matches, m'), registry := reg'),
                sock.(binding := Some(Binding(m.id, side, playerName))),
                [Emit(Caller, MatchState(BuildRoomSnapshot(rt'), side, playerName)),
                 Emit(Room(m.id), PresenceOf(rt')), LiveMatchesEmit(reg')])
  }

  /**
   * A refused join (both slots held by other names) emits an error and binds
   * nothing: the socket and the stored match are unchanged, and the session,
   * though created if it was missing, gains no connection.
   */
  lemma JoinRefused(s: Server, sock: SocketData, sid: SocketId, matchId: string, playerName: string)
    requires Find(s.matches, matchId).Some?
    requires MatchJoin.ClaimSlot(Find(s.matches, matchId).value, playerName).None?
    ensures var r := HandleJoin(s, sock, sid, matchId, playerName);
      var m := Find(s.matches, matchId).value;
      && r.socket == sock && r.server.matches == s.matches
      && r.server.registry == EnsureRuntimeMatch(s.registry, matchId, m.diskCount, m.player1, m.player2).0
      && r.emits == [Emit(Caller, MatchError("Match already has two players."))]
  {
  }

  /**
   * A successful join binds the socket to the claimed slot, stores the
   * claimed names, mirrors them into the session, records this socket as
   * that slot's connection (the other slot's connection is untouched), and
   * sends the caller the state, the room the presence, the admins the list.
   */
  lemma JoinBinds(s: Server, sock: SocketData, sid: SocketId, matchId: string, playerName: string)
    requires Find(s.matches, matchId).Some?
    requires MatchJoin.ClaimSlot(Find(s.matches, matchId).value, playerName).Some?
    ensures var r := HandleJoin(s, sock, sid, matchId, playerName);
      var m := Find(s.matches, matchId).value;
      var (side, m') := MatchJoin.ClaimSlot(m, playerName).value;
      var before := EnsureRuntimeMatch(s.registry, matchId, m.diskCount, m.player1, m.player2).1;
      && r.socket.binding == Some(Binding(matchId, side, playerName))
      && Find(r.server.matches, matchId) == Some(m')
      && matchId in r.server.registry
      && var rt := r.server.registry[matchId];
         && rt.Connected(side) == Some(sid)
         && rt.Connected(side.Opposite()) == before.Connected(side.Opposite())
         && rt.player1 == m'.player1 && rt.player2 == m'.player2
         && rt.(player1 := before.player1, player2 := before.player2, connected1 := before.connected1,
                connected2 := before.connected2) == before
         && r.emits == [Emit(Caller, MatchState(BuildRoomSnapshot(rt), side, playerName)),
                        Emit(Room(matchId), PresenceOf(rt)), LiveMatchesEmit(r.server.registry)]
  {
    var m := Find(s.matches, matchId).value;
    var (side, m') := MatchJoin.ClaimSlot(m, playerName).value;
    FindAfterSave(s.matches, m', matchId);
  }

  /** A join touches no session but its own and adds at most that one. */
  lemma JoinFrame(s: Server, sock: SocketData, sid: SocketId, matchId: string, playerName: string)
    ensures var r := HandleJoin(s, sock, sid, matchId, playerName);
      && r.server.registry.Keys <= s.registry.Keys + {matchId}
      && s.registry.Keys <= r.server.registry.Keys
      && forall id | id in s.registry && id != matchId :: r.server.registry[id] == s.registry[id]
  {
  }

  lemma JoinPreservesWf(s: Server, sock: SocketData, sid: SocketId, matchId: string, playerName: string)
    requires Wf(s)
    ensures Wf(HandleJoin(s, sock, sid, matchId, playerName).server)
  {
    if Find(s.matches, matchId).Some? {
      var m := Find(s.matches, matchId).value;
      EnsureKeepsWf(s, m);
      var (reg, rt) := EnsureRuntimeMatch(s.registry, m.id, m.diskCount, m.player1, m.player2);
      var s1 := s.(registry := reg);
      if MatchJoin.ClaimSlot(m, playerName).Some? {
        var (side, m') := MatchJoin.ClaimSlot(m, playerName).value;
        var rt' := rt.(player1 := m'.player1, player2 := m'.player2).WithConnection(side, Some(sid));
        PutSessionKeepsWf(s1, rt');
        var s2 := s1.(registry := reg[m.id := rt']);
        SaveKeepsWf(s2, m');
      }
    }
  }

  /** Joining twice under the same name yields the same slot and stores no second binding. */
  lemma JoinIdempotent(s: Server, sockA: SocketData, sockB: SocketData, sidA: SocketId, sidB: SocketId,
                       matchId: string, playerName: string)
    requires Find(s.matches, matchId).Some?
    requires MatchJoin.ClaimSlot(Find(s.matches, matchId).value, playerName).Some?
    ensures var r1 := HandleJoin(s, sockA, sidA, matchId, playerName);
      var r2 := HandleJoin(r1.server, sockB, sidB, matchId, playerName);
      && r2.socket.binding.Some? && r2.socket.binding == r1.socket.binding
      && Find(r2.server.matches, matchId) == Find(r1.server.matches, matchId)
  {
    var m := Find(s.matches, matchId).value;
    var (side, m') := MatchJoin.ClaimSlot(m, playerName).value;
    JoinBinds(s, sockA, sidA, matchId, playerName);
    var r1 := HandleJoin(s, sockA, sidA, matchId, playerName);
    MatchJoin.ClaimSlotIdempotent(m, playerName);
    JoinBinds(r1.server, sockB, sidB, matchId, playerName);
  }

  // ---------------------------------------------------------------------
  // match:progress
  // ---------------------------------------------------------------------

  /**
   * The durable side of a win: when the match is stored, its record gets the
   * winner, the end time and both players' final moves and scores, and one
   * leaderboard row is appended from the winning slot's stats.  The winning
   * slot is player 1 when the stored player 1 is the winner, player 2 otherwise.
   */
  function RecordWin(ms: MatchTable, lb: seq<LeaderboardEntry>, matchId: string, winner: string,
                     rt: Session, now: int): (r: (MatchTable, seq<LeaderboardEntry>))
    ensures Find(ms, matchId).None? ==> r == (ms, lb)
    ensures Find(ms, matchId).Some? ==>
      var m := Find(ms, matchId).value;
      var ws := rt.StatsOf(if m.player1 == Some(winner) then Player1 else Player2);
      && r.1 == lb + [LeaderboardEntry(winner, ws.score, ws.elapsedSeconds, ws.moves, matchId)]
      && Find(r.0, matchId) == Some(m.(winner := Some(winner), endTime := Some(now),
                                      player1Moves := rt.stats1.moves, player2Moves := rt.stats2.moves,
                                      player1Score := rt.stats1.score, player2Score := rt.stats2.score))
  {
    match Find(ms, matchId)
    case None => (ms, lb)
    case Some(m) =>
      var m' := m.(winner := Some(winner), endTime := Some(now),
                   player1Moves := rt.stats1.moves, player2Moves := rt.stats2.moves,
                   player1Score := rt.stats1.score, player2Score := rt.stats2.score);
      var winnerSide := if m'.player1 == Some(winner) then Player1 else Player2;
      var ws := rt.StatsOf(winnerSide);
      FindAfterSave(ms, m', matchId);
      (Save(ms, m'), lb + [LeaderboardEntry(winner, ws.score, ws.elapsedSeconds, ws.moves, m.id)])
  }

  /** Whether a progress report is processed at all: the socket has a slot and the session is live. */
  predicate ProgressAccepted(s: Server, sock: SocketData, matchId: string) {
    sock.binding.Some? && matchId in s.registry && !s.registry[matchId].ended
  }

  /** Whether an accepted progress report decides the match. */
  predicate ProgressWins(s: Server, sock: SocketData, matchId: string, isCompleted: bool)
    requires ProgressAccepted(s, sock, matchId)
  {
    isCompleted && !Truthy(s.registry[matchId].winner)
  }

  /** The stats record the server stores for a report, with the score and accuracy it derives. */
  function ReportedStats(diskCount: DiskCount, moves: int, elapsedSeconds: int, isCompleted: bool): (st: Stats)
    ensures st.moves == moves && st.elapsedSeconds == elapsedSeconds && st.isCompleted == isCompleted
    ensures 0.0 <= st.score && st.accuracy <= 100.0
    ensures moves == 0 ==> st.score == 0.0 && st.accuracy == 100.0
  {
    Stats(moves, elapsedSeconds, isCompleted,
          Scoring.CalculateScore(diskCount, moves, elapsedSeconds),
          Scoring.GetAccuracy(diskCount, moves))
  }

  /**
   * `match:progress`: ignored unless the socket holds a slot and the session
   * named in the report exists and has not ended.  Otherwise the reporting
   * slot's stats are overwritten and broadcast; a completion when no winner
   * is recorded makes the reporter the winner, ends the session, records the
   * win durably and announces it after the stats.
   */
  function HandleProgress(s: Server, sock: SocketData, matchId: string, moves: int, elapsedSeconds: int,
                          isCompleted: bool, now: int): (r: Outcome)
    ensures r.socket == sock
    ensures !ProgressAccepted(s, sock, matchId) ==> r == Outcome(s, sock, [])
    ensures r.server.users == s.users
    ensures r.server.registry.Keys == s.registry.Keys
  {
    if !ProgressAccepted(s, sock, matchId) then Outcome(s, sock, [])
    else
      var b := sock.binding.value;
      var rt := s.registry[matchId];
      var rt1 := rt.WithStats(b.side, ReportedStats(rt.diskCount, moves, elapsedSeconds, isCompleted));
      var statsEmit := Emit(Room(matchId), MatchStats(matchId, rt1.stats1, rt1.stats2));
      if isCompleted && !Truthy(rt1.winner) then
        var rt2 := rt1.(winner := Some(b.playerName), ended := true);
        var reg := s.registry[matchId := rt2];
        var (ms, lb) := RecordWin(s.matches, s.leaderboard, matchId, b.playerName, rt2, now);
        Outcome(s.(matches := ms, leaderboard := lb, registry := reg), sock,
                [statsEmit, Emit(Room(matchId), MatchWinner(matchId, b.playerName, rt2.stats1, rt2.stats2)),
                 LiveMatchesEmit(reg)])
      else
        var reg := s.registry[matchId := rt1];
        Outcome(s.(registry := reg), sock, [statsEmit, LiveMatchesEmit(reg)])
  }

  /**
   * An accepted report overwrites the reporter's stats only: the other
   * slot's stats, the names, connections, start state and every other
   * session are untouched, and the stats message comes first and the
   * administrators' list last.
   */
  lemma ProgressUpdatesReporterOnly(s: Server, sock: SocketData, matchId: string, moves: int,
                                    elapsedSeconds: int, isCompleted: bool, now: int)
    requires ProgressAccepted(s, sock, matchId)
    ensures var r := HandleProgress(s, sock, matchId, moves, elapsedSeconds, isCompleted, now);
      var side := sock.binding.value.side;
      var before := s.registry[matchId];
      var after := r.server.registry[matchId];
      && after.StatsOf(side) == ReportedStats(before.diskCount, moves, elapsedSeconds, isCompleted)
      && after.StatsOf(side.Opposite()) == before.StatsOf(side.Opposite())
      && after.(stats1 := before.stats1, stats2 := before.stats2, ended := before.ended, winner := before.winner)
         == before
      && (forall id | id in s.registry && id != matchId :: r.server.registry[id] == s.registry[id])
      && |r.emits| >= 2
      && r.emits[0] == Emit(Room(matchId), MatchStats(matchId, after.stats1, after.stats2))
      && r.emits[|r.emits| - 1] == LiveMatchesEmit(r.server.registry)
  {
  }

  /**
   * A completion on a session without a winner decides the match: the
   * reporter becomes the winner, the session ends, and the winner message
   * follows the stats message.  On a stored match the record is closed and
   * one leaderboard row is appended for the winner.
   */
  lemma ProgressDecides(s: Server, sock: SocketData, matchId: string, moves: int,
                        elapsedSeconds: int, isCompleted: bool, now: int)
    requires ProgressAccepted(s, sock, matchId)
    requires ProgressWins(s, sock, matchId, isCompleted)
    ensures var r := HandleProgress(s, sock, matchId, moves, elapsedSeconds, isCompleted, now);
      var name := sock.binding.value.playerName;
      var after := r.server.registry[matchId];
      && after.ended && after.winner == Some(name)
      && |r.emits| == 3
      && r.emits[1] == Emit(Room(matchId), MatchWinner(matchId, name, after.stats1, after.stats2))
      && (Find(s.matches, matchId).Some? ==>
            && |r.server.leaderboard| == |s.leaderboard| + 1
            && r.server.leaderboard[..|s.leaderboard|] == s.leaderboard
            && r.server.leaderboard[|s.leaderboard|].playerName == name
            && r.server.leaderboard[|s.leaderboard|].matchId == matchId
            && Find(r.server.matches, matchId).Some?
            && Find(r.server.matches, matchId).value.winner == Some(name)
            && Find(r.server.matches, matchId).value.endTime == Some(now))
  {
  }

  /** A report that does not decide the match leaves its outcome and the durable store alone. */
  lemma ProgressDoesNotDecide(s: Server, sock: SocketData, matchId: string, moves: int,
                              elapsedSeconds: int, isCompleted: bool, now: int)
    requires ProgressAccepted(s, sock, matchId)
    requires !ProgressWins(s, sock, matchId, isCompleted)
    ensures var r := HandleProgress(s, sock, matchId, moves, elapsedSeconds, isCompleted, now);
      && r.server.registry[matchId].ended == s.registry[matchId].ended
      && r.server.registry[matchId].winner == s.registry[matchId].winner
      && r.server.matches == s.matches && r.server.leaderboard == s.leaderboard
      && |r.emits| == 2
  {
  }

  lemma ProgressPreservesWf(s: Server, sock: SocketData, matchId: string, moves: int,
                            elapsedSeconds: int, isCompleted: bool, now: int)
    requires Wf(s)
    ensures Wf(HandleProgress(s, sock, matchId, moves, elapsedSeconds, isCompleted, now).server)
  {
    if ProgressAccepted(s, sock, matchId) {
      var b := sock.binding.value;
      var rt := s.registry[matchId];
      var rt1 := rt.WithStats(b.side, ReportedStats(rt.diskCount, moves, elapsedSeconds, isCompleted));
      if isCompleted && !Truthy(rt1.winner) {
        var rt2 := rt1.(winner := Some(b.playerName), ended := true);
        var (ms, lb) := RecordWin(s.matches, s.leaderboard, matchId, b.playerName, rt2, now);
        PutSessionKeepsWf(s.(leaderboard := lb), rt2);
        var s1 := s.(leaderboard := lb, registry := s.registry[matchId := rt2]);
        var m := Find(s.matches, matchId).value;
        var m' := m.(winner := Some(b.playerName), endTime := Some(now),
                     player1Moves := rt2.stats1.moves, player2Moves := rt2.stats2.moves,
                     player1Score := rt2.stats1.score, player2Score := rt2.stats2.score);
        assert ms == Save(s.matches, m');
        SaveKeepsWf(s1, m');
      } else {
        PutSessionKeepsWf(s, rt1);
      }
    }
  }

  /**
   * The handler as written takes the match from the report, not from the
   * socket's binding, so a socket seated in one match can report a
   * completion for another live, undecided match and become its winner.
   * When the reporter sits on the player-1 side of its own match but is not
   * player 1 of the decided one, the new leaderboard row is filled from the
   * player-2 slot, which still holds the other player's stats.
   */
  lemma OutsiderDecidesMatch(s: Server, sock: SocketData, matchId: string, moves: int, elapsedSeconds: int, now: int)
    requires Wf(s)
    requires sock.binding.Some? && sock.binding.value.matchId != matchId
    requires matchId in s.registry && !s.registry[matchId].ended && s.registry[matchId].winner.None?
    ensures var r := HandleProgress(s, sock, matchId, moves, elapsedSeconds, true, now);
      var name := sock.binding.value.playerName;
      && r.server.registry[matchId].winner == Some(name)
      && |r.server.leaderboard| == |s.leaderboard| + 1
      && r.server.leaderboard[|s.leaderboard|].playerName == name
      && r.server.leaderboard[|s.leaderboard|].matchId == matchId
      && (sock.binding.value.side == Player1 && Find(s.matches, matchId).value.player1 != Some(name) ==>
            r.server.leaderboard[|s.leaderboard|].score == s.registry[matchId].stats2.score)
  {
    assert Backed(s.matches, s.registry[matchId]);
    assert ProgressAccepted(s, sock, matchId) && ProgressWins(s, sock, matchId, true);
    ProgressDecides(s, sock, matchId, moves, elapsedSeconds, true, now);
    ProgressUpdatesReporterOnly(s, sock, matchId, moves, elapsedSeconds, true, now);
  }

  /**
   * The progress handler with the check it evidently needs: a report is
   * processed only when it names the match the socket is bound to.
   */
  function HandleProgressBound(s: Server, sock: SocketData, matchId: string, moves: int, elapsedSeconds: int,
                               isCompleted: bool, now: int): (r: Outcome)
    ensures r.socket == sock
    ensures r.server.users == s.users
    ensures r.server.registry.Keys == s.registry.Keys
    ensures sock.binding.None? || sock.binding.value.matchId != matchId ==> r == Outcome(s, sock, [])
  {
    if sock.binding.Some? && sock.binding.value.matchId == matchId then
      HandleProgress(s, sock, matchId, moves, elapsedSeconds, isCompleted, now)
    else Outcome(s, sock, [])
  }

  /**
   * With the binding check a report can only touch the socket's own match:
   * every other session is unchanged, and a new leaderboard row, if any,
   * is for the bound match and names the bound player.
   */
  lemma BoundProgressTouchesOwnMatchOnly(s: Server, sock: SocketData, matchId: string, moves: int,
                                         elapsedSeconds: int, isCompleted: bool, now: int)
    requires Wf(s)
    ensures var r := HandleProgressBound(s, sock, matchId, moves, elapsedSeconds, isCompleted, now);
      && (forall id | id in s.registry && (sock.binding.None? || id != sock.binding.value.matchId) ::
            r.server.registry[id] == s.registry[id])
      && |s.leaderboard| <= |r.server.leaderboard| <= |s.leaderboard| + 1
      && (|r.server.leaderboard| > |s.leaderboard| ==>
            && sock.binding.Some?
            && r.server.leaderboard[|s.leaderboard|].matchId == sock.binding.value.matchId
            && r.server.leaderboard[|s.leaderboard|].playerName == sock.binding.value.playerName)
  {
    if sock.binding.Some? && sock.binding.value.matchId == matchId && ProgressAccepted(s, sock, matchId) {
      ProgressUpdatesReporterOnly(s, sock, matchId, moves, elapsedSeconds, isCompleted, now);
      if ProgressWins(s, sock, matchId, isCompleted) {
        assert Backed(s.matches, s.registry[matchId]);
        ProgressDecides(s, sock, matchId, moves, elapsedSeconds, isCompleted, now);
      } else {
        ProgressDoesNotDecide(s, sock, matchId, moves, elapsedSeconds, isCompleted, now);
      }
    }
  }

  lemma BoundProgressPreservesWf(s: Server, sock: SocketData, matchId: string, moves: int,
                                 elapsedSeconds: int, isCompleted: bool, now: int)
    requires Wf(s)
    ensures Wf(HandleProgressBound(s, sock, matchId, moves, elapsedSeconds, isCompleted, now).server)
  {
    ProgressPreservesWf(s, sock, matchId, moves, elapsedSeconds, isCompleted, now);
  }

  // ---------------------------------------------------------------------
  // disconnect
  // ---------------------------------------------------------------------

  /**
   * `disconnect`: a socket bound to a slot of a live session clears that
   * slot's connection, whichever socket it currently names, and presence is
   * rebroadcast.
   */
  function HandleDisconnect(s: Server, sock: SocketData): (r: Outcome)
    ensures r.socket == sock
    ensures r.server.(registry := s.registry) == s
    ensures r.server.registry.Keys == s.registry.Keys
    ensures sock.binding.None? || sock.binding.value.matchId == "" || sock.binding.value.matchId !in s.registry ==>
      r == Outcome(s, sock, [])
    ensures NoWinner(r.emits)
  {
    if sock.binding.None? || sock.binding.value.matchId == "" then Outcome(s, sock, [])
    else
      var b := sock.binding.value;
      if b.matchId !in s.registry then Outcome(s, sock, [])
      else
        var rt' := s.registry[b.matchId].WithConnection(b.side, None);
        var reg := s.registry[b.matchId := rt'];
        Outcome(s.(registry := reg), sock, [Emit(Room(b.matchId), PresenceOf(rt')), LiveMatchesEmit(reg)])
  }

  /**
   * A disconnect clears only the socket's own slot connection: names, stats,
   * start state and winner are untouched (the snapshot players and
   * administrators see is the same), and no other session changes.
   */
  lemma DisconnectClearsOnlyPresence(s: Server, sock: SocketData)
    requires sock.binding.Some? && sock.binding.value.matchId != "" && sock.binding.value.matchId in s.registry
    ensures var r := HandleDisconnect(s, sock);
      var b := sock.binding.value;
      var before := s.registry[b.matchId];
      var after := r.server.registry[b.matchId];
      && after.Connected(b.side).None?
      && after.Connected(b.side.Opposite()) == before.Connected(b.side.Opposite())
      && BuildRoomSnapshot(after) == BuildRoomSnapshot(before)
      && (forall id | id in s.registry && id != b.matchId :: r.server.registry[id] == s.registry[id])
      && r.emits == [Emit(Room(b.matchId), PresenceOf(after)), LiveMatchesEmit(r.server.registry)]
  {
  }

  lemma DisconnectPreservesWf(s: Server, sock: SocketData)
    requires Wf(s)
    ensures Wf(HandleDisconnect(s, sock).server)
  {
    if sock.binding.Some? && sock.binding.value.matchId != "" && sock.binding.value.matchId in s.registry {
      var b := sock.binding.value;
      PutSessionKeepsWf(s, s.registry[b.matchId].WithConnection(b.side, None));
    }
  }

  /**
   * The handler as written clears the slot even when it no longer names this
   * socket: the same player joining again from a second socket takes over
   * the slot's connection, and when the first socket then goes away the
   * slot is shown as disconnected although the second socket is still bound
   * to it.
   */
  lemma StaleDisconnectDropsLiveSlot(s: Server, first: SocketData, second: SocketData,
                                     a: SocketId, b: SocketId, matchId: string, playerName: string)
    requires Find(s.matches, matchId).Some?
    requires MatchJoin.ClaimSlot(Find(s.matches, matchId).value, playerName).Some?
    requires a != b && matchId != ""
    ensures var r1 := HandleJoin(s, first, a, matchId, playerName);
      var r2 := HandleJoin(r1.server, second, b, matchId, playerName);
      var side := MatchJoin.ClaimSlot(Find(s.matches, matchId).value, playerName).value.0;
      var r3 := HandleDisconnect(r2.server, r1.socket);
      && r2.socket.binding == r1.socket.binding == Some(Binding(matchId, side, playerName))
      && r2.server.registry[matchId].Connected(side) == Some(b)
      && r3.server.registry[matchId].Connected(side).None?
  {
    var m := Find(s.matches, matchId).value;
    var (side, m') := MatchJoin.ClaimSlot(m, playerName).value;
    JoinBinds(s, first, a, matchId, playerName);
    var r1 := HandleJoin(s, first, a, matchId, playerName);
    MatchJoin.ClaimSlotIdempotent(m, playerName);
    assert r1.socket.binding == Some(Binding(matchId, side, playerName));
    assert MatchJoin.ClaimSlot(Find(r1.server.matches, matchId).value, playerName) == Some((side, m'));
    JoinBinds(r1.server, second, b, matchId, playerName);
    var r2 := HandleJoin(r1.server, second, b, matchId, playerName);
    assert r2.server.registry[matchId].Connected(side) == Some(b);
    DisconnectClearsOnlyPresence(r2.server, r1.socket);
  }

  /**
   * The disconnect handler with the ownership check it evidently needs: a
   * slot whose connection names another socket is left alone and nothing is
   * broadcast; otherwise it behaves as `HandleDisconnect`.
   */
  function HandleDisconnectOwned(s: Server, sid: SocketId, sock: SocketData): (r: Outcome)
    ensures r.socket == sock
    ensures r.server.(registry := s.registry) == s
    ensures r.server.registry.Keys == s.registry.Keys
    ensures NoWinner(r.emits)
  {
    if sock.binding.Some? && sock.binding.value.matchId in s.registry
       && s.registry[sock.binding.value.matchId].Connected(sock.binding.value.side) != Some(sid)
    then Outcome(s, sock, [])
    else HandleDisconnect(s, sock)
  }

  /**
   * With the ownership check a disconnect releases only a connection that
   * names the disconnecting socket: every other connection of every session
   * stays, and a slot named by this socket is cleared.
   */
  lemma DisconnectReleasesOnlyOwnSlot(s: Server, sid: SocketId, sock: SocketData)
    ensures var r := HandleDisconnectOwned(s, sid, sock);
      && (forall id, side | id in s.registry && s.registry[id].Connected(side) != Some(sid) ::
            r.server.registry[id].Connected(side) == s.registry[id].Connected(side))
      && (sock.binding.Some? && sock.binding.value.matchId != "" && sock.binding.value.matchId in s.registry
          && s.registry[sock.binding.value.matchId].Connected(sock.binding.value.side) == Some(sid) ==>
            r.server.registry[sock.binding.value.matchId].Connected(sock.binding.value.side).None?)
  {
    if sock.binding.Some? && sock.binding.value.matchId != "" && sock.binding.value.matchId in s.registry {
      DisconnectClearsOnlyPresence(s, sock);
    }
  }

  /** In the scenario above the corrected handler keeps the second socket's connection. */
  lemma OwnedDisconnectKeepsLiveSlot(s: Server, first: SocketData, second: SocketData,
                                     a: SocketId, b: SocketId, matchId: string, playerName: string)
    requires Find(s.matches, matchId).Some?
    requires MatchJoin.ClaimSlot(Find(s.matches, matchId).value, playerName).Some?
    requires a != b
    ensures var r1 := HandleJoin(s, first, a, matchId, playerName);
      var r2 := HandleJoin(r1.server, second, b, matchId, playerName);
      var side := MatchJoin.ClaimSlot(Find(s.matches, matchId).value, playerName).value.0;
      var r3 := HandleDisconnectOwned(r2.server, a, r1.socket);
      r3.server.registry[matchId].Connected(side) == Some(b)
  {
    var m := Find(s.matches, matchId).value;
    JoinBinds(s, first, a, matchId, playerName);
    var r1 := HandleJoin(s, first, a, matchId, playerName);
    MatchJoin.ClaimSlotIdempotent(m, playerName);
    JoinBinds(r1.server, second, b, matchId, playerName);
    var r2 := HandleJoin(r1.server, second, b, matchId, playerName);
    DisconnectReleasesOnlyOwnSlot(r2.server, a, r1.socket);
  }

  lemma OwnedDisconnectPreservesWf(s: Server, sid: SocketId, sock: SocketData)
    requires Wf(s)
    ensures Wf(HandleDisconnectOwned(s, sid, sock).server)
  {
    DisconnectPreservesWf(s, sock);
  }

  // ---------------------------------------------------------------------
  // Dispatch and whole-protocol properties
  // ---------------------------------------------------------------------

  /** The events a socket sends. */
  datatype SocketEvent =
    | AdminAuth(username: string, password: string)
    | Join(matchId: string, playerName: string)
    | Start(matchId: string)
    | Progress(matchId: string, moves: int, elapsedSeconds: int, isCompleted: bool)
    | Disconnect

  /**
   * The handler `registerMatchSocket` installs for each event.  Every event
   * answers with the socket's own data unchanged except for admin auth and
   * join, which are the only events that set it.
   */
  function Handle(s: Server, sid: SocketId, sock: SocketData, ev: SocketEvent, now: int, creds: Credentials): (r: Outcome)
    ensures !ev.AdminAuth? && !ev.Join? ==> r.socket == sock
    ensures r.server.users == s.users
  {
    match ev
    case AdminAuth(u, p) => HandleAdminAuth(s, sock, u, p, creds)
    case Join(id, name) => HandleJoin(s, sock, sid, id, name)
    case Start(id) =>
      var st := ForceStartMatch(s, id, now);
      Outcome(st.server, sock, st.emits)
    case Progress(id, mv, el, done) => HandleProgress(s, sock, id, mv, el, done, now)
    case Disconnect => HandleDisconnect(s, sock)
  }

  /**
   * The same dispatch with both corrections of this module: a progress
   * report counts only for the socket's own match, and a disconnect releases
   * only a slot this socket holds.
   */
  function HandleCorrected(s: Server, sid: SocketId, sock: SocketData, ev: SocketEvent, now: int,
                           creds: Credentials): (r: Outcome)
    ensures !ev.AdminAuth? && !ev.Join? ==> r.socket == sock
    ensures r.server.users == s.users
    ensures !ev.Progress? && !ev.Disconnect? ==> r == Handle(s, sid, sock, ev, now, creds)
  {
    match ev
    case Progress(id, mv, el, done) => HandleProgressBound(s, sock, id, mv, el, done, now)
    case Disconnect => HandleDisconnectOwned(s, sid, sock)
    case _ => Handle(s, sid, sock, ev, now, creds)
  }

  /** Every socket event keeps the server invariant. */
  lemma HandlePreservesWf(s: Server, sid: SocketId, sock: SocketData, ev: SocketEvent, now: int, creds: Credentials)
    requires Wf(s)
    ensures Wf(Handle(s, sid, sock, ev, now, creds).server)
  {
    match ev
    case AdminAuth(u, p) =>
    case Join(id, name) => JoinPreservesWf(s, sock, sid, id, name);
    case Start(id) => ForceStartPreservesWf(s, id, now);
    case Progress(id, mv, el, done) => ProgressPreservesWf(s, sock, id, mv, el, done, now);
    case Disconnect => DisconnectPreservesWf(s, sock);
  }

  /** Every socket event keeps the server invariant under the corrected dispatch too. */
  lemma CorrectedPreservesWf(s: Server, sid: SocketId, sock: SocketData, ev: SocketEvent, now: int,
                             creds: Credentials)
    requires Wf(s)
    ensures Wf(HandleCorrected(s, sid, sock, ev, now, creds).server)
  {
    match ev
    case Progress(id, mv, el, done) => BoundProgressPreservesWf(s, sock, id, mv, el, done, now);
    case Disconnect => OwnedDisconnectPreservesWf(s, sid, sock);
    case _ => HandlePreservesWf(s, sid, sock, ev, now, creds);
  }

  /**
   * The milestones of a live session that no event takes back: the session
   * stays live, an end stays, a recorded winner stays, a start stays and a
   * scheduled start instant never moves.
   */
  predicate KeepsMilestones(s: Server, s': Server, id: string)
    requires id in s.registry
  {
    && id in s'.registry
    && (s.registry[id].ended ==> s'.registry[id].ended)
    && (s.registry[id].winner.Some? ==> s'.registry[id].winner == s.registry[id].winner)
    && (s.registry[id].started ==> s'.registry[id].started)
    && (s.registry[id].startAt.Some? ==> s'.registry[id].startAt == s.registry[id].startAt)
  }

  lemma JoinKeepsMilestones(s: Server, sock: SocketData, sid: SocketId, matchId: string, playerName: string, id: string)
    requires id in s.registry
    ensures KeepsMilestones(s, HandleJoin(s, sock, sid, matchId, playerName).server, id)
  {
    JoinFrame(s, sock, sid, matchId, playerName);
    if matchId == id && Find(s.matches, matchId).Some? {
      if MatchJoin.ClaimSlot(Find(s.matches, matchId).value, playerName).Some? {
        JoinBinds(s, sock, sid, matchId, playerName);
      }
    }
  }

  lemma StartKeepsMilestones(s: Server, matchId: string, now: int, id: string)
    requires RegistryOk(s.registry)
    requires id in s.registry
    ensures KeepsMilestones(s, ForceStartMatch(s, matchId, now).server, id)
  {
    if Find(s.matches, matchId).Some? {
      ForceStartStarts(s, matchId, now);
      if matchId == id && s.registry[id].started {
        ForceStartIdempotent(s, matchId, now);
      }
    }
  }

  lemma ProgressKeepsMilestones(s: Server, sock: SocketData, matchId: string, moves: int,
                                elapsedSeconds: int, isCompleted: bool, now: int, id: string)
    requires RegistryOk(s.registry)
    requires id in s.registry
    ensures KeepsMilestones(s, HandleProgress(s, sock, matchId, moves, elapsedSeconds, isCompleted, now).server, id)
  {
    if ProgressAccepted(s, sock, matchId) {
      ProgressUpdatesReporterOnly(s, sock, matchId, moves, elapsedSeconds, isCompleted, now);
      if ProgressWins(s, sock, matchId, isCompleted) {
        ProgressDecides(s, sock, matchId, moves, elapsedSeconds, isCompleted, now);
      } else {
        ProgressDoesNotDecide(s, sock, matchId, moves, elapsedSeconds, isCompleted, now);
      }
    }
  }

  lemma DisconnectKeepsMilestones(s: Server, sock: SocketData, id: string)
    requires id in s.registry
    ensures KeepsMilestones(s, HandleDisconnect(s, sock).server, id)
  {
    if sock.binding.Some? && sock.binding.value.matchId != "" && sock.binding.value.matchId in s.registry {
      DisconnectClearsOnlyPresence(s, sock);
    }
  }

  lemma OwnedDisconnectKeepsMilestones(s: Server, sid: SocketId, sock: SocketData, id: string)
    requires id in s.registry
    ensures KeepsMilestones(s, HandleDisconnectOwned(s, sid, sock).server, id)
  {
    DisconnectKeepsMilestones(s, sock, id);
  }

  lemma BoundProgressKeepsMilestones(s: Server, sock: SocketData, matchId: string, moves: int,
                                     elapsedSeconds: int, isCompleted: bool, now: int, id: string)
    requires RegistryOk(s.registry)
    requires id in s.registry
    ensures KeepsMilestones(s, HandleProgressBound(s, sock, matchId, moves, elapsedSeconds, isCompleted, now).server, id)
  {
    ProgressKeepsMilestones(s, sock, matchId, moves, elapsedSeconds, isCompleted, now, id);
  }

  /** No socket event takes back a milestone of any live session. */
  lemma HandleKeepsMilestones(s: Server, sid: SocketId, sock: SocketData, ev: SocketEvent, now: int,
                              creds: Credentials, id: string)
    requires Wf(s)
    requires id in s.registry
    ensures KeepsMilestones(s, Handle(s, sid, sock, ev, now, creds).server, id)
  {
    match ev
    case AdminAuth(u, p) =>
    case Join(mid, name) => JoinKeepsMilestones(s, sock, sid, mid, name, id);
    case Start(mid) => StartKeepsMilestones(s, mid, now, id);
    case Progress(mid, mv, el, done) => ProgressKeepsMilestones(s, sock, mid, mv, el, done, now, id);
    case Disconnect => DisconnectKeepsMilestones(s, sock, id);
  }

  /** No socket event takes back a milestone of any live session under the corrected dispatch either. */
  lemma CorrectedKeepsMilestones(s: Server, sid: SocketId, sock: SocketData, ev: SocketEvent, now: int,
                                 creds: Credentials, id: string)
    requires Wf(s)
    requires id in s.registry
    ensures KeepsMilestones(s, HandleCorrected(s, sid, sock, ev, now, creds).server, id)
  {
    match ev
    case Progress(mid, mv, el, done) => BoundProgressKeepsMilestones(s, sock, mid, mv, el, done, now, id);
    case Disconnect => OwnedDisconnectKeepsMilestones(s, sid, sock, id);
    case _ => HandleKeepsMilestones(s, sid, sock, ev, now, creds, id);
  }

  /**
   * Leaderboard rows and winner announcements go together: the leaderboard
   * only grows at its end, by exactly as many rows as winner messages are
   * emitted, and a new row names the reporting player and the match.
   */
  predicate LeaderboardFollowsWinners(s: Server, r: Outcome, reporter: Option<Binding>, matchId: string) {
    && |r.server.leaderboard| == |s.leaderboard| + CountWinners(r.emits)
    && r.server.leaderboard[..|s.leaderboard|] == s.leaderboard
    && (CountWinners(r.emits) == 1 ==>
          && reporter.Some?
          && r.server.leaderboard[|s.leaderboard|].playerName == reporter.value.playerName
          && r.server.leaderboard[|s.leaderboard|].matchId == matchId)
  }

  /** An outcome that leaves the leaderboard alone and announces no winner. */
  lemma QuietOutcome(s: Server, r: Outcome, reporter: Option<Binding>, matchId: string)
    requires r.server.leaderboard == s.leaderboard
    requires NoWinner(r.emits)
    ensures LeaderboardFollowsWinners(s, r, reporter, matchId)
  {
    NoWinnerMessages(r.emits);
  }

  lemma ProgressLeaderboardFollowsWinners(s: Server, sock: SocketData, matchId: string, moves: int,
                                          elapsedSeconds: int, isCompleted: bool, now: int)
    requires Wf(s)
    ensures LeaderboardFollowsWinners(s, HandleProgress(s, sock, matchId, moves, elapsedSeconds, isCompleted, now),
                                      sock.binding, matchId)
  {
    if !ProgressAccepted(s, sock, matchId) {
      QuietOutcome(s, HandleProgress(s, sock, matchId, moves, elapsedSeconds, isCompleted, now), sock.binding, matchId);
    } else if ProgressWins(s, sock, matchId, isCompleted) {
      DecidingProgressFollowsWinners(s, sock, matchId, moves, elapsedSeconds, isCompleted, now);
    } else {
      QuietProgressFollowsWinners(s, sock, matchId, moves, elapsedSeconds, isCompleted, now);
    }
  }

  lemma DecidingProgressFollowsWinners(s: Server, sock: SocketData, matchId: string, moves: int,
                                       elapsedSeconds: int, isCompleted: bool, now: int)
    requires Wf(s)
    requires ProgressAccepted(s, sock, matchId)
    requires ProgressWins(s, sock, matchId, isCompleted)
    ensures LeaderboardFollowsWinners(s, HandleProgress(s, sock, matchId, moves, elapsedSeconds, isCompleted, now),
                                      sock.binding, matchId)
  {
    assert Find(s.matches, matchId).Some?;
    ProgressDecides(s, sock, matchId, moves, elapsedSeconds, isCompleted, now);
    ProgressUpdatesReporterOnly(s, sock, matchId, moves, elapsedSeconds, isCompleted, now);
    OneWinnerOutcome(s, HandleProgress(s, sock, matchId, moves, elapsedSeconds, isCompleted, now), sock.binding, matchId);
  }

  lemma QuietProgressFollowsWinners(s: Server, sock: SocketData, matchId: string, moves: int,
                                    elapsedSeconds: int, isCompleted: bool, now: int)
    requires ProgressAccepted(s, sock, matchId)
    requires !ProgressWins(s, sock, matchId, isCompleted)
    ensures LeaderboardFollowsWinners(s, HandleProgress(s, sock, matchId, moves, elapsedSeconds, isCompleted, now),
                                      sock.binding, matchId)
  {
    ProgressDoesNotDecide(s, sock, matchId, moves, elapsedSeconds, isCompleted, now);
    ProgressUpdatesReporterOnly(s, sock, matchId, moves, elapsedSeconds, isCompleted, now);
    QuietOutcome(s, HandleProgress(s, sock, matchId, moves, elapsedSeconds, isCompleted, now), sock.binding, matchId);
  }

  /** An outcome with one winner message in the middle of three and one new leaderboard row for the reporter. */
  lemma OneWinnerOutcome(s: Server, r: Outcome, reporter: Option<Binding>, matchId: string)
    requires |r.emits| == 3
    requires !r.emits[0].msg.MatchWinner? && r.emits[1].msg.MatchWinner? && !r.emits[2].msg.MatchWinner?
    requires |r.server.leaderboard| == |s.leaderboard| + 1
    requires r.server.leaderboard[..|s.leaderboard|] == s.leaderboard
    requires reporter.Some?
    requires r.server.leaderboard[|s.leaderboard|].playerName == reporter.value.playerName
    requires r.server.leaderboard[|s.leaderboard|].matchId == matchId
    ensures LeaderboardFollowsWinners(s, r, reporter, matchId)
  {
    var e := r.emits;
    assert e[1..][1..] == [e[2]];
    assert CountWinners([e[2]]) == 0 by {
      assert [e[2]][1..] == [];
    }
  }

  lemma JoinFollowsWinners(s: Server, sock: SocketData, sid: SocketId, matchId: string, playerName: string)
    ensures LeaderboardFollowsWinners(s, HandleJoin(s, sock, sid, matchId, playerName), sock.binding, "")
    ensures CountWinners(HandleJoin(s, sock, sid, matchId, playerName).emits) == 0
  {
    QuietOutcome(s, HandleJoin(s, sock, sid, matchId, playerName), sock.binding, "");
  }

  lemma StartFollowsWinners(s: Server, sock: SocketData, matchId: string, now: int)
    ensures var st := ForceStartMatch(s, matchId, now);
      && LeaderboardFollowsWinners(s, Outcome(st.server, sock, st.emits), sock.binding, "")
      && CountWinners(st.emits) == 0
  {
    var st := ForceStartMatch(s, matchId, now);
    QuietOutcome(s, Outcome(st.server, sock, st.emits), sock.binding, "");
  }

  lemma DisconnectFollowsWinners(s: Server, sock: SocketData)
    ensures LeaderboardFollowsWinners(s, HandleDisconnect(s, sock), sock.binding, "")
    ensures CountWinners(HandleDisconnect(s, sock).emits) == 0
  {
    QuietOutcome(s, HandleDisconnect(s, sock), sock.binding, "");
  }

  lemma OwnedDisconnectFollowsWinners(s: Server, sid: SocketId, sock: SocketData)
    ensures LeaderboardFollowsWinners(s, HandleDisconnectOwned(s, sid, sock), sock.binding, "")
    ensures CountWinners(HandleDisconnectOwned(s, sid, sock).emits) == 0
  {
    QuietOutcome(s, HandleDisconnectOwned(s, sid, sock), sock.binding, "");
  }

  lemma BoundProgressFollowsWinners(s: Server, sock: SocketData, matchId: string, moves: int,
                                    elapsedSeconds: int, isCompleted: bool, now: int)
    requires Wf(s)
    ensures LeaderboardFollowsWinners(s, HandleProgressBound(s, sock, matchId, moves, elapsedSeconds, isCompleted, now),
                                      sock.binding, matchId)
  {
    if sock.binding.Some? && sock.binding.value.matchId == matchId {
      ProgressLeaderboardFollowsWinners(s, sock, matchId, moves, elapsedSeconds, isCompleted, now);
    } else {
      QuietOutcome(s, HandleProgressBound(s, sock, matchId, moves, elapsedSeconds, isCompleted, now), sock.binding, matchId);
    }
  }

  /**
   * Over every socket event, the leaderboard grows only at its end and only
   * by the winner announcements emitted, and only a progress report emits one.
   */
  lemma HandleLeaderboardMatchesWinners(s: Server, sid: SocketId, sock: SocketData, ev: SocketEvent, now: int,
                                        creds: Credentials)
    requires Wf(s)
    ensures var r := Handle(s, sid, sock, ev, now, creds);
      && LeaderboardFollowsWinners(s, r, sock.binding, if ev.Progress? then ev.matchId else "")
      && (CountWinners(r.emits) > 0 ==> ev.Progress?)
  {
    match ev
    case AdminAuth(u, p) => QuietOutcome(s, Handle(s, sid, sock, ev, now, creds), sock.binding, "");
    case Join(mid, name) => JoinFollowsWinners(s, sock, sid, mid, name);
    case Start(mid) => StartFollowsWinners(s, sock, mid, now);
    case Progress(mid, mv, el, done) => ProgressLeaderboardFollowsWinners(s, sock, mid, mv, el, done, now);
    case Disconnect => DisconnectFollowsWinners(s, sock);
  }

  /** The same correspondence under the corrected dispatch. */
  lemma CorrectedLeaderboardMatchesWinners(s: Server, sid: SocketId, sock: SocketData, ev: SocketEvent, now: int,
                                           creds: Credentials)
    requires Wf(s)
    ensures var r := HandleCorrected(s, sid, sock, ev, now, creds);
      && LeaderboardFollowsWinners(s, r, sock.binding, if ev.Progress? then ev.matchId else "")
      && (CountWinners(r.emits) > 0 ==> ev.Progress?)
  {
    match ev
    case Progress(mid, mv, el, done) => BoundProgressFollowsWinners(s, sock, mid, mv, el, done, now);
    case Disconnect => OwnedDisconnectFollowsWinners(s, sid, sock);
    case _ => HandleLeaderboardMatchesWinners(s, sid, sock, ev, now, creds);
  }

  /** A log without winner messages counts none. */
  lemma {:induction false} NoWinnerMessages(log: seq<Emit>)
    requires NoWinner(log)
    ensures CountWinners(log) == 0
    decreases |log|
  {
    if |log| > 0 {
      NoWinnerMessages(log[1..]);
    }
  }

  /**
   * First completion wins: after one completed report decides a match, a
   * second completed report for it, from any socket, changes nothing.
   * Together the two add one leaderboard row and one winner announcement.
   */
  lemma SecondCompletionIgnored(s: Server, sockA: SocketData, sockB: SocketData, matchId: string,
                                movesA: int, timeA: int, movesB: int, timeB: int, t1: int, t2: int)
    requires Wf(s)
    requires sockA.binding.Some?
    requires matchId in s.registry && s.registry[matchId].winner.None?
    ensures var r1 := HandleProgress(s, sockA, matchId, movesA, timeA, true, t1);
      var r2 := HandleProgress(r1.server, sockB, matchId, movesB, timeB, true, t2);
      && r2 == Outcome(r1.server, sockB, [])
      && |r2.server.leaderboard| == |s.leaderboard| + 1
      && CountWinners(r1.emits + r2.emits) == 1
      && r2.server.registry[matchId].winner == Some(sockA.binding.value.playerName)
  {
    assert Backed(s.matches, s.registry[matchId]);
    assert ProgressAccepted(s, sockA, matchId) && ProgressWins(s, sockA, matchId, true);
    var r1 := HandleProgress(s, sockA, matchId, movesA, timeA, true, t1);
    ProgressDecides(s, sockA, matchId, movesA, timeA, true, t1);
    assert !ProgressAccepted(r1.server, sockB, matchId);
    DecidingProgressFollowsWinners(s, sockA, matchId, movesA, timeA, true, t1);
    assert CountWinners(r1.emits) == 1;
    var r2 := HandleProgress(r1.server, sockB, matchId, movesB, timeB, true, t2);
    assert r2 == Outcome(r1.server, sockB, []);
    CountWinnersAppend(r1.emits, r2.emits);
  }
}
