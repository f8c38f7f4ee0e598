/**
 * The client's game state (frontend/src/store/useGameStore.js): one record
 * and the reducers the page calls.  A reducer is a function from the old
 * record (and its arguments) to the new one; `applyMove` also returns its
 * reply to the caller.
 */
module GameStore {
  import opened Common
  import opened GameLogic
  import Scoring
  import RuntimeStore

  const DefaultDiskCount: DiskCount := 4

  /** What the client knows of the opponent. */
  datatype Opponent = Opponent(moves: int, elapsedSeconds: int, completed: bool, connected: bool)

  datatype State = State(
    matchId: string,
    playerName: string,
    side: Option<Side>,
    diskCount: DiskCount,
    minimumMoves: int,
    towers: Towers,
    moveCount: int,
    elapsedSeconds: int,
    score: real,
    accuracy: real,
    completed: bool,
    started: bool,
    paused: bool,
    soundEnabled: bool,
    darkMode: bool,
    opponent: Opponent,
    winner: Option<string>)

  /** The store before any session is set. */
  const Initial: State :=
    State("", "", None, DefaultDiskCount, MinimumMoves(DefaultDiskCount), CreateInitialTowers(DefaultDiskCount),
          0, 0, 0.0, 100.0, false, false, false, true, false, Opponent(0, 0, false, false), None)

  /**
   * What every reducer keeps: the board is a legal position of the game,
   * `completed` is the completion test of that board, the minimum is the one
   * for the disk count, and the accuracy is the one for the move count.
   */
  predicate Inv(st: State) {
    && Legal(st.towers, st.diskCount)
    && st.completed == IsCompleted(st.towers, st.diskCount)
    && st.minimumMoves == MinimumMoves(st.diskCount)
    && st.moveCount >= 0
    && st.accuracy == Scoring.ClientAccuracy(st.minimumMoves, st.moveCount)
  }

  /** A game is running when it has started, is not paused and is not completed: only then does the clock tick and a move count. */
  predicate Running(st: State) {
    st.started && !st.paused && !st.completed
  }

  // ---------------------------------------------------------------------
  // Reducers
  // ---------------------------------------------------------------------

  /** `setSession`: a new game for this match and side, not started, on a fresh board. */
  function SetSession(st: State, matchId: string, playerName: string, side: Option<Side>, diskCount: DiskCount): (r: State)
    ensures Inv(r)
    ensures r.matchId == matchId && r.playerName == playerName && r.side == side && r.diskCount == diskCount
    ensures r.minimumMoves == Pow2(diskCount) - 1
    ensures r.towers[0] == FullStack(diskCount) && r.towers[1] == [] && r.towers[2] == []
    ensures r.moveCount == 0 && r.elapsedSeconds == 0 && r.score == 0.0 && r.accuracy == 100.0
    ensures !r.completed && !r.started && !r.paused && r.winner.None?
    ensures r.soundEnabled == st.soundEnabled && r.darkMode == st.darkMode && r.opponent == st.opponent
  {
    st.(matchId := matchId, playerName := playerName, side := side, diskCount := diskCount,
        minimumMoves := MinimumMoves(diskCount), towers := CreateInitialTowers(diskCount),
        moveCount := 0, elapsedSeconds := 0, score := 0.0, accuracy := 100.0,
        completed := false, started := false, paused := false, winner := None)
  }

  /** `setStarted`: the countdown has elapsed. */
  function SetStarted(st: State): (r: State)
    ensures r.started && !r.paused
    ensures r.(started := st.started, paused := st.paused) == st
  {
    st.(started := true, paused := false)
  }

  /** `tick`: one second passes, on the clock of a running game only. */
  function Tick(st: State): (r: State)
    ensures r.elapsedSeconds == st.elapsedSeconds + 1 <==> Running(st)
    ensures !Running(st) ==> r == st
    ensures r.(elapsedSeconds := st.elapsedSeconds) == st
  {
    if !st.started || st.paused || st.completed then st
    else st.(elapsedSeconds := st.elapsedSeconds + 1)
  }

  /** `togglePause`. */
  function TogglePause(st: State): (r: State)
    ensures r.paused == !st.paused
    ensures r.(paused := st.paused) == st
  {
    st.(paused := !st.paused)
  }

  /** `toggleSound`. */
  function ToggleSound(st: State): (r: State)
    ensures r.soundEnabled == !st.soundEnabled
    ensures r.(soundEnabled := st.soundEnabled) == st
  {
    st.(soundEnabled := !st.soundEnabled)
  }

  /** The reply of `applyMove`. */
  datatype MoveReply =
    | Rejected
    | Accepted(moveCount: int, elapsedSeconds: int, completed: bool, score: real, accuracy: real)

  /**
   * `applyMove`: rejected without change unless the game is running and the
   * move is valid; otherwise the disk is moved, the count goes up by one,
   * completion, score and accuracy are recomputed, and the reply carries them.
   * The two pegs are tower indices 0..2, as the board component passes them.
   */
  function ApplyMove(st: State, from: Peg, to: Peg): (r: (MoveReply, State))
    ensures !Running(st) ==> r == (Rejected, st)
    ensures !IsValidMove(st.towers, from, to) ==> r == (Rejected, st)
    ensures r.0.Accepted? <==> Running(st) && IsValidMove(st.towers, from, to)
    ensures r.0.Accepted? ==>
      && |st.towers[from]| > 0
      && r.1.towers == MoveDisk(st.towers, from, to)
      && r.1.moveCount == st.moveCount + 1
      && r.1.completed == IsCompleted(r.1.towers, st.diskCount)
      && r.1.score == Scoring.ClientScore(st.minimumMoves, st.moveCount + 1, st.elapsedSeconds)
      && r.1.accuracy == Scoring.ClientAccuracy(st.minimumMoves, st.moveCount + 1)
      && r.0 == Accepted(r.1.moveCount, st.elapsedSeconds, r.1.completed, r.1.score, r.1.accuracy)
      && r.1.(towers := st.towers, moveCount := st.moveCount, completed := st.completed,
              score := st.score, accuracy := st.accuracy) == st
  {
    if !st.started || st.paused || st.completed then (Rejected, st)
    else if !IsValidMove(st.towers, from, to) then (Rejected, st)
    else
      var nextTowers := MoveDisk(st.towers, from, to);
      var nextMoves := st.moveCount + 1;
      var completed := IsCompleted(nextTowers, st.diskCount);
      var score := Scoring.ClientScore(st.minimumMoves, nextMoves, st.elapsedSeconds);
      var accuracy := Scoring.ClientAccuracy(st.minimumMoves, nextMoves);
      (Accepted(nextMoves, st.elapsedSeconds, completed, score, accuracy),
       st.(towers := nextTowers, moveCount := nextMoves, completed := completed, score := score, accuracy := accuracy))
  }

  /** The stats payload of a `match:stats` message, either side possibly absent. */
  datatype StatsPayload = StatsPayload(player1: Option<RuntimeStore.Stats>, player2: Option<RuntimeStore.Stats>) {
    function Of(side: Side): Option<RuntimeStore.Stats> {
      match side
      case Player1 => player1
      case Player2 => player2
    }
  }

  /** The opponent as read from a stats record; a missing record reads as zeros. */
  function OpponentFrom(st: Option<RuntimeStore.Stats>): Opponent {
    if st.None? then Opponent(0, 0, false, true)
    else Opponent(st.value.moves, st.value.elapsedSeconds, st.value.isCompleted, true)
  }

  /**
   * `setOpponentFromStats`: with a side, the opponent is replaced by the
   * other side's stats and marked connected; with no side, nothing changes.
   */
  function SetOpponentFromStats(st: State, stats: Option<StatsPayload>, side: Option<Side>): (r: State)
    ensures side.None? ==> r == st
    ensures side.Some? ==> r.(opponent := st.opponent) == st && r.opponent.connected
    ensures side.Some? && (stats.None? || stats.value.Of(side.value.Opposite()).None?) ==>
      r.opponent == Opponent(0, 0, false, true)
    ensures side.Some? && stats.Some? && stats.value.Of(side.value.Opposite()).Some? ==>
      var o := stats.value.Of(side.value.Opposite()).value;
      r.opponent == Opponent(o.moves, o.elapsedSeconds, o.isCompleted, true)
  {
    if side.None? then st
    else
      var theirs := if stats.None? then None else stats.value.Of(side.value.Opposite());
      st.(opponent := OpponentFrom(theirs))
  }

  /** `setPresence`: with a side, the opponent's connection flag follows the other slot's presence. */
  function SetPresence(st: State, player1Connected: bool, player2Connected: bool): (r: State)
    ensures st.side.None? ==> r == st
    ensures st.side.Some? ==>
      && r.opponent.connected == (if st.side.value == Player1 then player2Connected else player1Connected)
      && r.opponent.(connected := st.opponent.connected) == st.opponent
      && r.(opponent := st.opponent) == st
  {
    if st.side.None? then st
    else
      var opponentConnected := if st.side.value == Player1 then player2Connected else player1Connected;
      st.(opponent := st.opponent.(connected := opponentConnected))
  }

  /** `setWinner`. */
  function SetWinner(st: State, winner: Option<string>): (r: State)
    ensures r.winner == winner && r.(winner := st.winner) == st
  {
    st.(winner := winner)
  }

  /**
   * `restartBoard`: a fresh board for the same disk count, with no moves,
   * no time, no winner and the game not paused; whether it has started, the
   * session and the opponent are kept.
   */
  function RestartBoard(st: State): (r: State)
    ensures r.towers == CreateInitialTowers(st.diskCount)
    ensures r.moveCount == 0 && r.elapsedSeconds == 0 && r.score == 0.0 && r.accuracy == 100.0
    ensures !r.completed && !r.paused && r.winner.None?
    ensures r.diskCount == st.diskCount && r.started == st.started && r.side == st.side
    ensures r.matchId == st.matchId && r.minimumMoves == st.minimumMoves && r.opponent == st.opponent
  {
    st.(towers := CreateInitialTowers(st.diskCount), moveCount := 0, elapsedSeconds := 0,
        score := 0.0, accuracy := 100.0, completed := false, paused := false, winner := None)
  }

  // ---------------------------------------------------------------------
  // Properties
  // ---------------------------------------------------------------------

  lemma InitialInv()
    ensures Inv(Initial)
  {
  }

  /** Pausing twice, or toggling the sound twice, restores the state. */
  lemma ToggleTwiceIsIdentity(st: State)
    ensures TogglePause(TogglePause(st)) == st
    ensures ToggleSound(ToggleSound(st)) == st
  {
  }

  /** An accepted move keeps the board legal, the completion flag true to the board, and the accuracy current. */
  lemma ApplyMovePreservesInv(st: State, from: Peg, to: Peg)
    requires Inv(st)
    ensures Inv(ApplyMove(st, from, to).1)
  {
    if ApplyMove(st, from, to).0.Accepted? {
      MovePreservesLegal(st.towers, st.diskCount, from, to);
    }
  }

  /** Every reducer keeps the invariant. */
  lemma ReducersPreserveInv(st: State, side: Option<Side>, stats: Option<StatsPayload>, p1: bool, p2: bool,
                            w: Option<string>)
    requires Inv(st)
    ensures Inv(SetStarted(st)) && Inv(Tick(st)) && Inv(TogglePause(st)) && Inv(ToggleSound(st))
    ensures Inv(SetOpponentFromStats(st, stats, side)) && Inv(SetPresence(st, p1, p2))
    ensures Inv(SetWinner(st, w)) && Inv(RestartBoard(st))
  {
    ClockReducersPreserveInv(st);
    OpponentStatsInv(st, stats, side);
    PresenceInv(st, p1, p2);
    WinnerInv(st, w);
    RestartBoardInv(st);
  }

  lemma RestartBoardInv(st: State)
    requires Inv(st)
    ensures Inv(RestartBoard(st))
  {
  }

  lemma OpponentStatsInv(st: State, stats: Option<StatsPayload>, side: Option<Side>)
    requires Inv(st)
    ensures Inv(SetOpponentFromStats(st, stats, side))
  {
  }

  lemma PresenceInv(st: State, p1: bool, p2: bool)
    requires Inv(st)
    ensures Inv(SetPresence(st, p1, p2))
  {
  }

  lemma WinnerInv(st: State, w: Option<string>)
    requires Inv(st)
    ensures Inv(SetWinner(st, w))
  {
  }

  /** The reducers that touch only the clock and the flags keep the invariant. */
  lemma ClockReducersPreserveInv(st: State)
    requires Inv(st)
    ensures Inv(SetStarted(st)) && Inv(Tick(st)) && Inv(TogglePause(st)) && Inv(ToggleSound(st))
  {
  }

  /**
   * On a running game, a move is accepted exactly when it goes between two
   * different towers, the source is not empty and the target is empty or
   * topped by a larger disk.
   */
  lemma MoveAcceptedExactly(st: State, from: Peg, to: Peg)
    requires Inv(st) && Running(st)
    ensures ApplyMove(st, from, to).0.Accepted? <==>
      from != to && |st.towers[from]| > 0 &&
      (|st.towers[to]| == 0 || Top(st.towers[from]) < Top(st.towers[to]))
  {
    ValidMoveOnLegalBoard(st.towers, st.diskCount, from, to);
  }

  /**
   * A completed game is frozen: the clock stops, every move is rejected, and
   * the board shows all disks stacked in order on the last tower.
   */
  lemma CompletedGameIsFrozen(st: State, from: Peg, to: Peg)
    requires Inv(st) && st.completed
    ensures Tick(st) == st && ApplyMove(st, from, to) == (Rejected, st)
    ensures st.towers[2] == FullStack(st.diskCount) && st.towers[0] == [] && st.towers[1] == []
  {
    assert IsCompleted(st.towers, st.diskCount);
  }

  /** The opponent panel reads only the other side's stats: one's own record never matters. */
  lemma OpponentIgnoresOwnStats(st: State, a: StatsPayload, b: StatsPayload, side: Side)
    requires a.Of(side.Opposite()) == b.Of(side.Opposite())
    ensures SetOpponentFromStats(st, Some(a), Some(side)) == SetOpponentFromStats(st, Some(b), Some(side))
  {
  }

  /** Likewise presence reads only the other slot's flag. */
  lemma PresenceIgnoresOwnSlot(st: State, p1: bool, p2: bool, q1: bool, q2: bool)
    requires st.side.Some?
    requires if st.side.value == Player1 then p2 == q2 else p1 == q1
    ensures SetPresence(st, p1, p2) == SetPresence(st, q1, q2)
  {
  }

  /** Restarting a board is idempotent, and restarting a new session yields the session's own board. */
  lemma RestartBoardIdempotent(st: State, matchId: string, name: string, side: Option<Side>, n: DiskCount)
    ensures RestartBoard(RestartBoard(st)) == RestartBoard(st)
    ensures RestartBoard(SetSession(st, matchId, name, side, n)) == SetSession(st, matchId, name, side, n)
  {
  }

  /**
   * After a restart the game is fresh: it is not completed, so a started
   * game takes moves again, and the accuracy is that of no moves.
   */
  lemma RestartReopens(st: State)
    requires Inv(st)
    ensures Inv(RestartBoard(st))
    ensures st.started ==> Running(RestartBoard(st))
  {
  }
}
