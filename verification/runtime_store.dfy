/**
 * The in-memory registry of live match sessions
 * (backend/sockets/runtimeStore.js) and the snapshot of a session that is
 * broadcast to players and administrators (`buildRoomSnapshot` in
 * backend/sockets/matchSocket.js).
 */
module RuntimeStore {
  import opened Common

  /** A socket.io connection id; never empty, so a bound slot always reads as connected. */
  type SocketId = s: string | |s| > 0 witness "socket"

  /** The last progress a player reported, with the score the server derived from it. */
  datatype Stats = Stats(moves: int, elapsedSeconds: int, isCompleted: bool, score: real, accuracy: real)

  /** Stats of a player who has not reported yet. */
  const FreshStats: Stats := Stats(0, 0, false, 0.0, 100.0)

  /** The live state of one match. */
  datatype Session = Session(
    matchId: string,
    diskCount: DiskCount,
    player1: Option<string>,
    player2: Option<string>,
    started: bool,
    startAt: Option<int>,
    ended: bool,
    winner: Option<string>,
    connected1: Option<SocketId>,
    connected2: Option<SocketId>,
    stats1: Stats,
    stats2: Stats)
  {
    function Connected(side: Side): Option<SocketId> {
      match side
      case Player1 => connected1
      case Player2 => connected2
    }

    function StatsOf(side: Side): Stats {
      match side
      case Player1 => stats1
      case Player2 => stats2
    }

    /** `runtime.connected[side] = c`. */
    function WithConnection(side: Side, c: Option<SocketId>): (s: Session)
      ensures s.Connected(side) == c && s.Connected(side.Opposite()) == Connected(side.Opposite())
      ensures s.(connected1 := connected1, connected2 := connected2) == this
    {
      match side
      case Player1 => this.(connected1 := c)
      case Player2 => this.(connected2 := c)
    }

    /** `runtime.stats[side] = st`. */
    function WithStats(side: Side, st: Stats): (s: Session)
      ensures s.StatsOf(side) == st && s.StatsOf(side.Opposite()) == StatsOf(side.Opposite())
      ensures s.(stats1 := stats1, stats2 := stats2) == this
    {
      match side
      case Player1 => this.(stats1 := st)
      case Player2 => this.(stats2 := st)
    }

    /**
     * The session invariants every handler keeps: a match has ended exactly
     * when it has a winner, and it has a start instant exactly when it has started.
     */
    predicate Consistent() {
      && (ended <==> winner.Some?)
      && (started <==> startAt.Some?)
    }
  }

  /** `activeMatches`: match id to live session. */
  type Registry = map<string, Session>

  /** Every entry is filed under its own match id and is consistent. */
  predicate RegistryOk(reg: Registry) {
    forall id | id in reg :: reg[id].matchId == id && reg[id].Consistent()
  }

  /** The entry `ensureRuntimeMatch` creates on a miss. */
  function NewSession(matchId: string, diskCount: DiskCount, player1: Option<string>, player2: Option<string>): Session {
    Session(matchId, diskCount, player1, player2, false, None, false, None, None, None, FreshStats, FreshStats)
  }

  /**
   * `ensureRuntimeMatch`: get-or-create.  On a hit the stored entry comes back
   * untouched and the disk count and names passed in are ignored.
   */
  function EnsureRuntimeMatch(reg: Registry, matchId: string, diskCount: DiskCount,
                              player1: Option<string>, player2: Option<string>): (res: (Registry, Session))
    ensures matchId in res.0 && res.0[matchId] == res.1
    ensures res.0.Keys == reg.Keys + {matchId}
    ensures forall id | id in reg && id != matchId :: res.0[id] == reg[id]
    ensures matchId in reg ==> res.0 == reg && res.1 == reg[matchId]
    ensures matchId !in reg ==>
      && res.1.matchId == matchId && res.1.diskCount == diskCount
      && res.1.player1 == player1 && res.1.player2 == player2
      && !res.1.started && res.1.startAt.None? && !res.1.ended && res.1.winner.None?
      && res.1.connected1.None? && res.1.connected2.None?
      && res.1.stats1 == res.1.stats2 == Stats(0, 0, false, 0.0, 100.0)
    ensures RegistryOk(reg) ==> RegistryOk(res.0)
  {
    if matchId in reg then (reg, reg[matchId])
    else
      var s := NewSession(matchId, diskCount, player1, player2);
      (reg[matchId := s], s)
  }

  /** Ensuring an entry twice is the same as ensuring it once, whatever the second call passes. */
  lemma EnsureRuntimeMatchIdempotent(reg: Registry, matchId: string,
                                     n1: DiskCount, a1: Option<string>, b1: Option<string>,
                                     n2: DiskCount, a2: Option<string>, b2: Option<string>)
    ensures EnsureRuntimeMatch(EnsureRuntimeMatch(reg, matchId, n1, a1, b1).0, matchId, n2, a2, b2)
         == EnsureRuntimeMatch(reg, matchId, n1, a1, b1)
  {
  }

  /** What players and administrators are shown of a session: everything but the connection ids. */
  datatype Snapshot = Snapshot(
    matchId: string,
    diskCount: int,
    started: bool,
    startAt: Option<int>,
    ended: bool,
    winner: Option<string>,
    stats1: Stats,
    stats2: Stats,
    player1: Option<string>,
    player2: Option<string>)

  /** `buildRoomSnapshot`. */
  function BuildRoomSnapshot(s: Session): (snap: Snapshot)
    ensures snap.matchId == s.matchId && snap.diskCount == s.diskCount
    ensures snap.winner == s.winner && snap.player1 == s.player1 && snap.player2 == s.player2
    ensures snap.stats1 == s.stats1 && snap.stats2 == s.stats2
  {
    Snapshot(s.matchId, s.diskCount, s.started, s.startAt, s.ended, s.winner,
             s.stats1, s.stats2, s.player1, s.player2)
  }

  /**
   * Presence is not part of a snapshot: two sessions that differ only in
   * their connections look the same, and a snapshot determines everything else.
   */
  lemma SnapshotIgnoresPresence(s: Session, t: Session)
    ensures BuildRoomSnapshot(s) == BuildRoomSnapshot(t)
        <==> s.(connected1 := t.connected1, connected2 := t.connected2) == t
  {
  }

  /** The payload of `emitLiveMatches`: a snapshot of every live session, by match id. */
  function LiveMatches(reg: Registry): (live: map<string, Snapshot>)
    ensures live.Keys == reg.Keys
    ensures forall id | id in reg :: live[id] == BuildRoomSnapshot(reg[id])
  {
    map id | id in reg :: BuildRoomSnapshot(reg[id])
  }
}
