/**
 * The whole server as one value: the durable collections together with the
 * live registry, and the messages a handler emits, in emission order.
 */
module ServerState {
  import opened Common
  import opened Durable
  import opened RuntimeStore

  datatype Server = Server(
    matches: MatchTable,
    users: set<UserRow>,
    leaderboard: seq<LeaderboardEntry>,
    registry: Registry)

  /** A live session is backed by a stored match with the same disk count. */
  predicate Backed(ms: MatchTable, rt: Session) {
    var r := Find(ms, rt.matchId);
    r.Some? && r.value.diskCount == rt.diskCount
  }

  /**
   * The server invariant: stored ids are unique, every live session is filed
   * under its own id and is consistent, and every live session belongs to a
   * stored match whose disk count it shares.
   */
  predicate Wf(s: Server) {
    && UniqueIds(s.matches)
    && RegistryOk(s.registry)
    && forall id | id in s.registry :: Backed(s.matches, s.registry[id])
  }

  /** Saving a record that keeps its stored disk count keeps every session backed. */
  lemma SaveKeepsBacked(ms: MatchTable, rec: MatchRecord, rt: Session)
    requires Find(ms, rec.id).Some? && Find(ms, rec.id).value.diskCount == rec.diskCount
    requires Backed(ms, rt)
    ensures Backed(Save(ms, rec), rt)
  {
    FindAfterSave(ms, rec, rt.matchId);
  }

  /** Saving such a record keeps the whole invariant, whatever registry goes with it. */
  lemma SaveKeepsWf(s: Server, rec: MatchRecord)
    requires Wf(s)
    requires Find(s.matches, rec.id).Some? && Find(s.matches, rec.id).value.diskCount == rec.diskCount
    ensures Wf(s.(matches := Save(s.matches, rec)))
  {
    SaveKeepsIds(s.matches, rec);
    forall id | id in s.registry
      ensures Backed(Save(s.matches, rec), s.registry[id])
    {
      SaveKeepsBacked(s.matches, rec, s.registry[id]);
    }
  }

  /** Filing a consistent, backed session under its own id keeps the invariant. */
  lemma PutSessionKeepsWf(s: Server, rt: Session)
    requires Wf(s)
    requires rt.Consistent() && Backed(s.matches, rt)
    ensures Wf(s.(registry := s.registry[rt.matchId := rt]))
  {
  }

  /** `ensureRuntimeMatch` for a stored match keeps the invariant. */
  lemma EnsureKeepsWf(s: Server, m: MatchRecord)
    requires Wf(s)
    requires Find(s.matches, m.id) == Some(m)
    ensures var (reg, rt) := EnsureRuntimeMatch(s.registry, m.id, m.diskCount, m.player1, m.player2);
      && Wf(s.(registry := reg)) && rt.matchId == m.id && rt.diskCount == m.diskCount
  {
    if m.id !in s.registry {
      PutSessionKeepsWf(s, NewSession(m.id, m.diskCount, m.player1, m.player2));
    }
  }

  /** Who receives a message: a match's room, the administrators' room, or the calling socket. */
  datatype Audience = Room(matchId: string) | Admins | Caller

  datatype Message =
    | AdminAuthError(message: string)
    | AdminAuthOk
    | AdminMatches(live: map<string, Snapshot>)
    | MatchError(message: string)
    | MatchState(snapshot: Snapshot, side: Side, playerName: string)
    | MatchPresence(player1Connected: bool, player2Connected: bool)
    | MatchStarted(matchId: string, startAt: int, diskCount: int)
    | MatchStats(matchId: string, stats1: Stats, stats2: Stats)
    | MatchWinner(matchId: string, winner: string, stats1: Stats, stats2: Stats)

  datatype Emit = Emit(to: Audience, msg: Message)

  /** `emitLiveMatches`: every live session, to the administrators. */
  function LiveMatchesEmit(reg: Registry): Emit {
    Emit(Admins, AdminMatches(LiveMatches(reg)))
  }

  /** A log without winner announcements. */
  predicate NoWinner(log: seq<Emit>) {
    forall i | 0 <= i < |log| :: !log[i].msg.MatchWinner?
  }

  /** The number of winner announcements in a log. */
  function CountWinners(log: seq<Emit>): nat {
    if |log| == 0 then 0
    else (if log[0].msg.MatchWinner? then 1 else 0) + CountWinners(log[1..])
  }

  lemma CountWinnersAppend(a: seq<Emit>, b: seq<Emit>)
    ensures CountWinners(a + b) == CountWinners(a) + CountWinners(b)
  {
    if |a| > 0 {
      assert (a + b)[0] == a[0];
      assert (a + b)[1..] == a[1..] + b;
      CountWinnersAppend(a[1..], b);
    } else {
      assert a + b == b;
    }
  }
}
