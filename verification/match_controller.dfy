/**
 * The HTTP side of joining (backend/controllers/matchController.js): bind a
 * name to a stored match by the fill-then-reject rule and record a user row.
 */
module MatchController {
  import opened Common
  import opened Durable
  import opened ServerState
  import MatchJoin
  import MatchSocket

  /** The responses of the match routes. */
  datatype Response =
    | NotFound
    | Full
    | Joined(matchId: string, diskCount: DiskCount, player1: Option<string>, player2: Option<string>)
    | Found(record: MatchRecord)
  {
    function Status(): int {
      match this
      case NotFound => 404
      case Full => 400
      case Joined(_, _, _, _) => 200
      case Found(_) => 200
    }

    function Message(): string {
      match this
      case NotFound => "Match not found."
      case Full => "Match full."
      case _ => ""
    }
  }

  /**
   * `joinMatch`: an unknown id is a 404 and a match whose slots are held by
   * two other names a 400, both without any change.  Otherwise a new name is
   * stored in the first vacant slot, the user row (name, match) is upserted,
   * and the response echoes the match after binding.
   */
  function JoinMatch(s: Server, matchId: string, playerName: string): (r: (Response, Server))
    ensures r.0.NotFound? <==> Find(s.matches, matchId).None?
    ensures r.0.NotFound? || r.0.Full? ==> r.1 == s
    ensures r.0.Full? ==> r.0.Status() == 400 && r.0.Message() == "Match full."
    ensures r.1.leaderboard == s.leaderboard && r.1.registry == s.registry
    ensures r.0.Joined? ==>
      && r.0.matchId == matchId
      && r.1.users == s.users + {UserRow(playerName, matchId)}
      && Find(r.1.matches, matchId) == Some(Find(s.matches, matchId).value.(player1 := r.0.player1, player2 := r.0.player2))
      && (r.0.player1 == Some(playerName) || r.0.player2 == Some(playerName))
      && r.0.diskCount == Find(s.matches, matchId).value.diskCount
  {
    match Find(s.matches, matchId)
    case None => (NotFound, s)
    case Some(m) =>
      if m.player1 != Some(playerName) && m.player2 != Some(playerName) && Truthy(m.player1) && Truthy(m.player2) then
        (Full, s)
      else
        var m' :=
          if m.player1 == Some(playerName) || m.player2 == Some(playerName) then m
          else if !Truthy(m.player1) then m.(player1 := Some(playerName))
          else m.(player2 := Some(playerName));
        var ms := if m' == m then s.matches else Save(s.matches, m');
        FindAfterSave(s.matches, m', matchId);
        assert ms == s.matches ==> Find(ms, matchId) == Some(m');
        (Joined(m.id, m'.diskCount, m'.player1, m'.player2),
         s.(matches := ms, users := s.users + {UserRow(playerName, m.id)}))
  }

  /** `getMatchById`: the stored record, or a 404. */
  function GetMatchById(s: Server, id: string): (r: Response)
    ensures r.NotFound? <==> id !in Ids(s.matches)
    ensures r.Found? ==> r.record.id == id && r.record in s.matches
  {
    match Find(s.matches, id)
    case None => NotFound
    case Some(m) => Found(m)
  }

  /**
   * The controller follows the fill-then-reject rule: a name already in a
   * slot keeps the record as it is, a new name fills player 1 before
   * player 2, and the join is refused exactly when both slots are held by
   * other names.
   */
  lemma JoinMatchFollowsClaim(s: Server, matchId: string, playerName: string)
    requires Find(s.matches, matchId).Some?
    ensures var m := Find(s.matches, matchId).value;
      var (resp, s') := JoinMatch(s, matchId, playerName);
      && (resp.Full? <==> MatchJoin.ClaimSlot(m, playerName).None?)
      && (resp.Joined? ==> Find(s'.matches, matchId) == Some(MatchJoin.ClaimSlot(m, playerName).value.1))
      && (m.player1 == Some(playerName) || m.player2 == Some(playerName) ==> s'.matches == s.matches)
  {
  }

  /** The HTTP join and the socket join bind a name to the same slot and store the same record. */
  lemma ControllerAgreesWithSocket(s: Server, sock: MatchSocket.SocketData, sid: RuntimeStore.SocketId,
                                   matchId: string, playerName: string)
    requires Find(s.matches, matchId).Some?
    ensures var (resp, s1) := JoinMatch(s, matchId, playerName);
      var r2 := MatchSocket.HandleJoin(s, sock, sid, matchId, playerName);
      && (resp.Full? <==> r2.socket == sock && r2.server.matches == s.matches &&
                          r2.emits == [Emit(Caller, MatchError("Match already has two players."))])
      && (resp.Joined? ==> Find(s1.matches, matchId) == Find(r2.server.matches, matchId))
  {
    var m := Find(s.matches, matchId).value;
    JoinMatchFollowsClaim(s, matchId, playerName);
    if MatchJoin.ClaimSlot(m, playerName).Some? {
      MatchSocket.JoinBinds(s, sock, sid, matchId, playerName);
    } else {
      MatchSocket.JoinRefused(s, sock, sid, matchId, playerName);
    }
  }

  /** Joining twice under the same name is the same as joining once: one user row, one slot. */
  lemma JoinMatchIdempotent(s: Server, matchId: string, playerName: string)
    ensures var (resp1, s1) := JoinMatch(s, matchId, playerName);
      JoinMatch(s1, matchId, playerName) == (resp1, s1)
  {
    var (resp1, s1) := JoinMatch(s, matchId, playerName);
    if resp1.Joined? {
      assert s1.users + {UserRow(playerName, matchId)} == s1.users;
    }
  }

  lemma JoinMatchPreservesWf(s: Server, matchId: string, playerName: string)
    requires Wf(s)
    ensures Wf(JoinMatch(s, matchId, playerName).1)
  {
    var (resp, s1) := JoinMatch(s, matchId, playerName);
    if resp.Joined? {
      var m := Find(s.matches, matchId).value;
      var m' := m.(player1 := resp.player1, player2 := resp.player2);
      if s1.matches != s.matches {
        assert s1.matches == Save(s.matches, m');
        SaveKeepsWf(s, m');
      }
    }
  }
}
