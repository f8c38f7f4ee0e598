/**
 * The administrator's HTTP operations (backend/controllers/adminController.js):
 * creating a match, the live list, starting every pending match, the
 * ordered leaderboard and its CSV export, and the tournament reset.
 */
module AdminController {
  import opened Common
  import opened Durable
  import opened RuntimeStore
  import opened ServerState
  import MatchSocket
  import MatchController
  import Csv

  const DefaultDiskCountValue: int := 4
  const LiveMatchesLimit: nat := 200
  const LeaderboardLimit: nat := 500

  // ---------------------------------------------------------------------
  // createMatch
  // ---------------------------------------------------------------------

  datatype CreateResult = Created(record: MatchRecord) | CreateFailed {
    function Status(): int {
      if Created? then 201 else 500
    }

    function Message(): string {
      if Created? then "" else "Failed to create match."
    }
  }

  /**
   * A field of a request body: left out, sent as `null`, or sent with a
   * value.  A destructuring default replaces only a field that is left out.
   */
  datatype Field<T> = Absent | Null | Given(value: T)

  /**
   * `createMatch`.  Absent or null players are stored as null; an absent
   * disk count becomes four, while an explicit null reaches the schema,
   * whose `required` check rejects it, as it rejects a count outside 3..8;
   * either failure answers 500.  `id` is the identifier the database
   * assigns, which is new.  The record is stored last, as the newest match.
   */
  function CreateMatch(s: Server, id: string, player1: Option<string>, player2: Option<string>,
                       diskCount: Field<int>): (r: (CreateResult, Server))
    requires id !in Ids(s.matches)
    ensures diskCount.Null? ==> r == (CreateFailed, s)
    ensures var n := if diskCount.Given? then diskCount.value else DefaultDiskCountValue;
      && (r.0.CreateFailed? <==> diskCount.Null? || !(3 <= n <= 8))
      && (r.0.CreateFailed? ==> r.1 == s)
      && (r.0.Created? ==>
            && r.0.record.id == id && r.0.record.player1 == player1 && r.0.record.player2 == player2
            && r.0.record.diskCount == n
            && r.0.record.startTime.None? && r.0.record.endTime.None? && r.0.record.winner.None?
            && r.0.record.player1Moves == 0 && r.0.record.player2Moves == 0
            && r.0.record.player1Score == 0.0 && r.0.record.player2Score == 0.0
            && r.1 == s.(matches := s.matches + [r.0.record]))
  {
    var n := if diskCount.Given? then diskCount.value else DefaultDiskCountValue;
    if diskCount.Null? || !(3 <= n <= 8) then (CreateFailed, s)
    else
      var rec := MatchRecord(id, player1, player2, n, None, None, None, 0, 0, 0.0, 0.0);
      (Created(rec), s.(matches := s.matches + [rec]))
  }

  /** A created match can be found under its id, no other lookup changes, and the invariant is kept. */
  lemma CreateMatchStores(s: Server, id: string, player1: Option<string>, player2: Option<string>,
                          diskCount: Field<int>, other: string)
    requires Wf(s)
    requires id !in Ids(s.matches)
    ensures var (res, s') := CreateMatch(s, id, player1, player2, diskCount);
      && Wf(s')
      && (res.Created? ==> Find(s'.matches, id) == Some(res.record))
      && (other != id ==> Find(s'.matches, other) == Find(s.matches, other))
  {
    var (res, s') := CreateMatch(s, id, player1, player2, diskCount);
    if res.Created? {
      FindAfterAppend(s.matches, res.record, other);
      FindAfterAppend(s.matches, res.record, id);
      forall k | k in s'.registry
        ensures Backed(s'.matches, s'.registry[k])
      {
        FindAfterAppend(s.matches, res.record, s'.registry[k].matchId);
      }
    }
  }

  /** A new match can be joined at once: the first name takes player 1. */
  lemma CreatedMatchJoinable(s: Server, id: string, name: string)
    requires id !in Ids(s.matches)
    ensures var (res, s') := CreateMatch(s, id, None, None, Absent);
      && res.Created?
      && MatchController.JoinMatch(s', id, name).0 == MatchController.Joined(id, 4, Some(name), None)
  {
    var (res, s') := CreateMatch(s, id, None, None, Absent);
    FindAfterAppend(s.matches, res.record, id);
  }

  // ---------------------------------------------------------------------
  // getLiveMatches
  // ---------------------------------------------------------------------

  /** One row of the live list: the stored match with its live state merged in. */
  datatype LiveRow = LiveRow(record: MatchRecord, started: bool, ended: bool, stats: Option<(Stats, Stats)>)

  /**
   * The merge: with a live session its start, end and stats are shown;
   * without one a match is started when it has a start time and ended when
   * it has an end time, and has no stats.
   */
  function MergeRow(m: MatchRecord, reg: Registry): (row: LiveRow)
    ensures row.record == m
    ensures m.id in reg ==>
      row.started == reg[m.id].started && row.ended == reg[m.id].ended &&
      row.stats == Some((reg[m.id].stats1, reg[m.id].stats2))
    ensures m.id !in reg ==> row.started == m.startTime.Some? && row.ended == m.endTime.Some? && row.stats.None?
  {
    if m.id in reg then
      var rt := reg[m.id];
      LiveRow(m, rt.started, rt.ended, Some((rt.stats1, rt.stats2)))
    else LiveRow(m, m.startTime.Some?, m.endTime.Some?, None)
  }

  /** `getLiveMatches`: the newest 200 stored matches, newest first, each merged with its session. */
  function GetLiveMatches(s: Server): (rows: seq<LiveRow>)
    ensures |rows| == Min(LiveMatchesLimit, |s.matches|)
    ensures forall i | 0 <= i < |rows| :: rows[i] == MergeRow(s.matches[|s.matches| - 1 - i], s.registry)
  {
    var ms := s.matches;
    seq(Min(LiveMatchesLimit, |ms|), i requires 0 <= i < Min(LiveMatchesLimit, |ms|) => MergeRow(ms[|ms| - 1 - i], s.registry))
  }

  /**
   * The live list is a window on the store: every row is a stored match,
   * rows are distinct, later-created matches come first, and when no more
   * than 200 matches are stored every one of them is listed.
   */
  lemma LiveMatchesWindow(s: Server)
    requires Wf(s)
    ensures var rows := GetLiveMatches(s);
      && (forall i | 0 <= i < |rows| :: rows[i].record in s.matches)
      && (forall i, j | 0 <= i < j < |rows| :: rows[i].record.id != rows[j].record.id)
      && (|s.matches| <= LiveMatchesLimit ==>
            forall k | 0 <= k < |s.matches| :: rows[|s.matches| - 1 - k].record == s.matches[k])
  {
  }

  /**
   * Under the server invariant a listed match with a live session shows
   * ended exactly when the session has a winner, and started exactly when
   * it has a start instant.
   */
  lemma LiveRowConsistent(s: Server, i: int)
    requires Wf(s)
    requires 0 <= i < |GetLiveMatches(s)|
    ensures var row := GetLiveMatches(s)[i];
      row.record.id in s.registry ==>
        (row.ended <==> s.registry[row.record.id].winner.Some?) &&
        (row.started <==> s.registry[row.record.id].startAt.Some?)
  {
  }

  // ---------------------------------------------------------------------
  // startAllMatches
  // ---------------------------------------------------------------------

  /** `Match.find({ endTime: null })`: the ids of matches without an end time, in table order. */
  function PendingIds(ms: MatchTable): (ids: seq<string>)
    ensures |ids| <= |ms|
    ensures forall id | id in ids :: exists i | 0 <= i < |ms| :: ms[i].id == id && ms[i].endTime.None?
    ensures forall i | 0 <= i < |ms| && ms[i].endTime.None? :: ms[i].id in ids
    ensures UniqueIds(ms) ==> forall i, j | 0 <= i < j < |ids| :: ids[i] != ids[j]
  {
    if |ms| == 0 then []
    else
      var rest := PendingIds(ms[1..]);
      assert forall i | 1 <= i < |ms| :: ms[i] == ms[1..][i - 1];
      if ms[0].endTime.None? then
        assert UniqueIds(ms) ==> forall k | 0 <= k < |rest| :: rest[k] != ms[0].id by {
          if UniqueIds(ms) {
            forall k | 0 <= k < |rest|
              ensures rest[k] != ms[0].id
            {
              assert rest[k] in rest;
              var i :| 0 <= i < |ms[1..]| && ms[1..][i].id == rest[k] && ms[1..][i].endTime.None?;
              assert ms[i + 1].id == rest[k];
            }
          }
        }
        [ms[0].id] + rest
      else rest
  }

  /** `forceStartMatch` on each id in turn; messages in the order they were emitted. */
  function StartEach(s: Server, ids: seq<string>, now: int): (r: (Server, seq<Emit>))
    ensures r.0.users == s.users && r.0.leaderboard == s.leaderboard
    decreases |ids|
  {
    if |ids| == 0 then (s, [])
    else
      var st := MatchSocket.ForceStartMatch(s, ids[0], now);
      var (s', emits) := StartEach(st.server, ids[1..], now);
      (s', st.emits + emits)
  }

  /** `startAllMatches`: start every pending match and report how many there were. */
  function StartAllMatches(s: Server, now: int): (r: (int, Server, seq<Emit>))
    ensures r.0 == |PendingIds(s.matches)|
    ensures r.1.users == s.users && r.1.leaderboard == s.leaderboard
  {
    var ids := PendingIds(s.matches);
    var (s', emits) := StartEach(s, ids, now);
    (|ids|, s', emits)
  }

  /** Starting a match keeps the set of stored ids. */
  lemma ForceStartKeepsIds(s: Server, id: string, now: int)
    ensures Ids(MatchSocket.ForceStartMatch(s, id, now).server.matches) == Ids(s.matches)
  {
    match Find(s.matches, id)
    case None =>
    case Some(m) =>
      SaveKeepsIds(s.matches, m.(startTime := Some(now + MatchSocket.CountdownMillis)));
  }

  /**
   * Starting a list of stored matches leaves each of them with a started
   * session, keeps the invariant, and touches no session outside the list.
   */
  lemma {:induction false} StartEachStarts(s: Server, ids: seq<string>, now: int)
    requires Wf(s)
    requires forall id | id in ids :: id in Ids(s.matches)
    ensures var s' := StartEach(s, ids, now).0;
      && Wf(s')
      && Ids(s'.matches) == Ids(s.matches)
      && (forall id | id in ids :: id in s'.registry && s'.registry[id].started)
      && (forall id | id in s.registry && id !in ids :: id in s'.registry && s'.registry[id] == s.registry[id])
    decreases |ids|
  {
    if |ids| > 0 {
      var st := MatchSocket.ForceStartMatch(s, ids[0], now);
      MatchSocket.ForceStartStarts(s, ids[0], now);
      MatchSocket.ForceStartPreservesWf(s, ids[0], now);
      ForceStartKeepsIds(s, ids[0], now);
      assert forall id | id in ids[1..] :: id in ids;
      StartEachStarts(st.server, ids[1..], now);
      var s' := StartEach(s, ids, now).0;
      assert s' == StartEach(st.server, ids[1..], now).0;
      forall id | id in ids
        ensures id in s'.registry && s'.registry[id].started
      {
        if id !in ids[1..] {
          assert id == ids[0];
        }
      }
    }
  }

  /**
   * After `startAllMatches` every match that was pending has a started live
   * session, the reported count is the number of pending matches, and
   * sessions of finished matches are left alone.
   */
  lemma StartAllStartsPending(s: Server, now: int)
    requires Wf(s)
    ensures var (count, s', _) := StartAllMatches(s, now);
      && Wf(s')
      && count == |PendingIds(s.matches)|
      && (forall i | 0 <= i < |s.matches| && s.matches[i].endTime.None? ::
            s.matches[i].id in s'.registry && s'.registry[s.matches[i].id].started)
      && (forall id | id in s.registry && id !in PendingIds(s.matches) :: id in s'.registry && s'.registry[id] == s.registry[id])
  {
    var ids := PendingIds(s.matches);
    forall id | id in ids
      ensures id in Ids(s.matches)
    {
      var i :| 0 <= i < |s.matches| && s.matches[i].id == id && s.matches[i].endTime.None?;
    }
    StartEachStarts(s, ids, now);
  }

  // ---------------------------------------------------------------------
  // getLeaderboard and getLeaderboardCsv
  // ---------------------------------------------------------------------

  /** The leaderboard order: higher score first, and for equal scores the shorter time. */
  predicate Precedes(a: LeaderboardEntry, b: LeaderboardEntry) {
    a.score > b.score || (a.score == b.score && a.time <= b.time)
  }

  predicate Ordered(s: seq<LeaderboardEntry>) {
    forall i, j | 0 <= i < j < |s| :: Precedes(s[i], s[j])
  }

  /** Insert one entry after every entry that may precede it. */
  function Insert(x: LeaderboardEntry, s: seq<LeaderboardEntry>): (r: seq<LeaderboardEntry>)
    requires Ordered(s)
    ensures Ordered(r)
    ensures multiset(r) == multiset(s) + multiset{x}
    ensures |r| == |s| + 1
    decreases |s|
  {
    if |s| == 0 then [x]
    else if !Precedes(s[0], x) then [x] + s
    else
      var rest := Insert(x, s[1..]);
      assert s == [s[0]] + s[1..];
      forall k | 0 <= k < |rest|
        ensures Precedes(s[0], rest[k])
      {
        assert rest[k] in multiset(rest);
        if rest[k] != x {
          HeadPrecedesRest(s, rest[k]);
        }
      }
      [s[0]] + rest
  }

  /** The head of an ordered sequence precedes everything after it. */
  lemma HeadPrecedesRest(s: seq<LeaderboardEntry>, y: LeaderboardEntry)
    requires Ordered(s) && |s| > 0
    requires y in multiset(s[1..])
    ensures Precedes(s[0], y)
  {
    assert y in s[1..];
    var j :| 0 <= j < |s[1..]| && s[1..][j] == y;
    assert s[j + 1] == y;
  }

  /** The whole leaderboard in order; entries that tie keep their insertion order. */
  function SortBoard(s: seq<LeaderboardEntry>): (r: seq<LeaderboardEntry>)
    ensures Ordered(r)
    ensures multiset(r) == multiset(s)
    ensures |r| == |s|
    decreases |s|
  {
    if |s| == 0 then []
    else
      assert s == s[..|s| - 1] + [s[|s| - 1]];
      Insert(s[|s| - 1], SortBoard(s[..|s| - 1]))
  }

  /** `getLeaderboard`: the first 500 entries of the ordered leaderboard. */
  function GetLeaderboard(lb: seq<LeaderboardEntry>): (r: seq<LeaderboardEntry>)
    ensures |r| == Min(LeaderboardLimit, |lb|)
    ensures Ordered(r)
    ensures multiset(r) <= multiset(lb)
  {
    var sorted := SortBoard(lb);
    var n := Min(LeaderboardLimit, |lb|);
    assert sorted == sorted[..n] + sorted[n..];
    assert multiset(sorted) == multiset(sorted[..n]) + multiset(sorted[n..]);
    sorted[..n]
  }

  /**
   * The cut at 500 keeps the best: every entry the response leaves out is
   * preceded by every entry it returns.
   */
  lemma LeaderboardKeepsBest(lb: seq<LeaderboardEntry>)
    ensures var r := GetLeaderboard(lb);
      forall x, y | x in r && y in multiset(lb) - multiset(r) :: Precedes(x, y)
  {
    var sorted := SortBoard(lb);
    var n := Min(LeaderboardLimit, |lb|);
    var r := GetLeaderboard(lb);
    var rest := sorted[n..];
    assert sorted == r + rest;
    assert multiset(lb) - multiset(r) == multiset(rest) by {
      assert multiset(sorted) == multiset(r) + multiset(rest);
    }
    OrderedHeadPrecedesTail(r, rest);
  }

  /** In an ordered sequence every element of a prefix precedes every element after it. */
  lemma OrderedHeadPrecedesTail(a: seq<LeaderboardEntry>, b: seq<LeaderboardEntry>)
    requires Ordered(a + b)
    ensures forall x, y | x in a && y in multiset(b) :: Precedes(x, y)
  {
    forall x, y | x in a && y in multiset(b)
      ensures Precedes(x, y)
    {
      var i :| 0 <= i < |a| && a[i] == x;
      assert y in b;
      var j :| 0 <= j < |b| && b[j] == y;
      assert (a + b)[i] == x && (a + b)[|a| + j] == y;
    }
  }

  /** A leaderboard entry as an export row; numbers are formatted by the given functions. */
  function EntryRow(e: LeaderboardEntry, showReal: real -> string, showInt: int -> string): Csv.Row {
    Csv.Row(Some(e.playerName), Some(showReal(e.score)), Some(showInt(e.time)), Some(showInt(e.moves)), Some(e.matchId))
  }

  /** `getLeaderboardCsv`: the whole ordered leaderboard, without the cut, as CSV. */
  function GetLeaderboardCsv(lb: seq<LeaderboardEntry>, showReal: real -> string, showInt: int -> string): (r: string)
    ensures Csv.ReadRecords(r).Some? && |Csv.ReadRecords(r).value| == |lb| + 1
    ensures Csv.ReadRecords(r).value[0] == Csv.HeaderNames
  {
    var sorted := SortBoard(lb);
    Csv.ToCsv(seq(|sorted|, i requires 0 <= i < |sorted| => EntryRow(sorted[i], showReal, showInt)))
  }

  /**
   * Reading the export back yields the header and then, for each entry in
   * leaderboard order, its name, formatted score, time and moves, and match id.
   */
  lemma LeaderboardCsvReadsBack(lb: seq<LeaderboardEntry>, showReal: real -> string, showInt: int -> string)
    ensures var sorted := SortBoard(lb);
      var recs := Csv.ReadRecords(GetLeaderboardCsv(lb, showReal, showInt));
      && recs.Some? && |recs.value| == |lb| + 1
      && recs.value[0] == Csv.HeaderNames
      && forall i | 0 <= i < |sorted| ::
           recs.value[i + 1] == [sorted[i].playerName, showReal(sorted[i].score), showInt(sorted[i].time),
                                 showInt(sorted[i].moves), sorted[i].matchId]
  {
    var sorted := SortBoard(lb);
    var rows := seq(|sorted|, i requires 0 <= i < |sorted| => EntryRow(sorted[i], showReal, showInt));
    Csv.ToCsvRoundTrip(rows);
  }

  // ---------------------------------------------------------------------
  // resetTournament
  // ---------------------------------------------------------------------

  const ResetMessage: string := "Tournament reset complete."

  /** `resetTournament`: leaderboard, matches and live sessions are emptied; user rows stay. */
  function ResetTournament(s: Server): (r: Server)
    ensures r.matches == [] && r.leaderboard == [] && r.registry == map[]
    ensures r.users == s.users
  {
    s.(leaderboard := [], matches := [], registry := map[])
  }

  /**
   * After a reset the server is well formed and empty to every reader: no
   * live matches, an empty leaderboard, and every join, by HTTP or socket,
   * finds no match.
   */
  lemma ResetEmptiesEverything(s: Server, sock: MatchSocket.SocketData, sid: SocketId, id: string, name: string)
    ensures var r := ResetTournament(s);
      && Wf(r)
      && GetLiveMatches(r) == []
      && GetLeaderboard(r.leaderboard) == []
      && MatchController.JoinMatch(r, id, name) == (MatchController.NotFound, r)
      && MatchSocket.HandleJoin(r, sock, sid, id, name).emits == [Emit(Caller, MatchError("Match not found."))]
  {
  }
}
