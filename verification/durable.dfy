/**
 * The durable records the server keeps (backend/models/Match.js,
 * backend/models/LeaderboardEntry.js, backend/models/User.js), held in
 * memory: the match table is a sequence in creation order, the leaderboard
 * a sequence in insertion order, and user rows a set keyed on
 * (name, matchId).  Writes never fail in this model.
 */
module Durable {
  import opened Common

  /** A stored match.  Times are epoch milliseconds. */
  datatype MatchRecord = MatchRecord(
    id: string,
    player1: Option<string>,
    player2: Option<string>,
    diskCount: DiskCount,
    startTime: Option<int>,
    endTime: Option<int>,
    winner: Option<string>,
    player1Moves: int,
    player2Moves: int,
    player1Score: real,
    player2Score: real)
  {
    function Player(side: Side): Option<string> {
      match side
      case Player1 => player1
      case Player2 => player2
    }
  }

  datatype LeaderboardEntry = LeaderboardEntry(
    playerName: string, score: real, time: int, moves: int, matchId: string)

  /** A user row; the upsert in the join controller is keyed on both fields. */
  datatype UserRow = UserRow(name: string, matchId: string)

  /** Stored matches, oldest first. */
  type MatchTable = seq<MatchRecord>

  predicate UniqueIds(ms: MatchTable) {
    forall i, j :: 0 <= i < j < |ms| ==> ms[i].id != ms[j].id
  }

  function Ids(ms: MatchTable): set<string> {
    set i | 0 <= i < |ms| :: ms[i].id
  }

  /** `Match.findById`: the stored record with this id, if any. */
  function Find(ms: MatchTable, id: string): (r: Option<MatchRecord>)
    ensures r.Some? ==> r.value.id == id && r.value in ms
    ensures r.None? ==> forall i :: 0 <= i < |ms| ==> ms[i].id != id
    ensures r.Some? <==> id in Ids(ms)
  {
    if |ms| == 0 then None
    else if ms[0].id == id then Some(ms[0])
    else
      var r := Find(ms[1..], id);
      assert forall i :: 1 <= i < |ms| ==> ms[i] == ms[1..][i - 1];
      assert r.Some? ==> r.value in ms by {
        if r.Some? {
          var k :| 0 <= k < |ms[1..]| && ms[1..][k] == r.value;
          assert ms[k + 1] == r.value;
        }
      }
      assert r.Some? <==> id in Ids(ms) by {
        if id in Ids(ms) {
          var k :| 0 <= k < |ms| && ms[k].id == id;
          assert k > 0;
          assert ms[1..][k - 1].id == id;
        }
      }
      r
  }

  /** `match.save()`: the record replaces the stored one with the same id, in place. */
  function Save(ms: MatchTable, rec: MatchRecord): (ms': MatchTable)
    ensures |ms'| == |ms|
    ensures forall i :: 0 <= i < |ms| ==> ms'[i] == (if ms[i].id == rec.id then rec else ms[i])
  {
    seq(|ms|, i requires 0 <= i < |ms| => if ms[i].id == rec.id then rec else ms[i])
  }

  lemma SaveKeepsIds(ms: MatchTable, rec: MatchRecord)
    requires rec.id in Ids(ms)
    ensures Ids(Save(ms, rec)) == Ids(ms)
    ensures UniqueIds(ms) ==> UniqueIds(Save(ms, rec))
  {
    var ms' := Save(ms, rec);
    forall x | x in Ids(ms)
      ensures x in Ids(ms')
    {
      var k :| 0 <= k < |ms| && ms[k].id == x;
      assert ms'[k].id == x;
    }
    forall x | x in Ids(ms')
      ensures x in Ids(ms)
    {
      var k :| 0 <= k < |ms'| && ms'[k].id == x;
      assert ms[k].id == x;
    }
  }

  /** After a save, finding the saved id yields the saved record; other ids are unaffected. */
  lemma FindAfterSave(ms: MatchTable, rec: MatchRecord, id: string)
    requires rec.id in Ids(ms)
    ensures Find(Save(ms, rec), id) == if id == rec.id then Some(rec) else Find(ms, id)
  {
    var ms' := Save(ms, rec);
    if id == rec.id {
      SaveKeepsIds(ms, rec);
      var r := Find(ms', id);
      var k :| 0 <= k < |ms'| && ms'[k] == r.value;
    } else {
      FindAgree(ms, ms', id);
    }
  }

  /** Two tables whose records with `id` sit at the same places and are equal give the same lookup. */
  lemma {:induction false} FindAgree(ms: MatchTable, ms': MatchTable, id: string)
    requires |ms| == |ms'|
    requires forall i :: 0 <= i < |ms| ==> (ms[i].id == id) == (ms'[i].id == id)
    requires forall i :: 0 <= i < |ms| && ms[i].id == id ==> ms[i] == ms'[i]
    ensures Find(ms, id) == Find(ms', id)
    decreases |ms|
  {
    if |ms| > 0 && ms[0].id != id {
      FindAgree(ms[1..], ms'[1..], id);
    }
  }

  /** `Match.create`: appending a record with a fresh id makes it findable and changes no other lookup. */
  lemma FindAfterAppend(ms: MatchTable, rec: MatchRecord, id: string)
    requires rec.id !in Ids(ms)
    ensures Find(ms + [rec], id) == if id == rec.id then Some(rec) else Find(ms, id)
    ensures Ids(ms + [rec]) == Ids(ms) + {rec.id}
    ensures UniqueIds(ms) ==> UniqueIds(ms + [rec])
  {
    var ms' := ms + [rec];
    assert ms'[|ms|] == rec;
    forall x | x in Ids(ms)
      ensures x in Ids(ms')
    {
      var k :| 0 <= k < |ms| && ms[k].id == x;
      assert ms'[k].id == x;
    }
    if id == rec.id {
      var r := Find(ms', id);
      assert r.Some?;
      var k :| 0 <= k < |ms'| && ms'[k] == r.value;
      assert k == |ms|;
    } else {
      FindAppendOther(ms, rec, id);
    }
  }

  lemma {:induction false} FindAppendOther(ms: MatchTable, rec: MatchRecord, id: string)
    requires id != rec.id
    ensures Find(ms + [rec], id) == Find(ms, id)
    decreases |ms|
  {
    if |ms| > 0 && ms[0].id != id {
      assert (ms + [rec])[1..] == ms[1..] + [rec];
      FindAppendOther(ms[1..], rec, id);
    } else if |ms| == 0 {
      assert ms + [rec] == [rec];
    }
  }
}
