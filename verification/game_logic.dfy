/**
 * The Tower of Hanoi board the client plays on: three towers, each a
 * sequence of disk sizes listed bottom to top.  Models
 * frontend/src/utils/gameLogic.js.
 */
module GameLogic {
  import opened Common

  /** One tower: disk sizes from the bottom (index 0) to the top (last index). */
  type Tower = seq<int>

  /** The board is always exactly three towers. */
  type Towers = t: seq<Tower> | |t| == 3 witness [[], [], []]

  /** A tower index the board actually has. */
  type Peg = i: int | 0 <= i < 3

  function Pow2(n: nat): (p: nat)
    ensures p >= 1
  {
    if n == 0 then 1 else 2 * Pow2(n - 1)
  }

  function Top(s: Tower): int
    requires |s| > 0
  {
    s[|s| - 1]
  }

  function Pop(s: Tower): Tower
    requires |s| > 0
  {
    s[..|s| - 1]
  }

  /** `[n, n-1, ..., 1]`, as `Array.from({ length: n }, (_, i) => n - i)` builds it. */
  function FullStack(n: nat): Tower {
    seq(n, i requires 0 <= i < n => n - i)
  }

  // ---------------------------------------------------------------------
  // The board invariant
  // ---------------------------------------------------------------------

  /** Disk sizes strictly decrease from bottom to top. */
  predicate Decreasing(s: Tower) {
    forall i, j :: 0 <= i < j < |s| ==> s[i] > s[j]
  }

  predicate DisksIn(s: Tower, n: int) {
    forall i :: 0 <= i < |s| ==> 1 <= s[i] <= n
  }

  /** Every disk on the board, counted with multiplicity. */
  function Disks(t: Towers): multiset<int> {
    multiset(t[0]) + multiset(t[1]) + multiset(t[2])
  }

  /**
   * A legal position of an `n`-disk game: each tower is a strictly decreasing
   * stack of disks from 1..n, and the board holds each of the disks 1..n
   * exactly once.
   */
  predicate Legal(t: Towers, n: nat) {
    && (forall k: Peg :: Decreasing(t[k]) && DisksIn(t[k], n))
    && Disks(t) == multiset(FullStack(n))
  }

  // ---------------------------------------------------------------------
  // Operations of gameLogic.js
  // ---------------------------------------------------------------------

  /** `createInitialTowers`: every disk on the first tower, largest at the bottom. */
  function CreateInitialTowers(n: nat): (t: Towers)
    ensures t[0] == FullStack(n)
    ensures t[1] == [] && t[2] == []
    ensures Legal(t, n)
  {
    var t: Towers := [FullStack(n), [], []];
    assert Decreasing(t[0]);
    assert Disks(t) == multiset(FullStack(n)) by {
      assert t[0] == FullStack(n);
    }
    t
  }

  /** `getMinimumMoves`: the optimal number of moves for `n` disks. */
  function MinimumMoves(n: nat): (m: int)
    ensures m == Pow2(n) - 1
    ensures m >= 0
  {
    Pow2(n) - 1
  }

  /**
   * The condition under which `isValidMove` does not throw: line 19 reads the
   * top of `towers[toIndex]`, which is only defined for an index 0..2, and it is
   * reached only when the two indices differ and the source tower exists and is
   * non-empty.
   */
  predicate TargetReadable(t: Towers, from: int, to: int) {
    from == to || !(0 <= from < 3) || |t[from]| == 0 || 0 <= to < 3
  }

  /**
   * `isValidMove`.  A missing or empty source rejects the move; a falsy top of
   * the target (an empty tower, or a disk labelled 0) accepts it; otherwise the
   * moving disk must be smaller than the target's top.
   */
  function IsValidMove(t: Towers, from: int, to: int): (ok: bool)
    requires TargetReadable(t, from, to)
    ensures from == to ==> !ok
    ensures !(0 <= from < 3) ==> !ok
    ensures 0 <= from < 3 && |t[from]| == 0 ==> !ok
    ensures ok ==> 0 <= from < 3 && 0 <= to < 3 && from != to && |t[from]| > 0
    ensures from != to && 0 <= from < 3 && |t[from]| > 0 && 0 <= to < 3 && |t[to]| == 0 ==> ok
  {
    if from == to then false
    else if !(0 <= from < 3) || |t[from]| == 0 then false
    else
      var moving := Top(t[from]);
      if |t[to]| == 0 || Top(t[to]) == 0 then true
      else moving < Top(t[to])
  }

  /**
   * `moveDisk`: pops the top of `from` and pushes it onto `to`, on a copy.
   * The board's contents are preserved and the third tower is untouched.
   */
  function MoveDisk(t: Towers, from: Peg, to: Peg): (r: Towers)
    requires |t[from]| > 0
    ensures Disks(r) == Disks(t)
    ensures from == to ==> r == t
    ensures from != to ==> r[from] == Pop(t[from]) && r[to] == t[to] + [Top(t[from])]
    ensures forall k: Peg :: k != from && k != to ==> r[k] == t[k]
    ensures |r[0]| + |r[1]| + |r[2]| == |t[0]| + |t[1]| + |t[2]|
  {
    var popped := t[from := Pop(t[from])];
    var r: Towers := popped[to := popped[to] + [Top(t[from])]];
    MoveKeepsDisks(t, from, to);
    assert from == to ==> r[to] == t[to];
    r
  }

  /** Popping a tower and pushing its top disk elsewhere keeps the board's disks. */
  lemma MoveKeepsDisks(t: Towers, from: Peg, to: Peg)
    requires |t[from]| > 0
    ensures var popped := t[from := Pop(t[from])];
      Disks(popped[to := popped[to] + [Top(t[from])]]) == Disks(t)
  {
    var d := Top(t[from]);
    var popped: Towers := t[from := Pop(t[from])];
    assert t[from] == Pop(t[from]) + [d];
    DisksUpdate(t, from, Pop(t[from]));
    DisksUpdate(popped, to, popped[to] + [d]);
  }

  /** Replacing one tower replaces its disks in the board's count. */
  lemma DisksUpdate(t: Towers, k: Peg, s: Tower)
    ensures Disks(t[k := s]) + multiset(t[k]) == Disks(t) + multiset(s)
  {
  }

  /**
   * `isCompleted`: the last tower holds as many disks as the game has.  On a
   * legal board that is the same as the puzzle being solved: the last tower
   * holds the full stack `[n, ..., 1]` and the other two are empty.
   */
  function IsCompleted(t: Towers, n: int): (done: bool)
    ensures n >= 0 && Legal(t, n) ==> (done <==> t[2] == FullStack(n))
    ensures n >= 0 && Legal(t, n) && done ==> t[0] == [] && t[1] == []
  {
    if n >= 0 && Legal(t, n) then
      FullLastTower(t, n);
      |t[2]| == n
    else |t[2]| == n
  }

  // ---------------------------------------------------------------------
  // Properties
  // ---------------------------------------------------------------------

  /** Consecutive strict decrease accumulates: disk `i` is at least `j - i` larger than disk `j`. */
  lemma {:induction false} DecreasingGap(s: Tower, i: int, j: int)
    requires Decreasing(s) && 0 <= i <= j < |s|
    ensures s[i] >= s[j] + (j - i)
    decreases j - i
  {
    if i < j {
      DecreasingGap(s, i + 1, j);
    }
  }

  /** A strictly decreasing stack of `n` disks from 1..n is the full stack. */
  lemma FilledStackIsFull(s: Tower, n: nat)
    requires Decreasing(s) && DisksIn(s, n) && |s| == n
    ensures s == FullStack(n)
  {
    forall i | 0 <= i < n
      ensures s[i] == n - i
    {
      DecreasingGap(s, i, n - 1);
      DecreasingGap(s, 0, i);
    }
  }

  /** On a legal board the zero-disk quirk never fires: the move rule is the textbook one. */
  lemma ValidMoveOnLegalBoard(t: Towers, n: nat, from: Peg, to: Peg)
    requires Legal(t, n)
    ensures IsValidMove(t, from, to) <==>
      from != to && |t[from]| > 0 && (|t[to]| == 0 || Top(t[from]) < Top(t[to]))
  {
    if |t[to]| > 0 {
      assert DisksIn(t[to], n);
      assert Top(t[to]) >= 1;
    }
  }

  lemma PopDecreasing(s: Tower)
    requires |s| > 0 && Decreasing(s)
    ensures Decreasing(Pop(s))
  {
  }

  lemma PushDecreasing(s: Tower, d: int)
    requires Decreasing(s)
    requires |s| == 0 || d < Top(s)
    ensures Decreasing(s + [d])
  {
    var s' := s + [d];
    forall i, j | 0 <= i < j < |s'|
      ensures s'[i] > s'[j]
    {
      if j == |s| {
        if i < |s| - 1 {
          assert s[i] > s[|s| - 1];
        }
      }
    }
  }

  /** A valid move on a legal board yields a legal board. */
  lemma MovePreservesLegal(t: Towers, n: nat, from: Peg, to: Peg)
    requires Legal(t, n)
    requires IsValidMove(t, from, to)
    ensures Legal(MoveDisk(t, from, to), n)
  {
    ValidMoveOnLegalBoard(t, n, from, to);
    var r := MoveDisk(t, from, to);
    var d := Top(t[from]);
    PopDecreasing(t[from]);
    PushDecreasing(t[to], d);
    assert d == t[from][|t[from]| - 1];
    assert DisksIn(t[from], n);
    forall k: Peg
      ensures Decreasing(r[k]) && DisksIn(r[k], n)
    {
      if k == from {
      } else if k == to {
        assert DisksIn(t[to], n);
      } else {
        assert r[k] == t[k];
      }
    }
  }

  /**
   * The client's play loop: each requested move is applied when it is valid
   * and ignored otherwise (an invalid drag leaves the board as it was).
   */
  function Play(t: Towers, moves: seq<(Peg, Peg)>): Towers
    decreases |moves|
  {
    if |moves| == 0 then t
    else
      var m := moves[0];
      var next := if IsValidMove(t, m.0, m.1) then MoveDisk(t, m.0, m.1) else t;
      Play(next, moves[1..])
  }

  /** Any sequence of moves keeps a legal board legal. */
  lemma {:induction false} PlayPreservesLegal(t: Towers, n: nat, moves: seq<(Peg, Peg)>)
    requires Legal(t, n)
    ensures Legal(Play(t, moves), n)
    decreases |moves|
  {
    if |moves| > 0 {
      var m := moves[0];
      if IsValidMove(t, m.0, m.1) {
        MovePreservesLegal(t, n, m.0, m.1);
      }
      PlayPreservesLegal(if IsValidMove(t, m.0, m.1) then MoveDisk(t, m.0, m.1) else t, n, moves[1..]);
    }
  }

  /** Every board reachable from the initial one has strictly decreasing towers. */
  lemma ReachableTowersDecrease(n: nat, moves: seq<(Peg, Peg)>)
    ensures forall k: Peg :: Decreasing(Play(CreateInitialTowers(n), moves)[k])
  {
    PlayPreservesLegal(CreateInitialTowers(n), n, moves);
  }

  /**
   * On a legal board, a last tower of `n` disks is the full stack
   * `[n, ..., 1]`, and then the other two towers are empty.
   */
  lemma FullLastTower(t: Towers, n: nat)
    requires Legal(t, n)
    ensures |t[2]| == n <==> t[2] == FullStack(n)
    ensures |t[2]| == n ==> t[0] == [] && t[1] == []
  {
    if |t[2]| == n {
      FilledStackIsFull(t[2], n);
      assert |Disks(t)| == n;
      assert |multiset(t[0])| == 0 && |multiset(t[1])| == 0;
    }
  }

  /** The minimum move count obeys the Hanoi recurrence: move n-1 disks away, the largest, then n-1 back. */
  lemma MinimumMovesRecurrence(n: nat)
    ensures MinimumMoves(n + 1) == 2 * MinimumMoves(n) + 1
  {
  }

  /** For the schema's disk counts the optimum lies between 7 and 255. */
  lemma MinimumMovesRange(n: DiskCount)
    ensures 7 <= MinimumMoves(n) <= 255
  {
    assert Pow2(3) == 8;
    if n > 3 { assert Pow2(4) == 16; }
    if n > 4 { assert Pow2(5) == 32; }
    if n > 5 { assert Pow2(6) == 64; }
    if n > 6 { assert Pow2(7) == 128; }
    if n > 7 { assert Pow2(8) == 256; }
  }
}
