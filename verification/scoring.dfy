/**
 * Scoring and accuracy, as the server computes them
 * (backend/utils/gameUtils.js, backend/utils/score.js) and as the client
 * computes them (frontend/src/utils/score.js).
 *
 * Values are exact rationals (`real`).  `Number(x.toFixed(2))` is modelled by
 * `Round2`: the nearest hundredth, ties resolved away from zero, which is what
 * `toFixed` does to the exact value it is given.
 */
module Scoring {
  import opened Common
  import GameLogic

  // ---------------------------------------------------------------------
  // Rounding to hundredths
  // ---------------------------------------------------------------------

  /** Nearest hundredth of a non-negative value, ties upward. */
  function HalfUp100(x: real): real
    requires x >= 0.0
  {
    ((x * 100.0 + 0.5).Floor as real) / 100.0
  }

  /** `Number(x.toFixed(2))` on an exact value: the sign is set aside and the magnitude rounded. */
  function Round2(x: real): (r: real)
    ensures x - 0.005 <= r <= x + 0.005
    ensures x >= 0.0 ==> r >= 0.0
  {
    if x < 0.0 then -HalfUp100(-x) else HalfUp100(x)
  }

  function RealMax(a: real, b: real): real {
    if a >= b then a else b
  }

  function RealMin(a: real, b: real): real {
    if a <= b then a else b
  }

  /** A rounding function that never reverses order and keeps zero in place. */
  ghost predicate MonotoneFixingZero(round: real -> real) {
    && round(0.0) == 0.0
    && forall a, b :: a <= b ==> round(a) <= round(b)
  }

  lemma FloorMonotone(a: real, b: real)
    requires a <= b
    ensures a.Floor <= b.Floor
  {
  }

  lemma HalfUp100Monotone(a: real, b: real)
    requires 0.0 <= a <= b
    ensures HalfUp100(a) <= HalfUp100(b)
  {
    FloorMonotone(a * 100.0 + 0.5, b * 100.0 + 0.5);
  }

  /** Rounding to hundredths is monotone. */
  lemma Round2Monotone(a: real, b: real)
    requires a <= b
    ensures Round2(a) <= Round2(b)
  {
    if 0.0 <= a {
      HalfUp100Monotone(a, b);
    } else if b < 0.0 {
      HalfUp100Monotone(-b, -a);
    } else {
      HalfUp100Monotone(0.0, -a);
      HalfUp100Monotone(0.0, b);
    }
  }

  /** Rounding is off by at most half a hundredth. */
  lemma Round2Close(x: real)
    ensures x - 0.005 <= Round2(x) <= x + 0.005
  {
  }

  /** A whole number is left as it is by rounding to hundredths. */
  lemma Round2OfInteger(k: int)
    ensures Round2(k as real) == k as real
  {
    if k < 0 {
      assert (((-k) as real) * 100.0 + 0.5).Floor == -k * 100;
    } else {
      assert ((k as real) * 100.0 + 0.5).Floor == k * 100;
    }
  }

  /** `Round2` is one of the roundings the score agreement below covers. */
  lemma Round2IsMonotoneFixingZero()
    ensures MonotoneFixingZero(Round2)
  {
    assert Round2(0.0) == 0.0 by {
      Round2OfInteger(0);
    }
    forall a: real, b: real | a <= b
      ensures Round2(a) <= Round2(b)
    {
      Round2Monotone(a, b);
    }
  }

  lemma QuotientAntitone(a: real, m1: real, m2: real)
    requires a >= 0.0 && 0.0 < m1 <= m2
    ensures a / m2 <= a / m1
  {
    assert a / m2 * m2 == a;
    assert a / m1 * m1 == a;
    assert a / m2 * m1 <= a / m2 * m2;
  }

  // ---------------------------------------------------------------------
  // Server side (backend/utils/gameUtils.js, backend/utils/score.js)
  // ---------------------------------------------------------------------

  /** `getMinimumMoves` of the server: the same formula as the client's. */
  function MinimumMoves(diskCount: nat): (m: int)
    ensures m == GameLogic.Pow2(diskCount) - 1
    ensures m == GameLogic.MinimumMoves(diskCount)
  {
    GameLogic.Pow2(diskCount) - 1
  }

  /** Optimum over actual moves, as a percentage, rounded and capped at 100. */
  function GetAccuracy(diskCount: nat, playerMoves: int): (a: real)
    ensures playerMoves == 0 ==> a == 100.0
    ensures a <= 100.0
    ensures playerMoves > 0 ==> a >= 0.0
    ensures 0 < playerMoves <= MinimumMoves(diskCount) ==> a == 100.0
  {
    var minMoves := MinimumMoves(diskCount);
    if playerMoves == 0 then 100.0
    else
      var ratio := (minMoves as real / playerMoves as real) * 100.0;
      assert playerMoves > 0 ==> ratio >= 0.0 && Round2(ratio) >= Round2(0.0) by {
        if playerMoves > 0 {
          Round2Monotone(0.0, ratio);
        }
      }
      assert 0 < playerMoves <= minMoves ==> Round2(ratio) >= 100.0 by {
        if 0 < playerMoves <= minMoves {
          QuotientAntitone(minMoves as real, playerMoves as real, minMoves as real);
          assert minMoves as real / minMoves as real == 1.0;
          assert ratio >= 100.0;
          Round2Monotone(100.0, ratio);
          Round2OfInteger(100);
        }
      }
      RealMin(100.0, Round2(ratio))
  }

  /** The score before rounding and clamping: a thousand points at the optimum, minus one per second. */
  function RawScore(minimumMoves: int, playerMoves: int, timeInSeconds: int): real
    requires playerMoves != 0
  {
    (minimumMoves as real / playerMoves as real) * 1000.0 - timeInSeconds as real
  }

  /** `calculateScore` of the server: clamp at zero, then round. */
  function CalculateScore(diskCount: nat, playerMoves: int, timeInSeconds: int): (s: real)
    ensures playerMoves == 0 ==> s == 0.0
    ensures s >= 0.0
  {
    var minimumMoves := MinimumMoves(diskCount);
    if playerMoves == 0 then 0.0
    else
      var value := RawScore(minimumMoves, playerMoves, timeInSeconds);
      Round2IsMonotoneFixingZero();
      Round2Monotone(0.0, RealMax(0.0, value));
      Round2(RealMax(0.0, value))
  }

  // ---------------------------------------------------------------------
  // Client side (frontend/src/utils/score.js)
  // ---------------------------------------------------------------------

  /** `calculateScore` of the client: round, then clamp at zero. */
  function ClientScore(minimumMoves: int, playerMoves: int, timeInSeconds: int): (s: real)
    ensures playerMoves == 0 ==> s == 0.0
    ensures s >= 0.0
  {
    if playerMoves == 0 then 0.0
    else RealMax(0.0, Round2(RawScore(minimumMoves, playerMoves, timeInSeconds)))
  }

  /** `calculateAccuracy` of the client, given the minimum move count directly. */
  function ClientAccuracy(minimumMoves: int, playerMoves: int): (a: real)
    ensures playerMoves == 0 ==> a == 100.0
    ensures a <= 100.0
  {
    if playerMoves == 0 then 100.0
    else RealMin(100.0, Round2((minimumMoves as real / playerMoves as real) * 100.0))
  }

  // ---------------------------------------------------------------------
  // Properties
  // ---------------------------------------------------------------------

  /**
   * Clamping at zero and rounding commute for any monotone rounding that
   * keeps zero in place, so the order the two sides apply them in is immaterial.
   */
  lemma ClampRoundCommute(round: real -> real, x: real)
    requires MonotoneFixingZero(round)
    ensures RealMax(0.0, round(x)) == round(RealMax(0.0, x))
  {
    if x >= 0.0 {
      assert round(0.0) <= round(x);
    } else {
      assert round(x) <= round(0.0);
    }
  }

  /** The client and the server compute the same score for the same game. */
  lemma ClientScoreAgreesWithServer(diskCount: nat, playerMoves: int, timeInSeconds: int)
    ensures ClientScore(MinimumMoves(diskCount), playerMoves, timeInSeconds)
         == CalculateScore(diskCount, playerMoves, timeInSeconds)
  {
    if playerMoves != 0 {
      Round2IsMonotoneFixingZero();
      ClampRoundCommute(Round2, RawScore(MinimumMoves(diskCount), playerMoves, timeInSeconds));
    }
  }

  /** The client and the server compute the same accuracy for the same game. */
  lemma ClientAccuracyAgreesWithServer(diskCount: nat, playerMoves: int)
    ensures ClientAccuracy(MinimumMoves(diskCount), playerMoves) == GetAccuracy(diskCount, playerMoves)
  {
  }

  /** More moves never raise the accuracy. */
  lemma AccuracyNonIncreasingInMoves(diskCount: nat, m1: int, m2: int)
    requires 0 < m1 <= m2
    ensures GetAccuracy(diskCount, m2) <= GetAccuracy(diskCount, m1)
  {
    var minMoves := MinimumMoves(diskCount) as real;
    QuotientAntitone(minMoves, m1 as real, m2 as real);
    Round2Monotone((minMoves / m2 as real) * 100.0, (minMoves / m1 as real) * 100.0);
  }

  /** A slower finish never scores higher. */
  lemma ScoreNonIncreasingInTime(diskCount: nat, playerMoves: int, t1: int, t2: int)
    requires t1 <= t2
    ensures CalculateScore(diskCount, playerMoves, t2) <= CalculateScore(diskCount, playerMoves, t1)
  {
    if playerMoves != 0 {
      var m := MinimumMoves(diskCount);
      Round2Monotone(RealMax(0.0, RawScore(m, playerMoves, t2)), RealMax(0.0, RawScore(m, playerMoves, t1)));
    }
  }

  /** More moves never score higher. */
  lemma ScoreNonIncreasingInMoves(diskCount: nat, m1: int, m2: int, timeInSeconds: int)
    requires 0 < m1 <= m2
    ensures CalculateScore(diskCount, m2, timeInSeconds) <= CalculateScore(diskCount, m1, timeInSeconds)
  {
    var m := MinimumMoves(diskCount);
    QuotientAntitone(m as real, m1 as real, m2 as real);
    Round2Monotone(RealMax(0.0, RawScore(m, m2, timeInSeconds)), RealMax(0.0, RawScore(m, m1, timeInSeconds)));
  }

  /** At the optimal move count, the score is a thousand minus the elapsed seconds. */
  lemma ScoreAtOptimum(diskCount: nat, timeInSeconds: int)
    requires diskCount >= 1
    requires 0 <= timeInSeconds <= 1000
    ensures CalculateScore(diskCount, MinimumMoves(diskCount), timeInSeconds) == (1000 - timeInSeconds) as real
  {
    var m := MinimumMoves(diskCount);
    assert m >= 1;
    assert RawScore(m, m, timeInSeconds) == (1000 - timeInSeconds) as real;
    Round2OfInteger(1000 - timeInSeconds);
  }

  /** The worked examples: four disks solved optimally in 10 s, and in twice the moves in 50 s. */
  lemma ScoreExamples()
    ensures CalculateScore(4, 15, 10) == 990.0
    ensures GetAccuracy(4, 15) == 100.0
    ensures CalculateScore(4, 30, 50) == 450.0
    ensures GetAccuracy(4, 30) == 50.0
  {
    assert MinimumMoves(4) == 15 by {
      assert GameLogic.Pow2(4) == 16;
    }
    ScoreAtOptimum(4, 10);
    assert RawScore(15, 30, 50) == 450.0;
    Round2OfInteger(450);
    assert (15 as real / 30 as real) * 100.0 == 50.0;
    Round2OfInteger(50);
  }
}
