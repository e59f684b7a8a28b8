/**
  Scoring and the gravity speed ramp of tetris.py:159-160, 178-181.
 */
module Scoring {

  /** `move_down_time` at the start of a game and after a restart (tetris.py:159, 248). */
  const InitialFallInterval: int := 500
  /** The floor of the speed ramp, in milliseconds (tetris.py:181). */
  const MinFallInterval: int := 100
  /** `move_side_time`: the repeat interval shared by held left, right and down (tetris.py:160). */
  const MoveSideTime: int := 100

  /** Points for clearing `n` rows with one lock: `n * 10 * n` (tetris.py:179). */
  function ScoreGain(n: nat): (points: nat)
    ensures points == 0 <==> n == 0
  {
    n * 10 * n
  }

  /** `max(100, 500 - (score // 100) * 50)` (tetris.py:181). */
  function FallInterval(score: nat): (t: int)
    ensures MinFallInterval <= t <= InitialFallInterval
  {
    var ramp := InitialFallInterval - (score / 100) * 50;
    if ramp < MinFallInterval then MinFallInterval else ramp
  }

  /** A higher score never gives a slower fall. */
  lemma FallIntervalMonotone(a: nat, b: nat)
    requires a <= b
    ensures FallInterval(b) <= FallInterval(a)
  {
  }

  /** 500 ms at score 0, 50 ms less per 100 points, never below 100 ms from 800 points on. */
  lemma FallIntervalSteps(score: nat)
    ensures FallInterval(0) == InitialFallInterval
    ensures score < 800 ==> FallInterval(score + 100) == FallInterval(score) - 50
    ensures score >= 800 ==> FallInterval(score) == MinFallInterval
  {
  }

  /** Clearing rows together scores more than clearing them one lock at a time. */
  lemma ScoreGainRewardsCombos(a: nat, b: nat)
    ensures ScoreGain(a + b) == ScoreGain(a) + ScoreGain(b) + 20 * a * b
  {
  }

  /** One lock clears at most 4 rows, so it scores at most 160. */
  lemma ScoreGainAtMostFour(n: nat)
    requires n <= 4
    ensures ScoreGain(n) <= ScoreGain(4) == 160
  {
  }

  /** Every cleared row scores at least 10 points. */
  lemma ScoreGainPositive(n: nat)
    ensures ScoreGain(n) >= 10 * n
  {
  }
}
