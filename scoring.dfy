/** `calculateScore`: the points a correct guess earns. */
module Scoring {
  import opened Generator

  /** `baseScores[difficulty] || 100`. */
  function BaseScore(d: Difficulty): nat
  {
    match d
    case Easy => 100
    case Medium => 200
    case Hard => 300
    case VeryHard => 500
    case Unknown => 100
  }

  /** The base, less 10 per attempt after the first and 25 per hint, but
      never below 10. */
  function CalculateScore(difficulty: string, attempts: int, hints: int): (points: int)
    ensures points >= 10
    ensures points >= BaseScore(TierOf(difficulty)) - (attempts - 1) * 10 - hints * 25
    ensures attempts >= 1 && hints >= 0 ==> points <= BaseScore(TierOf(difficulty))
    ensures points > 10 ==> points + (attempts - 1) * 10 + hints * 25 == BaseScore(TierOf(difficulty))
  {
    var score := BaseScore(TierOf(difficulty)) - (attempts - 1) * 10 - hints * 25;
    if score > 10 then score else 10
  }

  /** A first-try guess without hints earns the full base. */
  lemma FirstTryEarnsBase(difficulty: string)
    ensures CalculateScore(difficulty, 1, 0) == BaseScore(TierOf(difficulty))
    ensures CalculateScore("easy", 1, 0) == 100
    ensures CalculateScore("medium", 1, 0) == 200
    ensures CalculateScore("hard", 1, 0) == 300
    ensures CalculateScore("very_hard", 1, 0) == 500
  {
  }

  /** Any other name scores like easy. */
  lemma UnknownScoresLikeEasy(difficulty: string, attempts: int, hints: int)
    requires TierOf(difficulty) == Unknown
    ensures CalculateScore(difficulty, attempts, hints) == CalculateScore("easy", attempts, hints)
  {
  }

  /** More attempts never earn more. */
  lemma MoreAttemptsEarnNoMore(difficulty: string, a1: int, a2: int, hints: int)
    requires a1 <= a2
    ensures CalculateScore(difficulty, a2, hints) <= CalculateScore(difficulty, a1, hints)
  {
  }

  /** More hints never earn more. */
  lemma MoreHintsEarnNoMore(difficulty: string, attempts: int, h1: int, h2: int)
    requires h1 <= h2
    ensures CalculateScore(difficulty, attempts, h2) <= CalculateScore(difficulty, attempts, h1)
  {
  }
}
