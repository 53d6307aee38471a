/** `checkMathematicalSimilarity`: the share of 30 evenly spaced sample
    points in [-10, 10] where guess and target agree. Evaluating an
    expression is left abstract: `None` stands for a value that is NaN or
    infinite, or for an evaluation that throws. Arithmetic is exact. */
module Similarity {
  import opened Wrappers

  /** Evaluates an expression in the formal notation at a point. */
  type Evaluator = (string, real) -> Option<real>

  const SamplePoints: nat := 30
  const Tolerance: real := 0.1

  /** `-10 + 20 * i / (samplePoints - 1)`. */
  function SampleX(i: nat): real
  {
    -10.0 + (20 * i) as real / 29.0
  }

  function Abs(r: real): real { if r < 0.0 then -r else r }

  /** Within 0.1, or within 1% of `|target| + 1`. */
  predicate Agree(guessY: real, targetY: real)
  {
    var diff := Abs(guessY - targetY);
    diff < Tolerance || diff / (Abs(targetY) + 1.0) < 0.01
  }

  /** Sample `i` counts: both values finite and agreeing. */
  predicate Hit(eval: Evaluator, guess: string, target: string, i: nat)
  {
    var g := eval(guess, SampleX(i));
    var t := eval(target, SampleX(i));
    g.Some? && t.Some? && Agree(g.value, t.value)
  }

  /** How many of the first `n` samples count. */
  function Matches(eval: Evaluator, guess: string, target: string, n: nat): (m: nat)
    ensures m <= n
  {
    if n == 0 then 0
    else Matches(eval, guess, target, n - 1) + (if Hit(eval, guess, target, n - 1) then 1 else 0)
  }

  /** `matches / samplePoints`. */
  function Similarity(eval: Evaluator, guess: string, target: string): (r: real)
    ensures 0.0 <= r <= 1.0
  {
    Matches(eval, guess, target, SamplePoints) as real / SamplePoints as real
  }

  /** The counting loop. */
  method CheckSimilarity(eval: Evaluator, guess: string, target: string) returns (r: real)
    ensures r == Similarity(eval, guess, target)
    ensures 0.0 <= r <= 1.0
  {
    var matches := 0;
    for i := 0 to SamplePoints
      invariant matches == Matches(eval, guess, target, i)
    {
      var guessY := eval(guess, SampleX(i));
      var targetY := eval(target, SampleX(i));
      if guessY.Some? && targetY.Some? {
        var diff := Abs(guessY.value - targetY.value);
        var relativeDiff := diff / (Abs(targetY.value) + 1.0);
        if diff < Tolerance || relativeDiff < 0.01 {
          matches := matches + 1;
        }
      }
    }
    r := matches as real / SamplePoints as real;
  }

  // ----- outcome classes -----

  datatype Verdict = Excellent | PrettyClose | NotQuite

  /** `similarity > 0.95` is a match, `> 0.7` is close. */
  function Classify(similarity: real): Verdict
  {
    if similarity > 0.95 then Excellent
    else if similarity > 0.7 then PrettyClose
    else NotQuite
  }

  /** In counts: a match needs 29 of the 30 samples, close needs 22 to 28. */
  lemma ClassifyByCount(m: nat)
    requires m <= SamplePoints
    ensures Classify(m as real / 30.0) == Excellent <==> m >= 29
    ensures Classify(m as real / 30.0) == PrettyClose <==> 22 <= m <= 28
    ensures Classify(m as real / 30.0) == NotQuite <==> m <= 21
  {
  }

  // ----- lemmas -----

  predicate Defined(eval: Evaluator, e: string, i: nat)
  {
    eval(e, SampleX(i)).Some?
  }

  /** How many of the first `n` samples evaluate finitely. */
  function DefinedCount(eval: Evaluator, e: string, n: nat): (c: nat)
    ensures c <= n
  {
    if n == 0 then 0
    else DefinedCount(eval, e, n - 1) + (if Defined(eval, e, n - 1) then 1 else 0)
  }

  /** A sample where the guess is not finite never counts but stays in the
      denominator. */
  lemma {:induction false} MatchesNeedDefinedGuess(eval: Evaluator, guess: string, target: string, n: nat)
    ensures Matches(eval, guess, target, n) <= DefinedCount(eval, guess, n)
  {
    if n > 0 {
      MatchesNeedDefinedGuess(eval, guess, target, n - 1);
    }
  }

  /** The same for the target. */
  lemma {:induction false} MatchesNeedDefinedTarget(eval: Evaluator, guess: string, target: string, n: nat)
    ensures Matches(eval, guess, target, n) <= DefinedCount(eval, target, n)
  {
    if n > 0 {
      MatchesNeedDefinedTarget(eval, guess, target, n - 1);
    }
  }

  /** An expression compared with itself matches exactly where it is finite. */
  lemma {:induction false} SelfMatches(eval: Evaluator, e: string, n: nat)
    ensures Matches(eval, e, e, n) == DefinedCount(eval, e, n)
  {
    if n > 0 {
      SelfMatches(eval, e, n - 1);
      assert Abs(0.0) == 0.0;
    }
  }

  lemma SelfSimilarity(eval: Evaluator, e: string)
    ensures Similarity(eval, e, e) == DefinedCount(eval, e, SamplePoints) as real / 30.0
  {
    SelfMatches(eval, e, SamplePoints);
  }

  /** All of the first `n` samples count exactly when the count is `n`. */
  lemma {:induction false} AllMatch(eval: Evaluator, guess: string, target: string, n: nat)
    ensures Matches(eval, guess, target, n) == n <==>
      forall i :: 0 <= i < n ==> Hit(eval, guess, target, i)
  {
    if n > 0 {
      AllMatch(eval, guess, target, n - 1);
    }
  }

  /** A guess that agrees everywhere the target is finite, and is finite
      there too, scores the target's own similarity. */
  lemma {:induction false} AgreeingGuessMatchesTarget(eval: Evaluator, guess: string, target: string, n: nat)
    requires forall i :: 0 <= i < n && Defined(eval, target, i) ==>
      Defined(eval, guess, i) &&
      Agree(eval(guess, SampleX(i)).value, eval(target, SampleX(i)).value)
    ensures Matches(eval, guess, target, n) == DefinedCount(eval, target, n)
  {
    if n > 0 {
      AgreeingGuessMatchesTarget(eval, guess, target, n - 1);
    }
  }
}
