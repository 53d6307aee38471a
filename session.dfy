/** The round state that the daily and the practice screens share: one
    target, one attempt counter, one hint counter, one score and the
    metadata of the target. Loading a round resets the counters; a guess
    counts an attempt and may score; a hint spends one of two. */
module Session {
  import opened Wrappers
  import opened Generator
  import Hash
  import Notation
  import M = Metadata
  import Similarity
  import Scoring

  // ----- String.prototype.trim -----

  /** The characters `trim` removes: white space (tab, vertical tab, form
      feed, space, no-break space, the Unicode space separators U+1680,
      U+2000 to U+200A, U+202F, U+205F, U+3000, and the byte order mark)
      and line terminators (line feed, carriage return, U+2028, U+2029). */
  const TrimmedChars: set<char> := {
    '\t', '\n', '\U{000B}', '\U{000C}', '\r', ' ', '\U{00A0}', '\U{1680}',
    '\U{2000}', '\U{2001}', '\U{2002}', '\U{2003}', '\U{2004}', '\U{2005}',
    '\U{2006}', '\U{2007}', '\U{2008}', '\U{2009}', '\U{200A}',
    '\U{2028}', '\U{2029}', '\U{202F}', '\U{205F}', '\U{3000}', '\U{FEFF}'
  }

  predicate IsTrimmed(c: char)
  {
    c in TrimmedChars
  }

  function TrimStart(s: string): (r: string)
    ensures |r| <= |s| && r == s[|s| - |r|..]
    ensures r == [] || !IsTrimmed(r[0])
    ensures forall i :: 0 <= i < |s| - |r| ==> IsTrimmed(s[i])
  {
    if s != [] && IsTrimmed(s[0]) then
      var r := TrimStart(s[1..]);
      assert s[1..][|s| - 1 - |r|..] == s[|s| - |r|..];
      assert forall i :: 1 <= i < |s| - |r| ==> s[1..][i - 1] == s[i];
      r
    else s
  }

  function TrimEnd(s: string): (r: string)
    ensures |r| <= |s| && r == s[..|r|]
    ensures r == [] || !IsTrimmed(r[|r| - 1])
    ensures forall i :: |r| <= i < |s| ==> IsTrimmed(s[i])
  {
    if s != [] && IsTrimmed(s[|s| - 1]) then TrimEnd(s[..|s| - 1]) else s
  }

  /** `s.trim()`: `s` with the white space at both ends cut off, so empty
      exactly when `s` is all white space. */
  function Trim(s: string): (r: string)
    ensures r == [] <==> forall i :: 0 <= i < |s| ==> IsTrimmed(s[i])
    ensures r != [] ==> !IsTrimmed(r[0]) && !IsTrimmed(r[|r| - 1])
    ensures exists a :: Cut(s, r, a)
  {
    TrimSpec(s);
    TrimEnd(TrimStart(s))
  }

  lemma TrimSpec(s: string)
    ensures var r := TrimEnd(TrimStart(s));
      && (r == [] <==> forall i :: 0 <= i < |s| ==> IsTrimmed(s[i]))
      && (r != [] ==> !IsTrimmed(r[0]) && !IsTrimmed(r[|r| - 1]))
      && exists a :: Cut(s, r, a)
  {
    TrimFacts(s);
    TrimCut(s);
  }

  /** `r` is `s[a..]` up to its end, and what lies outside it is white space. */
  predicate Cut(s: string, r: string, a: int)
  {
    && 0 <= a && a + |r| <= |s| && r == s[a..a + |r|]
    && (forall i :: 0 <= i < a ==> IsTrimmed(s[i]))
    && (forall i :: a + |r| <= i < |s| ==> IsTrimmed(s[i]))
  }

  lemma TrimFacts(s: string)
    ensures TrimEnd(TrimStart(s)) == [] <==> forall i :: 0 <= i < |s| ==> IsTrimmed(s[i])
    ensures var r := TrimEnd(TrimStart(s)); r != [] ==> !IsTrimmed(r[0]) && !IsTrimmed(r[|r| - 1])
  {
    var t := TrimStart(s);
    var r := TrimEnd(t);
    if r == [] {
      // all of `t` is trailing white space, yet `t` cannot start with any
      assert |t| == 0;
    } else {
      assert r[0] == t[0];
      assert s[|s| - |t|] == t[0];
    }
  }

  /** What `trim` keeps starts where `TrimStart` stopped. */
  lemma TrimCut(s: string)
    ensures exists a :: Cut(s, TrimEnd(TrimStart(s)), a)
  {
    var t := TrimStart(s);
    SuffixCut(s, t, TrimEnd(t));
  }

  /** A prefix `r` of a suffix `t` of `s`, with white space before `t` in
      `s` and after `r` in `t`, is cut out of `s` where `t` starts. */
  lemma SuffixCut(s: string, t: string, r: string)
    requires |t| <= |s| && t == s[|s| - |t|..]
    requires |r| <= |t| && r == t[..|r|]
    requires forall i :: 0 <= i < |s| - |t| ==> IsTrimmed(s[i])
    requires forall i :: |r| <= i < |t| ==> IsTrimmed(t[i])
    ensures Cut(s, r, |s| - |t|)
  {
    var a := |s| - |t|;
    assert s[a..][..|r|] == s[a..a + |r|];
    forall i | a + |r| <= i < |s|
      ensures IsTrimmed(s[i])
    {
      assert s[i] == t[i - a];
    }
  }

  // ----- Math.min / Math.max over the coefficients -----

  function Min(xs: seq<nat>): (m: nat)
    requires |xs| >= 1
    ensures m in xs && forall i :: 0 <= i < |xs| ==> m <= xs[i]
  {
    if |xs| == 1 then xs[0]
    else
      var rest := Min(xs[1..]);
      assert rest in xs;
      if xs[0] <= rest then xs[0] else rest
  }

  function Max(xs: seq<nat>): (m: nat)
    requires |xs| >= 1
    ensures m in xs && forall i :: 0 <= i < |xs| ==> xs[i] <= m
  {
    if |xs| == 1 then xs[0]
    else
      var rest := Max(xs[1..]);
      assert rest in xs;
      if xs[0] >= rest then xs[0] else rest
  }

  // ----- what the player is shown -----

  datatype Feedback =
    | EnterAFunction                          // the guess was blank
    | Excellent(points: int, answer: string)  // similarity above 0.95
    | PrettyClose                             // above 0.7
    | NotQuite

  datatype HintReply =
    | NoMoreHints(answer: string)
    | TermsHint(hintsLeft: int, numTerms: nat, types: seq<M.TermType>)
    | CoefficientsHint(hintsLeft: int, low: nat, high: nat, offset: Option<int>)
    | HintFailed(hintsLeft: int)              // no metadata yet: the page throws

  /** The hint shown when hint number `used` has just been spent. */
  function HintFor(metadata: Option<M.Metadata>, used: int): HintReply
    requires metadata.Some? ==> |metadata.value.coefs| >= 1
  {
    if metadata.None? then HintFailed(2 - used)
    else
      var m := metadata.value;
      if used == 1 then TermsHint(2 - used, m.numTerms, m.types)
      else CoefficientsHint(2 - used, Min(m.coefs), Max(m.coefs),
                            if m.offset != 0 then Some(m.offset) else None)
  }

  class Game {
    var currentDifficulty: string
    var practiceDifficulty: string
    var targetFunction: string
    var score: int
    var attempts: int
    var hintsUsed: int
    /** `functionMetadata`, `{}` until the first round is loaded. */
    var functionMetadata: Option<M.Metadata>

    /** At most two hints, a score that is zero or holds at least one award,
        and metadata that describes the current target. */
    ghost predicate Valid()
      reads this
    {
      && 0 <= hintsUsed <= 2
      && attempts >= 0
      && (score == 0 || score >= 10)
      && (functionMetadata.Some? ==> functionMetadata.value == M.ParseMetadata(targetFunction))
    }

    constructor()
      ensures Valid()
      ensures currentDifficulty == "easy" && practiceDifficulty == "easy"
      ensures targetFunction == "" && score == 0 && attempts == 0 && hintsUsed == 0
      ensures functionMetadata == None
    {
      currentDifficulty := "easy";
      practiceDifficulty := "easy";
      targetFunction := "";
      score := 0;
      attempts := 0;
      hintsUsed := 0;
      functionMetadata := None;
    }

    /** A fresh round for `difficulty` from the given seed: the counters
        restart and the metadata describes the new target. */
    method StartRound(difficulty: string, seed: nat, sh: Shuffle)
      requires IsPermutation(sh.order, |Pool(TierOf(difficulty))|)
      modifies this
      ensures targetFunction == Render(Generated(TierOf(difficulty), seed, sh))
      ensures hintsUsed == 0 && attempts == 0 && score == 0
      ensures functionMetadata == Some(M.ParseMetadata(targetFunction))
      ensures currentDifficulty == old(currentDifficulty)
      ensures practiceDifficulty == old(practiceDifficulty)
      ensures Valid()
    {
      var target := Generate(TierOf(difficulty), seed, sh);
      Load(target);
    }

    /** The state both loaders leave behind: the new target, its metadata,
        and the counters back at zero. */
    method Load(target: string)
      modifies this
      ensures targetFunction == target
      ensures hintsUsed == 0 && attempts == 0 && score == 0
      ensures functionMetadata == Some(M.ParseMetadata(target))
      ensures currentDifficulty == old(currentDifficulty)
      ensures practiceDifficulty == old(practiceDifficulty)
      ensures Valid()
    {
      targetFunction, functionMetadata := target, Some(M.ParseMetadata(target));
      hintsUsed, attempts, score := 0, 0, 0;
    }

    /** `loadDifficultyChallenge`: the daily seed is the hash of the date
        (`YYYY-MM-DD`) followed by the difficulty name. */
    method LoadDifficultyChallenge(today: string, difficulty: string, sh: Shuffle)
      requires IsPermutation(sh.order, |Pool(TierOf(difficulty))|)
      modifies this
      ensures targetFunction ==
        Render(Generated(TierOf(difficulty), Hash.StringHash(today + difficulty), sh))
      ensures hintsUsed == 0 && attempts == 0 && score == 0
      ensures functionMetadata == Some(M.ParseMetadata(targetFunction))
      ensures currentDifficulty == old(currentDifficulty)
      ensures practiceDifficulty == old(practiceDifficulty)
      ensures Valid()
    {
      var seed := Hash.HashCode(today + difficulty);
      StartRound(difficulty, seed, sh);
    }

    /** `selectDifficulty`: remember the daily tier, then load its round. */
    method SelectDifficulty(today: string, difficulty: string, sh: Shuffle)
      requires IsPermutation(sh.order, |Pool(TierOf(difficulty))|)
      modifies this
      ensures currentDifficulty == difficulty
      ensures targetFunction ==
        Render(Generated(TierOf(difficulty), Hash.StringHash(today + difficulty), sh))
      ensures hintsUsed == 0 && attempts == 0 && score == 0
      ensures functionMetadata == Some(M.ParseMetadata(targetFunction))
      ensures practiceDifficulty == old(practiceDifficulty)
      ensures Valid()
    {
      currentDifficulty := difficulty;
      LoadDifficultyChallenge(today, difficulty, sh);
    }

    /** `newPracticeGame`, with the random seed given. */
    method NewPracticeGame(seed: nat, sh: Shuffle)
      requires IsPermutation(sh.order, |Pool(TierOf(practiceDifficulty))|)
      modifies this
      ensures practiceDifficulty == old(practiceDifficulty)
      ensures targetFunction == Render(Generated(TierOf(practiceDifficulty), seed, sh))
      ensures hintsUsed == 0 && attempts == 0 && score == 0
      ensures functionMetadata == Some(M.ParseMetadata(targetFunction))
      ensures currentDifficulty == old(currentDifficulty)
      ensures Valid()
    {
      StartRound(practiceDifficulty, seed, sh);
    }

    /** `selectPracticeDifficulty`: remember the practice tier, then start. */
    method SelectPracticeDifficulty(difficulty: string, seed: nat, sh: Shuffle)
      requires IsPermutation(sh.order, |Pool(TierOf(difficulty))|)
      modifies this
      ensures practiceDifficulty == difficulty
      ensures targetFunction == Render(Generated(TierOf(difficulty), seed, sh))
      ensures hintsUsed == 0 && attempts == 0 && score == 0
      ensures functionMetadata == Some(M.ParseMetadata(targetFunction))
      ensures currentDifficulty == old(currentDifficulty)
      ensures Valid()
    {
      practiceDifficulty := difficulty;
      NewPracticeGame(seed, sh);
    }

    /** One guess, scored against `difficulty`: blank input changes nothing;
        otherwise the attempt counts, and the class of the similarity decides
        the reply: a match adds the points of this attempt and reveals the
        answer. */
    method Submit(input: string, difficulty: string, eval: Similarity.Evaluator)
      returns (feedback: Feedback)
      requires Valid()
      modifies this
      ensures Valid()
      ensures targetFunction == old(targetFunction) && hintsUsed == old(hintsUsed)
      ensures functionMetadata == old(functionMetadata)
      ensures currentDifficulty == old(currentDifficulty)
      ensures practiceDifficulty == old(practiceDifficulty)
      ensures Trim(input) == [] ==>
        feedback == EnterAFunction && attempts == old(attempts) && score == old(score)
      ensures Trim(input) != [] ==>
        var verdict := Similarity.Classify(
          Similarity.Similarity(eval, Notation.ConvertToLatex(Trim(input)), targetFunction));
        var points := Scoring.CalculateScore(difficulty, attempts, hintsUsed);
        && attempts == old(attempts) + 1
        && (verdict.Excellent? ==>
              score == old(score) + points
              && feedback == Excellent(points, Notation.LatexToReadable(targetFunction)))
        && (!verdict.Excellent? ==> score == old(score))
        && (verdict.PrettyClose? ==> feedback == PrettyClose)
        && (verdict.NotQuite? ==> feedback == NotQuite)
    {
      var guess := Trim(input);
      if guess == [] {
        feedback := EnterAFunction;
      } else {
        feedback := Attempt(guess, difficulty, eval);
      }
    }

    /** A non-empty guess: the attempt counts and the verdict decides the
        reply and the points. */
    method Attempt(guess: string, difficulty: string, eval: Similarity.Evaluator)
      returns (feedback: Feedback)
      requires Valid()
      modifies this
      ensures Valid()
      ensures targetFunction == old(targetFunction) && hintsUsed == old(hintsUsed)
      ensures functionMetadata == old(functionMetadata)
      ensures currentDifficulty == old(currentDifficulty)
      ensures practiceDifficulty == old(practiceDifficulty)
      ensures
        var verdict := Similarity.Classify(
          Similarity.Similarity(eval, Notation.ConvertToLatex(guess), targetFunction));
        var points := Scoring.CalculateScore(difficulty, attempts, hintsUsed);
        && attempts == old(attempts) + 1
        && (verdict.Excellent? ==>
              score == old(score) + points
              && feedback == Excellent(points, Notation.LatexToReadable(targetFunction)))
        && (!verdict.Excellent? ==> score == old(score))
        && (verdict.PrettyClose? ==> feedback == PrettyClose)
        && (verdict.NotQuite? ==> feedback == NotQuite)
    {
      var tries := attempts + 1;
      var gained;
      feedback, gained := Judge(guess, difficulty, eval, tries);
      attempts, score := tries, score + gained;
    }

    /** Compares a non-empty guess with the target once the attempt is
        counted: the reply, and the points it adds to the score. */
    method Judge(guess: string, difficulty: string, eval: Similarity.Evaluator, tries: int)
      returns (feedback: Feedback, gained: nat)
      ensures
        var verdict := Similarity.Classify(
          Similarity.Similarity(eval, Notation.ConvertToLatex(guess), targetFunction));
        var points := Scoring.CalculateScore(difficulty, tries, hintsUsed);
        && (verdict.Excellent? ==>
              gained == points
              && feedback == Excellent(points, Notation.LatexToReadable(targetFunction)))
        && (!verdict.Excellent? ==> gained == 0)
        && (verdict.PrettyClose? ==> feedback == PrettyClose)
        && (verdict.NotQuite? ==> feedback == NotQuite)
    {
      var latexGuess := Notation.ConvertToLatex(guess);
      var similarity := Similarity.CheckSimilarity(eval, latexGuess, targetFunction);
      gained := 0;
      if similarity > 0.95 {
        gained := Scoring.CalculateScore(difficulty, tries, hintsUsed);
        feedback := Excellent(gained, Notation.LatexToReadable(targetFunction));
      } else if similarity > 0.7 {
        feedback := PrettyClose;
      } else {
        feedback := NotQuite;
      }
    }

    /** `submitGuess`: scored against the daily tier. */
    method SubmitGuess(input: string, eval: Similarity.Evaluator) returns (feedback: Feedback)
      requires Valid()
      modifies this
      ensures Valid()
      ensures targetFunction == old(targetFunction) && hintsUsed == old(hintsUsed)
      ensures functionMetadata == old(functionMetadata)
      ensures currentDifficulty == old(currentDifficulty)
      ensures practiceDifficulty == old(practiceDifficulty)
      ensures Trim(input) == [] ==>
        feedback == EnterAFunction && attempts == old(attempts) && score == old(score)
      ensures Trim(input) != [] ==>
        var verdict := Similarity.Classify(
          Similarity.Similarity(eval, Notation.ConvertToLatex(Trim(input)), targetFunction));
        var points := Scoring.CalculateScore(currentDifficulty, attempts, hintsUsed);
        && attempts == old(attempts) + 1
        && (verdict.Excellent? ==>
              score == old(score) + points
              && feedback == Excellent(points, Notation.LatexToReadable(targetFunction)))
        && (!verdict.Excellent? ==> score == old(score))
        && (verdict.PrettyClose? ==> feedback == PrettyClose)
        && (verdict.NotQuite? ==> feedback == NotQuite)
    {
      feedback := Submit(input, currentDifficulty, eval);
    }

    /** `submitPracticeGuess`: scored against the practice tier. */
    method SubmitPracticeGuess(input: string, eval: Similarity.Evaluator) returns (feedback: Feedback)
      requires Valid()
      modifies this
      ensures Valid()
      ensures targetFunction == old(targetFunction) && hintsUsed == old(hintsUsed)
      ensures functionMetadata == old(functionMetadata)
      ensures currentDifficulty == old(currentDifficulty)
      ensures practiceDifficulty == old(practiceDifficulty)
      ensures Trim(input) == [] ==>
        feedback == EnterAFunction && attempts == old(attempts) && score == old(score)
      ensures Trim(input) != [] ==>
        var verdict := Similarity.Classify(
          Similarity.Similarity(eval, Notation.ConvertToLatex(Trim(input)), targetFunction));
        var points := Scoring.CalculateScore(practiceDifficulty, attempts, hintsUsed);
        && attempts == old(attempts) + 1
        && (verdict.Excellent? ==>
              score == old(score) + points
              && feedback == Excellent(points, Notation.LatexToReadable(targetFunction)))
        && (!verdict.Excellent? ==> score == old(score))
        && (verdict.PrettyClose? ==> feedback == PrettyClose)
        && (verdict.NotQuite? ==> feedback == NotQuite)
    {
      feedback := Submit(input, practiceDifficulty, eval);
    }

    /** `getHint` (and `getPracticeHint`, the same code): with both hints
        spent, reveal the answer and change nothing; otherwise spend one and
        show hint number `hintsUsed`. */
    method GetHint() returns (reply: HintReply)
      requires Valid()
      modifies this
      ensures Valid()
      ensures targetFunction == old(targetFunction) && attempts == old(attempts)
      ensures score == old(score) && functionMetadata == old(functionMetadata)
      ensures currentDifficulty == old(currentDifficulty)
      ensures practiceDifficulty == old(practiceDifficulty)
      ensures old(hintsUsed) >= 2 ==>
        hintsUsed == old(hintsUsed)
        && reply == NoMoreHints(Notation.LatexToReadable(targetFunction))
      ensures old(hintsUsed) < 2 ==>
        hintsUsed == old(hintsUsed) + 1 && reply == HintFor(functionMetadata, hintsUsed)
    {
      if hintsUsed >= 2 {
        return NoMoreHints(Notation.LatexToReadable(targetFunction));
      }
      hintsUsed := hintsUsed + 1;
      reply := HintFor(functionMetadata, hintsUsed);
    }
  }

  // ----- properties -----

  /** Hint one shows the term count and tags; hint two the range of the
      coefficients, which lies in 2..99 or is exactly 1 to 1, and the offset
      when it is not zero; each leaves `2 - used` hints. */
  lemma HintContents(latex: string, used: int)
    requires used == 1 || used == 2
    ensures HintFor(Some(M.ParseMetadata(latex)), used).hintsLeft == 2 - used
    ensures used == 1 ==> HintFor(Some(M.ParseMetadata(latex)), used).TermsHint?
    ensures used == 2 ==>
      var h := HintFor(Some(M.ParseMetadata(latex)), used);
      && h.CoefficientsHint?
      && h.low <= h.high
      && ((h.low == 1 && h.high == 1) || (2 <= h.low && h.high <= 99))
      && (h.offset.Some? ==> h.offset.value != 0 && Some(h.offset.value) == M.TrailingOffset(latex))
  {
    var m := M.ParseMetadata(latex);
    if used == 2 {
      assert Min(m.coefs) in m.coefs && Max(m.coefs) in m.coefs;
    }
  }
}
