# graphle game logic in Dafny

Graphle is a browser game. Each day, and on demand in practice mode, it
draws a target function and plots it. The player types guesses until one
matches the plot. Everything lives in one script, `app.js`. This project
models that script's game logic and proves properties of it:

- **The seeded generator** (`generateFunction`), in modules `Lcg` and
  `Generator`.
  - `Lcg` holds the linear-congruential recurrence
    `seed := (seed * 9301 + 49297) % 233280`, `random()` and `randInt`. It has
    a class `Rng` whose methods change the seed in place, and functions that
    specify it.
  - `Generator` holds the four term pools (a tier name that is not one of
    the four known ones reuses the very-hard pool), the term count, the
    realised terms, the signs that join them and the constant offset.
    - `Generated` states the outcome of the draws as a plan and `Render`
      spells the plan out.
    - The imperative `Generate` draws in the same order as the source: term
      count, shuffle comparator calls, terms left to right, signs, offset.
      It is proved to return `Render(Generated(..))`.
    - Because `Generated` is a function, the same tier, seed and shuffle
      always give the same target.
- **`hashCode`** (module `Hash`): the 32-bit wrapping string hash that turns
  the date and the tier name into the daily seed. Its loop is proved equal
  to a polynomial hash reduced to a signed 32-bit integer.
- **The notation converters** (module `Notation`).
  - `convertToLatex` turns what the player types into formal notation.
  - `latexToReadable` turns the target back into plain text. For every
    target the generator can print, the readable form is proved to hold no
    `\`, `{` or `}`.
  - Each regular-expression replacement is modelled as a left-to-right,
    non-overlapping rewrite (module `Text`).
- **Metadata extraction** (module `Metadata`, `parseFunctionMetadata`): the
  term-type tags, the coefficients between 2 and 99, the trailing constant
  offset and the term count.
- **The similarity scorer** (module `Similarity`, `checkMathematicalSimilarity`).
  - It counts how many of 30 sample points in [-10, 10] the guess and the
    target agree at.
  - The evaluator is a parameter, and arithmetic is exact.
- **The score** (module `Scoring`, `calculateScore`).
- **The session** (module `Session`): one class `Game` with the globals the
  daily and practice screens share.
  - The globals are the two tier names, the target, the score, attempts,
    hints used and the metadata.
  - Its methods are the round loaders, the two submit handlers and the hint
    handler.
  - Each method keeps the class invariant: at most two hints, a score of 0
    or at least 10, and metadata that always describes the current target.

The shuffle of a tier's pool is a parameter `Shuffle(order, calls)`:

- `order` is the permutation the engine's sort produces.
- `calls` is how many times the sort called the comparator. Each call
  advances the generator by one draw.

A tier name other than the four known ones falls through to the very-hard
pool. Its offset range is undefined, so the source appends `NaN`. The model
keeps this as the `NotANumber` offset.

## Model

| member | source | states |
|---|---|---|
| Lcg.Step | app.js:42 | the next state is below 233280 |
| Lcg.Value | app.js:43 | `random()` lies in [0, 1) for a state below the modulus |
| Lcg.RandIntInRange | app.js:46 | `randInt(lo, hi)` lies in [lo, hi] |
| Lcg.RandIntIsDivision | app.js:46 | `randInt(lo, hi)` equals the integer quotient `s * (hi - lo + 1) / 233280 + lo` |
| Lcg.AboveThreshold | app.js:99 | `random() > 0.3` holds exactly when the new state exceeds 69984 |
| Lcg.RandIntAt | app.js:46 | `randInt(lo, hi)` from a given state: `floor(random() * (hi - lo + 1)) + lo`; `RandIntInRange` and `RandIntIsDivision` state its range and integer form |
| Lcg.Rng.constructor | app.js:40 | the generator starts from the given seed |
| Lcg.Rng.Random | app.js:41-44 | advances the seed by one step and returns its value in [0, 1) |
| Lcg.Rng.RandInt | app.js:46 | advances the seed by one step and returns `randInt` of the new state, within [lo, hi] |
| Lcg.Rng.Skip | app.js:92 | advances the seed once per comparator call of the shuffle |
| Hash.ToInt32 | app.js:34 | the result is a signed 32-bit integer congruent to the input modulo 2^32 |
| Hash.HashState | app.js:29-35 | the running hash is always a signed 32-bit integer |
| Hash.StringHash | app.js:36 | the absolute value of the hash is at most 2^31 |
| Hash.ShiftStep | app.js:33-34 | `(h << 5) - h + c`, wrapped to 32 bits, equals `31 * h + c` wrapped to 32 bits |
| Hash.HashStateIsWrappedPolynomial | app.js:29-35 | the hash of a string is its base-31 polynomial reduced to a signed 32-bit integer |
| Hash.HashCode | app.js:29-37 | the loop computes exactly `StringHash` of the string |
| Generator.Pool | app.js:51-88 | the templates of each tier, in the source's order, with unknown names on the very-hard list; `PoolDistinct` and `PoolRangesValid` state their properties |
| Generator.TermCount | app.js:58-88 | the range of `num_terms` per tier: 1-2, 2-3, 2-3, 3-4 |
| Generator.Join | app.js:97-101 | the first term, then each sign followed by the next term; `RenderedBodyEnd` states how it ends |
| Generator.Render | app.js:97-110 | the joined terms followed by the printed offset; `Generate` is proved to print exactly this |
| Generator.OffsetText | app.js:107-108 | nothing, `+`/`-` and the digits, or `NaN`; `OffsetTextSigned` states the sign rule |
| Generator.DrawAll | app.js:46 | one value is drawn per range |
| Generator.DrawAllOrder | app.js:52-88 | the i-th coefficient of a term is drawn by the (i+1)-th advance, coefficient before inner multiplier |
| Generator.DrawAllInRange | app.js:52-88 | every drawn coefficient lies in its range |
| Generator.Realise | app.js:52-88 | a realised term belongs to its template and has one value per range |
| Generator.RealiseAll | app.js:94 | the selected templates are realised in order, each well formed |
| Generator.Signs | app.js:97-101 | there is one sign per join, each `+` or `-` |
| Generator.SignsOrder | app.js:97-101 | the i-th sign is drawn by the (i+1)-th advance and is `+` exactly when `random() > 0.3`, `-` otherwise |
| Generator.Select | app.js:93 | the selection has `min(num_terms, pool size)` templates |
| Generator.Chosen | app.js:51-94 | the term count lies in the tier's range: 1-2, 2-3, 2-3 or 3-4, with unknown names like very hard |
| Generator.Generated | app.js:40-113 | the plan has well-formed terms, one `+` or `-` per join, and a term count within the tier's range |
| Generator.RealiseTerm | app.js:52-88 | the method prints the realised term and leaves the generator where `Realise` says |
| Generator.RealiseSelected | app.js:94 | the loop prints the terms `RealiseAll` realises, in order |
| Generator.JoinTerms | app.js:96-101 | the loop joins the terms with the signs `Signs` draws |
| Generator.AppendOffset | app.js:103-110 | one more draw, and the body followed by the printed offset of that draw |
| Generator.ChooseTerms | app.js:92-94 | draws the count, shuffles and prints the terms as `Chosen` says |
| Generator.Generate | app.js:40-113 | the target string is `Render(Generated(d, seed, shuffle))`, so a tier, seed and shuffle fix the target |
| Generator.PoolDistinct | app.js:51-88 | no tier's pool lists a template twice |
| Generator.PoolRangesValid | app.js:51-88 | every coefficient range in every pool is non-empty |
| Generator.GeneratedOrder | app.js:92-94 | the term count is the first `randInt` draw, at most the pool size, and term i uses the i-th template of the shuffled pool |
| Generator.GeneratedValuesInRange | app.js:52-94 | every coefficient of a generated target lies in its template's range |
| Generator.GeneratedTerms | app.js:92-94 | the terms come from the tier's pool, no template is used twice, and every coefficient lies in its range |
| Generator.GeneratedOffset | app.js:103-110 | no offset for easy; within ±30 for medium and ±50 for hard and very hard and never a zero constant; `NaN` for an unknown name |
| Generator.OffsetAtBounds | app.js:104-109 | one offset draw gives `NaN` for an unknown name, otherwise no offset or a non-zero constant within the tier's bound |
| Generator.TermTextEnd | app.js:52-87 | every printed term ends in `x`, `)` or `}` |
| Generator.RenderedBodyEnd | app.js:96-101 | the joined terms are non-empty and end where the last term ends |
| Generator.OffsetTextSigned | app.js:107-108 | the offset is printed with `+` only when positive, then its magnitude |
| Text.ReplaceAll | app.js:237-242 | a `/literal/g` replacement: left to right, non-overlapping; `ReplaceLeavesNoMatch`, `ReplaceConcat` and `ReplaceFront` state its properties |
| Text.ReplaceFrom | app.js:237-242 | the replacement from one position on |
| Text.ReplaceConcat | app.js:237-242 | a replacement splits at a point no occurrence of the pattern straddles |
| Text.ReplaceFront | app.js:237-242 | a text that starts with the pattern starts with the replacement |
| Text.DigitsValueOfNatToString | app.js:218 | `parseInt` of a printed natural number gives the number back |
| Text.ContainsIff | app.js:198 | `includes` holds exactly when the word occurs at some position |
| Text.ReplaceLeavesNoMatch | app.js:242 | a global replacement whose replacement cannot contain the pattern leaves no occurrence of it; this is why no `sqrt(` survives the `sqrt(` to `\sqrt{` step |
| Notation.LastIndexBefore | app.js:244 | `lastIndexOf` in a prefix: -1 exactly when the word does not occur ending inside the prefix, otherwise the last position where it does |
| Notation.LastFrom | app.js:244 | the last start of the word at or before a position, or -1 when it starts nowhere up to there |
| Notation.CloseAt | app.js:243-247 | the callback: a `)` with no `(` after it becomes `}` when the last `\sqrt{` before it is later than the last `}` |
| Notation.CloseRoots | app.js:243-248 | the callback applied at every position of the string as it was before the step |
| Notation.ConvertToLatex | app.js:235-249 | the seven replacements in the source's order; `ConvertToLatexHasNoStar`, `NoOpenSqrtRemains`, `NoSqrtKeepsParentheses`, `LogBecomesDoubleBackslash` and `NestedRootClosesTwice` state what it does |
| Notation.GroupReplace | app.js:256-257 | a `/open([^}]+)\}/g` replacement: each opening followed by a non-empty run without `}` and a `}` becomes `pre`, the run and `post` |
| Notation.GroupFront | app.js:256-257 | an opening, a non-empty run without `}` and a `}` become exactly `pre`, the run and `post` |
| Notation.GroupConcat | app.js:256-257 | the group replacement splits after a text whose groups close and that no opening straddles |
| Notation.LatexToReadable | app.js:251-259 | the six replacements in the source's order; `RenderReadable` states what they achieve |
| Notation.ReadableIsLatexToReadable | app.js:251-259 | the six steps applied one by one give `latexToReadable` |
| Notation.RenderReadable | app.js:251-259 | the readable form of any well-formed rendered plan contains no `\`, `{` or `}` |
| Notation.GeneratedReadable | app.js:251-259 | the readable form of every generated target contains no `\`, `{` or `}` |
| Notation.CloseRootsOnlyCloses | app.js:243-248 | the `)` rewrite keeps the length and only turns `)` into `}` |
| Notation.CloseRootsWithoutRoot | app.js:243-248 | without a `\sqrt{` the `)` rewrite changes nothing |
| Notation.ConvertToLatexHasNoStar | app.js:235-249 | the converted guess never contains `*` |
| Notation.NameStepCreatesNoSqrt | app.js:238-241 | a function-name replacement never creates `sqrt` |
| Notation.NoSqrtKeepsParentheses | app.js:235-249 | if the input without `*` holds no `sqrt`, the root steps change nothing and every `)` is kept |
| Notation.NoOpenSqrtRemains | app.js:242 | no `sqrt(` survives conversion: each becomes `\sqrt{` |
| Notation.LogBecomesDoubleBackslash | app.js:240-241 | `log(x)` becomes `\\ln(x)`, because the `ln(` step matches inside `\ln(` |
| Notation.NestedRootClosesTwice | app.js:243-248 | `sqrt(sin(x))` becomes `\sqrt{\sin(x}}`: both trailing `)` turn into `}` |
| Notation.CaretStepChangesNothing | app.js:258 | the last step of `latexToReadable` changes nothing |
| Metadata.Detected | app.js:199-205 | the seven tag tests; `Tags` states that a tag is present exactly when its test fires |
| Metadata.Numbers | app.js:207 | the maximal digit runs, left to right; `NumbersOfDigits` and `NumbersConcat` state its properties |
| Metadata.TrailingOffset | app.js:212-218 | a sign and a digit run at the very end, read as an integer; `OffsetReadBack` states the round trip |
| Metadata.Tags | app.js:199-205 | tags appear in the source's fixed order, and a tag is present exactly when its test fires |
| Metadata.LeadingDigits | app.js:207 | a digit run found by `\d+` is maximal |
| Metadata.Kept | app.js:209 | exactly the numbers between 2 and 99 are kept |
| Metadata.Coefficients | app.js:207-217 | the coefficients are `[1]` or all lie in 2..99, so never empty |
| Metadata.TrailingDigits | app.js:212 | the trailing digit run is maximal |
| Metadata.ParseMetadata | app.js:195-220 | the fields described below; `quadratic` is present exactly when the text contains `x^{2}` |
| Metadata.AscendingBound | app.js:199-205 | at most seven tags |
| Metadata.TagsDistinct | app.js:199-205 | no tag is listed twice |
| Metadata.OffsetReadBack | app.js:212-218 | a printed non-zero offset is read back exactly |
| Metadata.SuffixReadBack | app.js:212-218 | after a body ending in `x`, `)` or `}`, the trailing offset is the printed constant, and there is none for no offset or `NaN` |
| Metadata.NoTrailingOffset | app.js:212 | text ending in a non-digit has no trailing offset |
| Metadata.GeneratedOffsetReadBack | app.js:212-218 | parsing a generated target recovers the drawn constant offset, or 0 when there is none; the offset counts as a term exactly when it is a constant |
| Metadata.QuadraticTermLooksLinear | app.js:200 | a quadratic term such as `3x^{2}` is also tagged linear |
| Metadata.InnerMultiplierLooksLinear | app.js:200 | an inner multiplier such as `\sin(2x)` is tagged linear |
| Metadata.RootTermNotLinear | app.js:200 | `\sqrt{cx}` is not tagged linear, because its `x` is followed by `}` |
| Metadata.NumbersOfDigits | app.js:207 | a printed number is found as exactly one number |
| Metadata.NumbersConcat | app.js:207 | numbers in text split at a non-digit are those of each part |
| Similarity.Matches | app.js:300-318 | at most `n` of the first `n` samples count |
| Similarity.Similarity | app.js:295-321 | the similarity lies in [0, 1] |
| Similarity.CheckSimilarity | app.js:295-321 | the counting loop returns `matches / 30` |
| Similarity.Classify | app.js:358-377 | above 0.95 excellent, else above 0.7 pretty close, else not quite; `ClassifyByCount` states it in matched samples |
| Similarity.ClassifyByCount | app.js:358-377 | a match needs 29 or 30 samples, close needs 22 to 28, and 21 or fewer is not close |
| Similarity.MatchesNeedDefinedGuess | app.js:309-315 | a sample where the guess is not finite never counts |
| Similarity.MatchesNeedDefinedTarget | app.js:309-315 | a sample where the target is not finite never counts |
| Similarity.SelfSimilarity | app.js:295-321 | an expression compared with itself scores the share of samples where it is finite |
| Similarity.AllMatch | app.js:300-318 | all samples count exactly when every sample is a hit |
| Similarity.AgreeingGuessMatchesTarget | app.js:300-318 | a guess finite and agreeing wherever the target is finite scores the target's own similarity |
| Scoring.CalculateScore | app.js:380-388 | never below 10 nor below the base less 10 per extra attempt and 25 per hint, and above 10 exactly that difference, so `Math.max(difference, 10)`; at most the base for a counted attempt |
| Scoring.BaseScore | app.js:381-382 | 100, 200, 300 or 500 by tier, 100 for any other name; `FirstTryEarnsBase` and `UnknownScoresLikeEasy` state it |
| Scoring.FirstTryEarnsBase | app.js:380-388 | a first try without hints earns 100, 200, 300 or 500 |
| Scoring.UnknownScoresLikeEasy | app.js:382 | an unknown tier name scores like easy |
| Scoring.MoreAttemptsEarnNoMore | app.js:384 | the score does not increase with attempts |
| Scoring.MoreHintsEarnNoMore | app.js:385 | the score does not increase with hints |
| Session.Trim | app.js:345 | the result is a slice of the input with only white space outside it; it is empty exactly when every character is white space, and otherwise starts and ends with a non-blank |
| Session.Min | app.js:408 | `Math.min` of the coefficients is one of them and no larger than any |
| Session.Max | app.js:408 | `Math.max` of the coefficients is one of them and no smaller than any |
| Session.HintFor | app.js:401-411 | the text of hint 1 or 2 from the metadata; `HintContents` states what each shows |
| Session.HintContents | app.js:400-411 | hint 1 gives the term count and tags; hint 2 gives a coefficient range of 1 to 1 or within 2..99, and the offset only when non-zero; each leaves `2 - used` hints |
| Session.Game.constructor | app.js:8-16 | both tiers are easy, counters are zero, the target is empty and there is no metadata |
| Session.Game.StartRound | app.js:163-175 | the new target is the generated one, the counters are zero and the metadata describes the target |
| Session.Game.Load | app.js:164-175 | installs a target with fresh counters and its parsed metadata |
| Session.Game.LoadDifficultyChallenge | app.js:161-193 | the daily target is generated from the hash of the date followed by the tier name |
| Session.Game.SelectDifficulty | app.js:222-233 | remembers the daily tier and loads its round |
| Session.Game.NewPracticeGame | app.js:429-458 | generates a practice target for the practice tier and resets the counters |
| Session.Game.SelectPracticeDifficulty | app.js:418-427 | remembers the practice tier and starts a practice round |
| Session.Game.Submit | app.js:344-378 | a blank guess changes nothing; otherwise one attempt is counted and the `Similarity.Classify` verdict of the converted guess decides: excellent adds `calculateScore` of the counted attempt and reveals the readable answer, pretty close and not quite add nothing; the target, hints, metadata and both tier names stay |
| Session.Game.Attempt | app.js:352-377 | a non-blank guess counts one attempt, and the points and reply follow its `Similarity.Classify` verdict, with everything else unchanged |
| Session.Game.Judge | app.js:355-377 | the reply and points for one counted guess follow the `Similarity.Classify` verdict of its converted form: `calculateScore` and the readable answer when excellent, no points otherwise |
| Session.Game.SubmitGuess | app.js:344-378 | `Submit` with the daily tier: blank changes nothing; otherwise one attempt, and points, reply and answer by the verdict; metadata and both tier names stay |
| Session.Game.SubmitPracticeGuess | app.js:460-492 | `Submit` with the practice tier: blank changes nothing; otherwise one attempt, and points, reply and answer by the verdict; metadata and both tier names stay |
| Session.Game.GetHint | app.js:390-416 | with two hints spent, the answer is revealed and nothing changes; otherwise one more hint is spent and hint number `hintsUsed` is shown |

`ParseMetadata` states the following:

- the tags are in ascending order and there are at most seven of them;
- a tag is present exactly when its test fires;
- the coefficients are `[1]` or all lie in 2..99;
- `numTerms` is the number of tags, plus one when there is a trailing offset;
- `offset` is that offset, or 0 when there is none.

## Left out

- Floating point: `random()`, the sample positions and the tolerance test use exact reals. Rounding in `seed / 233280` and in the similarity arithmetic is not modelled.
- The order that `Array.prototype.sort` produces with a random comparator: the permutation and the number of comparator calls are the `Shuffle` parameter, constrained only to be a permutation of the pool.
- Non-integer seeds: the practice seed `Math.random() * 100000` is fractional in the source; the model takes a natural number seed.
- Evaluating an expression (`evaluateLatex`, which goes through `eval`): it is the `Evaluator` parameter, returning `None` for a non-finite value or a thrown error.
- The graph widget, previews, the DOM and all HTML text of feedback and hints: the model returns which reply is shown and its values.
- `randChoice`: defined but never called.
- `seededRandom`: never called.
- `hashCode` takes UTF-16 code units; the model hashes Dafny characters, which agree for characters in the Basic Multilingual Plane.
- Scoring.BaseScore: a tier name that is a property of every JavaScript object (such as `constructor`) is treated like any unknown name.
- `generateUserId`, `localStorage` and the user id: not used by the game logic.
- `Date` and `toISOString`: the date string is the `today` parameter.
- `loadDailyChallenge` and the page set-up only call the loaders and the widget.
- Share links (`btoa`, clipboard, timers), create mode and `switchMode`: browser features outside the game logic.
- Session.Game.GetHint: before any round is loaded the metadata is an empty object and the source's hint throws; the model returns `HintFailed` instead.
