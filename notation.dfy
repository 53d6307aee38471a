/** The two notation converters: `convertToLatex` turns what the player
    types into the formal notation the graph widget and the scorer read;
    `latexToReadable` turns a formal expression back into plain text for
    the reveal. Both are chains of global regular-expression replacements,
    modelled step by step as left-to-right, non-overlapping rewrites. */
module Notation {
  import opened Text
  import Generator

  // ----- convertToLatex -----

  /** Every `*` removed (the first replacement). */
  function StripStars(s: string): string
  {
    ReplaceAll(s, "*", "")
  }

  /** The four function-name replacements, in source order. `log(` becomes
      `\ln(`, and the next step then finds the `ln(` inside it. */
  function ConvertNames(s: string): string
  {
    var sines := ReplaceAll(s, "sin(", "\\sin(");
    var cosines := ReplaceAll(sines, "cos(", "\\cos(");
    var logs := ReplaceAll(cosines, "log(", "\\ln(");
    ReplaceAll(logs, "ln(", "\\ln(")
  }

  /** `.replace(/sqrt\(/g, '\\sqrt{')`. */
  function OpenRoots(s: string): string
  {
    ReplaceAll(s, "sqrt(", "\\sqrt{")
  }

  /** `s.substring(0, j).lastIndexOf(w)` for a non-empty `w`: the last start
      `i` with `s[i..i+|w|] == w` and `i + |w| <= j`, or -1 when there is
      none. */
  function LastIndexBefore(s: string, w: string, j: nat): (r: int)
    requires |w| > 0 && j <= |s|
    ensures r == -1 || (0 <= r && r + |w| <= j && OccursAt(s, w, r))
    ensures r >= 0 ==> forall k :: r < k && k + |w| <= j ==> !OccursAt(s, w, k)
    ensures r == -1 ==> forall k :: k + |w| <= j ==> !OccursAt(s, w, k)
  {
    LastFrom(s, w, j - |w|)
  }

  /** The last start at or before `i`, or -1. */
  function LastFrom(s: string, w: string, i: int): (r: int)
    requires |w| > 0 && i + |w| <= |s|
    ensures r == -1 || (0 <= r <= i && OccursAt(s, w, r))
    ensures forall k :: r < k <= i ==> !OccursAt(s, w, k)
    decreases i + 1
  {
    if i < 0 then -1
    else if MatchAt(s, w, i, 0) then (MatchAtIsSlice(s, w, i, 0); i)
    else (MatchAtIsSlice(s, w, i, 0); LastFrom(s, w, i - 1))
  }

  /** Some `(` at position `k` or later. */
  predicate OpenParenFrom(s: string, k: nat)
    requires k <= |s|
    decreases |s| - k
  {
    k < |s| && (s[k] == '(' || OpenParenFrom(s, k + 1))
  }

  /** What `.replace(/\)(?![^(]*\()/g, callback)` puts at position `j`: a `)`
      with no `(` after it becomes `}` when, in the string as it was before
      this step, the last `\sqrt{` before it comes after the last `}`. */
  function CloseAt(s: string, j: nat): char
    requires j < |s|
  {
    if s[j] == ')' && !OpenParenFrom(s, j + 1)
       && LastIndexBefore(s, "\\sqrt{", j) > LastIndexBefore(s, "}", j)
    then '}'
    else s[j]
  }

  function CloseFrom(s: string, j: nat): (r: string)
    requires j <= |s|
    ensures |r| == |s| - j
    ensures forall k :: 0 <= k < |r| ==> r[k] == CloseAt(s, j + k)
    decreases |s| - j
  {
    if j == |s| then [] else [CloseAt(s, j)] + CloseFrom(s, j + 1)
  }

  function CloseRoots(s: string): string
  {
    CloseFrom(s, 0)
  }

  /** `convertToLatex(input)`. */
  function ConvertToLatex(input: string): string
  {
    CloseRoots(OpenRoots(ConvertNames(StripStars(input))))
  }

  // ----- latexToReadable -----

  /** The first `}` at position `k` or later, or `|s|` when there is none. */
  function CloseBraceFrom(s: string, k: nat): (r: nat)
    requires k <= |s|
    ensures k <= r <= |s| && (r < |s| ==> s[r] == '}')
    ensures forall m :: k <= m < r ==> s[m] != '}'
    decreases |s| - k
  {
    if k == |s| || s[k] == '}' then k else CloseBraceFrom(s, k + 1)
  }

  /** `.replace(/<open>([^}]+)\}/g, pre + '$1' + post)`: scanning from the
      left, `open` followed by a non-empty run without `}` and then a `}`
      is rewritten, and the scan resumes after that `}`. */
  function GroupReplace(s: string, open: string, pre: string, post: string): string
    requires |open| > 0
    decreases |s|
  {
    if |s| < |open| then s
    else if s[..|open|] == open && |open| < CloseBraceFrom(s, |open|) < |s| then
      var e := CloseBraceFrom(s, |open|);
      pre + s[|open|..e] + post + GroupReplace(s[e + 1..], open, pre, post)
    else [s[0]] + GroupReplace(s[1..], open, pre, post)
  }

  /** `latexToReadable(latex)`. The last step, `.replace(/\^/g, '^')`, is
      kept although it changes nothing. */
  function LatexToReadable(latex: string): string
  {
    var sines := ReplaceAll(latex, "\\sin", "sin");
    var cosines := ReplaceAll(sines, "\\cos", "cos");
    var logs := ReplaceAll(cosines, "\\ln", "log");
    var roots := GroupReplace(logs, "\\sqrt{", "sqrt(", ")");
    var groups := GroupReplace(roots, "{", "", "");
    ReplaceAll(groups, "^", "^")
  }

  // ----- properties of convertToLatex -----

  /** A `)` at `k` is either kept or turned into `}`; nothing else changes. */
  lemma CloseRootsOnlyCloses(s: string)
    ensures |CloseRoots(s)| == |s|
    ensures forall k :: 0 <= k < |s| ==>
      CloseRoots(s)[k] == s[k] || (s[k] == ')' && CloseRoots(s)[k] == '}')
  {
    forall k | 0 <= k < |s|
      ensures CloseRoots(s)[k] == CloseAt(s, k)
    {
    }
  }

  /** Without a `\sqrt{` there is nothing to close. */
  lemma CloseRootsWithoutRoot(s: string)
    requires forall j :: !OccursAt(s, "\\sqrt{", j)
    ensures CloseRoots(s) == s
  {
    forall k | 0 <= k < |s|
      ensures CloseRoots(s)[k] == s[k]
    {
      assert CloseRoots(s)[k] == CloseAt(s, k);
    }
  }

  /** The output never contains `*`. */
  lemma ConvertToLatexHasNoStar(input: string)
    ensures '*' !in ConvertToLatex(input)
  {
    var stripped := StripStars(input);
    RemoveCharRemovesAll(input, '*', 0);
    var sines := ReplaceAll(stripped, "sin(", "\\sin(");
    ReplaceKeepsCharOut(stripped, "sin(", "\\sin(", 0, '*');
    var cosines := ReplaceAll(sines, "cos(", "\\cos(");
    ReplaceKeepsCharOut(sines, "cos(", "\\cos(", 0, '*');
    var logs := ReplaceAll(cosines, "log(", "\\ln(");
    ReplaceKeepsCharOut(cosines, "log(", "\\ln(", 0, '*');
    var names := ReplaceAll(logs, "ln(", "\\ln(");
    ReplaceKeepsCharOut(logs, "ln(", "\\ln(", 0, '*');
    var rooted := OpenRoots(names);
    ReplaceKeepsCharOut(names, "sqrt(", "\\sqrt{", 0, '*');
    CloseRootsOnlyCloses(rooted);
  }

  /** A name replacement never creates a `sqrt`: each replacement starts
      with a backslash, ends with `(` and holds no `q`. */
  lemma NameStepCreatesNoSqrt(s: string, p: string, r: string)
    requires |p| > 0 && |r| > 0 && r[0] == '\\' && r[|r| - 1] == '(' && 'q' !in r
    requires forall j :: !OccursAt(s, "sqrt", j)
    ensures forall j :: !OccursAt(ReplaceAll(s, p, r), "sqrt", j)
  {
    AbsentCharNoOccurrence(r, "sqrt", 'q');
    assert [] + s[0..] == s;
    ReplaceCreatesNoWord([], s, p, r, 0, "sqrt");
    assert [] + ReplaceAll(s, p, r) == ReplaceAll(s, p, r);
  }

  /** When the input, once stripped of `*`, holds no `sqrt`, the root
      steps change nothing: every `)` is kept. */
  lemma NoSqrtKeepsParentheses(input: string)
    requires !Contains(StripStars(input), "sqrt")
    ensures ConvertToLatex(input) == ConvertNames(StripStars(input))
  {
    var stripped := StripStars(input);
    ContainsIff(stripped, "sqrt");
    var sines := ReplaceAll(stripped, "sin(", "\\sin(");
    NameStepCreatesNoSqrt(stripped, "sin(", "\\sin(");
    var cosines := ReplaceAll(sines, "cos(", "\\cos(");
    NameStepCreatesNoSqrt(sines, "cos(", "\\cos(");
    var logs := ReplaceAll(cosines, "log(", "\\ln(");
    NameStepCreatesNoSqrt(cosines, "log(", "\\ln(");
    var names := ReplaceAll(logs, "ln(", "\\ln(");
    NameStepCreatesNoSqrt(logs, "ln(", "\\ln(");
    assert names == ConvertNames(stripped);
    forall j | OccursAt(names, "sqrt(", j)
      ensures false
    {
      assert OccursAt("sqrt(", "sqrt", 0);
      OccursWithin(names, "sqrt(", "sqrt", j, 0);
    }
    ReplaceWithoutMatch(names, "sqrt(", "\\sqrt{", 0);
    assert OpenRoots(names) == names;
    forall j | OccursAt(names, "\\sqrt{", j)
      ensures false
    {
      assert OccursAt("\\sqrt{", "sqrt", 1);
      OccursWithin(names, "\\sqrt{", "sqrt", j, 1);
    }
    CloseRootsWithoutRoot(names);
  }

  /** Turning `)` into `}` creates no word without a `}`. */
  lemma CloseRootsCreatesNoWord(s: string, w: string)
    requires '}' !in w
    requires forall j :: !OccursAt(s, w, j)
    ensures forall j :: !OccursAt(CloseRoots(s), w, j)
  {
    CloseRootsOnlyCloses(s);
    var closed := CloseRoots(s);
    forall j | 0 <= j && j + |w| <= |closed|
      ensures !OccursAt(closed, w, j)
    {
      assert !OccursAt(s, w, j);
      var k :| 0 <= k < |w| && s[j..j + |w|][k] != w[k];
      assert closed[j..j + |w|][k] == closed[j + k];
    }
  }

  /** No `sqrt(` survives: each one becomes `\sqrt{`. */
  lemma NoOpenSqrtRemains(input: string)
    ensures forall j :: !OccursAt(ConvertToLatex(input), "sqrt(", j)
  {
    var names := ConvertNames(StripStars(input));
    var rooted := OpenRoots(names);
    AbsentCharNoOccurrence("\\sqrt{", "sqrt(", '(');
    ReplaceLeavesNoMatch([], names, "sqrt(", "\\sqrt{", 0);
    assert [] + rooted == rooted;
    CloseRootsCreatesNoWord(rooted, "sqrt(");
  }

  // ----- properties of latexToReadable -----

  /** The last step of `latexToReadable` replaces `^` by itself. */
  lemma CaretStepChangesNothing(s: string)
    ensures ReplaceAll(s, "^", "^") == s
  {
    ReplaceBySelf(s, "^", 0);
  }

  // ----- examples -----

  lemma LogBecomesDoubleBackslash()
    ensures ConvertToLatex("log(x)") == "\\\\ln(x)"
  {
    LogNames();
    LogRoots();
  }

  lemma LogNames()
    ensures ConvertNames(StripStars("log(x)")) == "\\\\ln(x)"
  {
    assert StripStars("log(x)") == "log(x)";
    assert ReplaceAll("log(x)", "sin(", "\\sin(") == "log(x)";
    assert ReplaceAll("log(x)", "cos(", "\\cos(") == "log(x)";
    LogToLn();
    LnGainsBackslash();
  }

  lemma LogToLn()
    ensures ReplaceAll("log(x)", "log(", "\\ln(") == "\\ln(x)"
  {}

  lemma LnGainsBackslash()
    ensures ReplaceAll("\\ln(x)", "ln(", "\\ln(") == "\\\\ln(x)"
  {}

  lemma LogRoots()
    ensures CloseRoots(OpenRoots("\\\\ln(x)")) == "\\\\ln(x)"
  {
    assert OpenRoots("\\\\ln(x)") == "\\\\ln(x)";
    assert CloseRoots("\\\\ln(x)") == "\\\\ln(x)";
  }

  /** Before the first `)` nothing is rewritten. */
  lemma CloseKeepsPrefix(s: string, m: nat)
    requires m <= |s| && ')' !in s[..m]
    ensures CloseRoots(s)[..m] == s[..m]
  {
    forall k | 0 <= k < m
      ensures CloseRoots(s)[k] == s[k]
    {
      assert s[..m][k] == s[k];
    }
  }

  lemma SplitLastTwo(r: string)
    requires |r| >= 2
    ensures r == r[..|r| - 2] + [r[|r| - 2], r[|r| - 1]]
  {
  }

  /** In `sqrt(sin(x))` both closing parentheses have no `(` after them and
      follow the `\sqrt{`, so both become `}`. */
  lemma NestedRootClosesTwice()
    ensures ConvertToLatex("sqrt(sin(x))") == "\\sqrt{\\sin(x}}"
  {
    NestedRootStars();
    NestedRootNames();
    NestedRootOpens();
    NestedRootCloses();
  }

  // One rewriting step of the example per lemma keeps each proof small.

  lemma NestedRootStars()
    ensures StripStars("sqrt(sin(x))") == "sqrt(sin(x))"
  {}

  lemma NestedRootSine()
    ensures ReplaceAll("sqrt(sin(x))", "sin(", "\\sin(") == "sqrt(\\sin(x))"
  {}

  lemma NestedRootCosine()
    ensures ReplaceAll("sqrt(\\sin(x))", "cos(", "\\cos(") == "sqrt(\\sin(x))"
  {
    AbsentCharNoOccurrence("sqrt(\\sin(x))", "cos(", 'c');
    ReplaceWithoutMatch("sqrt(\\sin(x))", "cos(", "\\cos(", 0);
  }

  lemma NestedRootLog()
    ensures ReplaceAll("sqrt(\\sin(x))", "log(", "\\ln(") == "sqrt(\\sin(x))"
  {
    AbsentCharNoOccurrence("sqrt(\\sin(x))", "log(", 'g');
    ReplaceWithoutMatch("sqrt(\\sin(x))", "log(", "\\ln(", 0);
  }

  lemma NestedRootLn()
    ensures ReplaceAll("sqrt(\\sin(x))", "ln(", "\\ln(") == "sqrt(\\sin(x))"
  {
    AbsentCharNoOccurrence("sqrt(\\sin(x))", "ln(", 'l');
    ReplaceWithoutMatch("sqrt(\\sin(x))", "ln(", "\\ln(", 0);
  }

  lemma NestedRootNames()
    ensures ConvertNames("sqrt(sin(x))") == "sqrt(\\sin(x))"
  {
    NestedRootSine();
    NestedRootCosine();
    NestedRootLog();
    NestedRootLn();
  }

  lemma NestedRootOpens()
    ensures OpenRoots("sqrt(\\sin(x))") == "\\sqrt{\\sin(x))"
  {}

  /** The last `\sqrt{` and the last `}` before each of the two `)`. */
  lemma NestedRootLastIndices()
    ensures LastIndexBefore("\\sqrt{\\sin(x))", "\\sqrt{", 12) == 0
    ensures LastIndexBefore("\\sqrt{\\sin(x))", "}", 12) == -1
    ensures LastIndexBefore("\\sqrt{\\sin(x))", "\\sqrt{", 13) == 0
    ensures LastIndexBefore("\\sqrt{\\sin(x))", "}", 13) == -1
  {
    NestedRootLastRoots();
    NestedRootLastBraces();
  }

  lemma NestedRootLastRoots()
    ensures LastIndexBefore("\\sqrt{\\sin(x))", "\\sqrt{", 12) == 0
    ensures LastIndexBefore("\\sqrt{\\sin(x))", "\\sqrt{", 13) == 0
  {
    assert LastIndexBefore("\\sqrt{\\sin(x))", "\\sqrt{", 12) == LastFrom("\\sqrt{\\sin(x))", "\\sqrt{", 6);
    assert LastIndexBefore("\\sqrt{\\sin(x))", "\\sqrt{", 13) == LastFrom("\\sqrt{\\sin(x))", "\\sqrt{", 7);
  }

  lemma NestedRootLastBraces()
    ensures LastIndexBefore("\\sqrt{\\sin(x))", "}", 12) == -1
    ensures LastIndexBefore("\\sqrt{\\sin(x))", "}", 13) == -1
  {
    assert LastIndexBefore("\\sqrt{\\sin(x))", "}", 12) == LastFrom("\\sqrt{\\sin(x))", "}", 11);
    assert LastIndexBefore("\\sqrt{\\sin(x))", "}", 13) == LastFrom("\\sqrt{\\sin(x))", "}", 12);
  }

  lemma NestedRootCloseAt()
    ensures CloseAt("\\sqrt{\\sin(x))", 12) == '}' && CloseAt("\\sqrt{\\sin(x))", 13) == '}'
  {
    NestedRootLastIndices();
  }

  lemma NestedRootCloses()
    ensures CloseRoots("\\sqrt{\\sin(x))") == "\\sqrt{\\sin(x}}"
  {
    var t := "\\sqrt{\\sin(x))";
    assert t[..12] == "\\sqrt{\\sin(x";
    NestedRootCloseAt();
    CloseLastTwo(t, "\\sqrt{\\sin(x");
  }

  /** When the last two characters of `s` both close a root and nothing
      before them is a `)`, only those two change. */
  lemma CloseLastTwo(s: string, p: string)
    requires |s| >= 2 && s[..|s| - 2] == p && ')' !in p
    requires CloseAt(s, |s| - 2) == '}' && CloseAt(s, |s| - 1) == '}'
    ensures CloseRoots(s) == p + "}}"
  {
    var r := CloseRoots(s);
    CloseKeepsPrefix(s, |s| - 2);
    SplitLastTwo(r);
  }

  // ----- the readable form of a rendered target -----

  /** Step `k` of `latexToReadable`. */
  function ReadableStep(k: nat, s: string): string
    requires 1 <= k <= 6
  {
    if k == 1 then ReplaceAll(s, "\\sin", "sin")
    else if k == 2 then ReplaceAll(s, "\\cos", "cos")
    else if k == 3 then ReplaceAll(s, "\\ln", "log")
    else if k == 4 then GroupReplace(s, "\\sqrt{", "sqrt(", ")")
    else if k == 5 then GroupReplace(s, "{", "", "")
    else ReplaceAll(s, "^", "^")
  }

  /** The first `k` steps of `latexToReadable`. */
  function Readable(k: nat, s: string): string
    requires k <= 6
  {
    if k == 0 then s else ReadableStep(k, Readable(k - 1, s))
  }

  lemma ReadableIsLatexToReadable(s: string)
    ensures Readable(6, s) == LatexToReadable(s)
  {
    assert Readable(1, s) == ReplaceAll(s, "\\sin", "sin");
    assert Readable(2, s) == ReplaceAll(Readable(1, s), "\\cos", "cos");
    assert Readable(3, s) == ReplaceAll(Readable(2, s), "\\ln", "log");
    assert Readable(4, s) == GroupReplace(Readable(3, s), "\\sqrt{", "sqrt(", ")");
    assert Readable(5, s) == GroupReplace(Readable(4, s), "{", "", "");
  }

  /** The first `}` from `m` on, when there is one at `k`, is no later
      than `k` and lies in `x` whatever follows `x`. */
  lemma CloseBraceInPrefix(x: string, y: string, m: nat, k: nat)
    requires m <= k < |x| && x[k] == '}'
    ensures CloseBraceFrom(x + y, m) == CloseBraceFrom(x, m) <= k
  {
    assert (x + y)[k] == '}';
    var a := CloseBraceFrom(x + y, m);
    var b := CloseBraceFrom(x, m);
    assert a <= k && b <= k;
    assert (x + y)[b] == '}';
  }

  /** The first `}` after `m` is at `e`. */
  lemma CloseBraceAt(s: string, m: nat, e: nat)
    requires m <= e < |s| && s[e] == '}'
    requires forall q :: m <= q < e ==> s[q] != '}'
    ensures CloseBraceFrom(s, m) == e
  {
  }

  /** Every `{` of `x` has a `}` after it in `x`. */
  predicate BracesClosed(x: string)
  {
    forall j :: 0 <= j < |x| && x[j] == '{' ==> exists k :: j < k < |x| && x[k] == '}'
  }

  lemma BracesClosedDrop(x: string, m: nat)
    requires BracesClosed(x) && m <= |x|
    ensures BracesClosed(x[m..])
  {
    var t := x[m..];
    forall j | 0 <= j < |t| && t[j] == '{'
      ensures exists k :: j < k < |t| && t[k] == '}'
    {
      assert x[m + j] == '{';
      var k :| m + j < k < |x| && x[k] == '}';
      assert t[k - m] == '}';
    }
  }

  lemma BracesClosedConcat(x: string, y: string)
    requires BracesClosed(x) && BracesClosed(y)
    ensures BracesClosed(x + y)
  {
    var s := x + y;
    forall j | 0 <= j < |s| && s[j] == '{'
      ensures exists k :: j < k < |s| && s[k] == '}'
    {
      if j < |x| {
        assert x[j] == '{';
        var k :| j < k < |x| && x[k] == '}';
        assert s[k] == '}';
      } else {
        assert y[j - |x|] == '{';
        var k :| j - |x| < k < |y| && y[k] == '}';
        assert s[|x| + k] == '}';
      }
    }
  }

  /** A group closed by the last character: `a{z}`. */
  lemma BracesClosedGroup(a: string, z: string)
    requires '{' !in a && '{' !in z
    ensures BracesClosed(a + "{" + z + "}")
  {
    var s := a + "{" + z + "}";
    forall j | 0 <= j < |s| && s[j] == '{'
      ensures exists k :: j < k < |s| && s[k] == '}'
    {
      assert s[|s| - 1] == '}';
    }
  }

  lemma EndsClearDrop(x: string, p: string, m: nat)
    requires EndsClear(x, p) && m <= |x|
    ensures EndsClear(x[m..], p)
  {
    if m < |x| {
      assert x[m..][|x| - m - 1] == x[|x| - 1];
    }
  }

  /** The group replacement takes the group at the front of `s`. */
  lemma GroupTake(s: string, open: string, pre: string, post: string, e: nat)
    requires |open| > 0 && |open| <= |s| && s[..|open|] == open
    requires e == CloseBraceFrom(s, |open|) && |open| < e < |s|
    ensures GroupReplace(s, open, pre, post) == pre + s[|open|..e] + post + GroupReplace(s[e + 1..], open, pre, post)
  {
  }

  /** The group replacement keeps the first character of `s`. */
  lemma GroupKeep(s: string, open: string, pre: string, post: string)
    requires |open| > 0 && |open| <= |s|
    requires !(s[..|open|] == open && |open| < CloseBraceFrom(s, |open|) < |s|)
    ensures GroupReplace(s, open, pre, post) == [s[0]] + GroupReplace(s[1..], open, pre, post)
  {
  }

  /** A group replacement splits after a text whose groups all close and
      that no opening straddles. */
  lemma {:induction false} GroupConcat(x: string, y: string, open: string, pre: string, post: string)
    requires |open| > 0 && open[|open| - 1] == '{'
    requires EndsClear(x, open) && BracesClosed(x)
    ensures GroupReplace(x + y, open, pre, post) == GroupReplace(x, open, pre, post) + GroupReplace(y, open, pre, post)
    decreases |x|, 2
  {
    var s := x + y;
    if x == [] {
      assert s == y;
    } else if |s| < |open| {
    } else if |x| < |open| {
      GroupConcatStraddle(x, y, open, pre, post);
    } else {
      assert s[..|open|] == x[..|open|];
      if x[..|open|] == open {
        GroupConcatAtOpen(x, y, open, pre, post);
      } else {
        GroupConcatKeep(x, y, open, pre, post);
      }
    }
  }

  lemma {:induction false} GroupConcatStraddle(x: string, y: string, open: string, pre: string, post: string)
    requires |open| > 0 && open[|open| - 1] == '{'
    requires EndsClear(x, open) && BracesClosed(x)
    requires 0 < |x| < |open| <= |x + y|
    ensures GroupReplace(x + y, open, pre, post) == GroupReplace(x, open, pre, post) + GroupReplace(y, open, pre, post)
    decreases |x|, 0
  {
    StraddleNoOpen(x, y, open);
    KeepOnConcat(x, y, open, pre, post);
    assert x == [x[0]] + x[1..];
    EndsClearDrop(x, open, 1);
    BracesClosedDrop(x, 1);
    GroupConcat(x[1..], y, open, pre, post);
    Regroup(GroupReplace(x + y, open, pre, post), GroupReplace(x, open, pre, post),
            GroupReplace(x[1..] + y, open, pre, post), GroupReplace(x[1..], open, pre, post),
            [x[0]], GroupReplace(y, open, pre, post));
  }

  lemma {:induction false} GroupConcatKeep(x: string, y: string, open: string, pre: string, post: string)
    requires |open| > 0 && open[|open| - 1] == '{'
    requires EndsClear(x, open) && BracesClosed(x)
    requires |open| <= |x| && !(x[..|open|] == open && |open| < CloseBraceFrom(x, |open|) < |x|)
    requires !((x + y)[..|open|] == open && |open| < CloseBraceFrom(x + y, |open|) < |x + y|)
    ensures GroupReplace(x + y, open, pre, post) == GroupReplace(x, open, pre, post) + GroupReplace(y, open, pre, post)
    decreases |x|, 0
  {
    KeepOnConcat(x, y, open, pre, post);
    GroupKeep(x, open, pre, post);
    EndsClearDrop(x, open, 1);
    BracesClosedDrop(x, 1);
    GroupConcat(x[1..], y, open, pre, post);
    Regroup(GroupReplace(x + y, open, pre, post), GroupReplace(x, open, pre, post),
            GroupReplace(x[1..] + y, open, pre, post), GroupReplace(x[1..], open, pre, post),
            [x[0]], GroupReplace(y, open, pre, post));
  }

  /** An opening at the front of `x` has its group closed inside `x`. */
  lemma GroupOpenFacts(x: string, y: string, open: string)
    requires |open| > 0 && open[|open| - 1] == '{'
    requires BracesClosed(x) && |open| <= |x| && x[..|open|] == open
    ensures (x + y)[..|open|] == open
    ensures CloseBraceFrom(x + y, |open|) == CloseBraceFrom(x, |open|) < |x|
  {
    var j := |open| - 1;
    assert x[j] == x[..|open|][j];
    var k :| j < k < |x| && x[k] == '}';
    CloseBraceInPrefix(x, y, |open|, k);
    assert (x + y)[..|open|] == x[..|open|];
  }

  lemma {:induction false} GroupConcatAtOpen(x: string, y: string, open: string, pre: string, post: string)
    requires |open| > 0 && open[|open| - 1] == '{'
    requires EndsClear(x, open) && BracesClosed(x)
    requires |open| <= |x| && x[..|open|] == open
    ensures GroupReplace(x + y, open, pre, post) == GroupReplace(x, open, pre, post) + GroupReplace(y, open, pre, post)
    decreases |x|, 1
  {
    GroupOpenFacts(x, y, open);
    var e := CloseBraceFrom(x, |open|);
    if |open| < e {
      GroupConcatTake(x, y, open, pre, post, e);
    } else {
      GroupConcatKeep(x, y, open, pre, post);
    }
  }

  lemma {:induction false} GroupConcatTake(x: string, y: string, open: string, pre: string, post: string, e: nat)
    requires |open| > 0 && open[|open| - 1] == '{'
    requires EndsClear(x, open) && BracesClosed(x)
    requires |open| <= |x| && x[..|open|] == open && (x + y)[..|open|] == open
    requires e == CloseBraceFrom(x, |open|) == CloseBraceFrom(x + y, |open|) && |open| < e < |x|
    ensures GroupReplace(x + y, open, pre, post) == GroupReplace(x, open, pre, post) + GroupReplace(y, open, pre, post)
    decreases |x|, 0
  {
    TakeOnConcat(x, y, open, pre, post, e);
    GroupTake(x, open, pre, post, e);
    EndsClearDrop(x, open, e + 1);
    BracesClosedDrop(x, e + 1);
    GroupConcat(x[e + 1..], y, open, pre, post);
    Regroup(GroupReplace(x + y, open, pre, post), GroupReplace(x, open, pre, post),
            GroupReplace(x[e + 1..] + y, open, pre, post), GroupReplace(x[e + 1..], open, pre, post),
            pre + x[|open|..e] + post, GroupReplace(y, open, pre, post));
  }

  /** No opening straddles the end of a text that ends clear of it. */
  lemma StraddleNoOpen(x: string, y: string, open: string)
    requires EndsClear(x, open) && 0 < |x| < |open| <= |x + y|
    ensures (x + y)[..|open|] != open
  {
    var s := x + y;
    NoStraddle(x, y, open, 0);
    MatchAtIsSlice(s, open, 0, 0);
    assert open[0..] == open && s[0..|open|] == s[..|open|];
  }

  /** A first character kept in `x + y` is followed by the rest of `x`. */
  lemma KeepOnConcat(x: string, y: string, open: string, pre: string, post: string)
    requires |open| > 0 && 0 < |x| && |open| <= |x + y|
    requires !((x + y)[..|open|] == open && |open| < CloseBraceFrom(x + y, |open|) < |x + y|)
    ensures GroupReplace(x + y, open, pre, post) == [x[0]] + GroupReplace(x[1..] + y, open, pre, post)
  {
    var s := x + y;
    assert s[1..] == x[1..] + y;
    GroupKeep(s, open, pre, post);
  }

  /** The group at the front of `x` is taken the same way in `x + y`. */
  lemma TakeOnConcat(x: string, y: string, open: string, pre: string, post: string, e: nat)
    requires |open| > 0 && |open| <= |x| && (x + y)[..|open|] == open
    requires e == CloseBraceFrom(x + y, |open|) && |open| < e < |x|
    ensures GroupReplace(x + y, open, pre, post) == pre + x[|open|..e] + post + GroupReplace(x[e + 1..] + y, open, pre, post)
  {
    var s := x + y;
    assert s[|open|..e] == x[|open|..e];
    assert s[e + 1..] == x[e + 1..] + y;
    GroupTake(s, open, pre, post, e);
  }

  /** A text without some character of the opening is left as it is. */
  lemma {:induction false} GroupWithoutChar(s: string, open: string, pre: string, post: string, c: char)
    requires |open| > 0 && c in open && c !in s
    ensures GroupReplace(s, open, pre, post) == s
    decreases |s|
  {
    if |s| >= |open| {
      assert c !in s[..|open|];
      assert c !in s[1..];
      GroupWithoutChar(s[1..], open, pre, post, c);
      assert s == [s[0]] + s[1..];
    }
  }

  /** `open z }` with a non-empty `z` free of `}` becomes `pre z post`. */
  lemma GroupFront(open: string, z: string, pre: string, post: string)
    requires |open| > 0 && |z| > 0 && '}' !in z
    ensures GroupReplace(open + z + "}", open, pre, post) == pre + z + post
  {
    var s := open + z + "}";
    var e := |open| + |z|;
    assert s[..|open|] == open;
    forall q | |open| <= q < e
      ensures s[q] != '}'
    {
      assert s[q] == z[q - |open|];
    }
    CloseBraceAt(s, |open|, e);
    assert s[|open|..e] == z;
    assert s[e + 1..] == [];
  }

  // ----- the readable form of a rendered target, piece by piece -----

  /** None of the markup `latexToReadable` is meant to remove. */
  predicate NoMarkup(s: string)
  {
    '\\' !in s && '{' !in s && '}' !in s
  }

  /** A text after which every step of `latexToReadable` splits: it does
      not end inside a pattern and each of its groups closes. */
  predicate SplitsCleanly(x: string)
  {
    (x == [] || x[|x| - 1] !in "\\sicolqrt") && BracesClosed(x)
  }

  lemma CleanEnds(x: string)
    requires SplitsCleanly(x)
    ensures EndsClear(x, "\\sin") && EndsClear(x, "\\cos") && EndsClear(x, "\\ln")
    ensures EndsClear(x, "\\sqrt{") && EndsClear(x, "{") && EndsClear(x, "^")
  {
    assert "\\sin"[..3] == "\\si";
    assert "\\cos"[..3] == "\\co";
    assert "\\ln"[..2] == "\\l";
    assert "\\sqrt{"[..5] == "\\sqrt";
  }

  lemma StepConcat(k: nat, x: string, y: string)
    requires 1 <= k <= 6 && SplitsCleanly(x)
    ensures ReadableStep(k, x + y) == ReadableStep(k, x) + ReadableStep(k, y)
  {
    CleanEnds(x);
    if k == 1 {
      ReplaceConcat(x, y, "\\sin", "sin");
    } else if k == 2 {
      ReplaceConcat(x, y, "\\cos", "cos");
    } else if k == 3 {
      ReplaceConcat(x, y, "\\ln", "log");
    } else if k == 4 {
      GroupConcat(x, y, "\\sqrt{", "sqrt(", ")");
    } else if k == 5 {
      GroupConcat(x, y, "{", "", "");
    } else {
      ReplaceConcat(x, y, "^", "^");
    }
  }

  /** Every stage before `k` of `x` splits cleanly. */
  predicate CleanBefore(k: nat, x: string)
    requires k <= 6
  {
    forall j :: 0 <= j < k ==> SplitsCleanly(Readable(j, x))
  }

  lemma {:induction false} ReadableConcat(k: nat, x: string, y: string)
    requires k <= 6 && CleanBefore(k, x)
    ensures Readable(k, x + y) == Readable(k, x) + Readable(k, y)
    decreases k
  {
    if k > 0 {
      ReadableConcat(k - 1, x, y);
      assert SplitsCleanly(Readable(k - 1, x));
      StepConcat(k, Readable(k - 1, x), Readable(k - 1, y));
    }
  }

  /** A piece of a rendered target: all its stages split cleanly and its
      readable form holds no markup. */
  predicate Piece(x: string)
  {
    CleanBefore(6, x) && NoMarkup(Readable(6, x))
  }

  lemma SplitsCleanlyConcat(x: string, y: string)
    requires SplitsCleanly(x) && SplitsCleanly(y)
    ensures SplitsCleanly(x + y)
  {
    BracesClosedConcat(x, y);
    if y != [] {
      assert (x + y)[|x + y| - 1] == y[|y| - 1];
    } else {
      assert x + y == x;
    }
  }

  lemma PieceConcat(x: string, y: string)
    requires Piece(x) && Piece(y)
    ensures Piece(x + y)
  {
    forall j | 0 <= j < 6
      ensures SplitsCleanly(Readable(j, x + y))
    {
      ReadableConcat(j, x, y);
      SplitsCleanlyConcat(Readable(j, x), Readable(j, y));
    }
    ReadableConcat(6, x, y);
  }

  /** Text without markup passes every step unchanged. */
  lemma StepPlain(k: nat, t: string)
    requires 1 <= k <= 6 && NoMarkup(t)
    ensures ReadableStep(k, t) == t
  {
    if k == 1 {
      ReplaceWithoutChar(t, "\\sin", "sin", '\\');
    } else if k == 2 {
      ReplaceWithoutChar(t, "\\cos", "cos", '\\');
    } else if k == 3 {
      ReplaceWithoutChar(t, "\\ln", "log", '\\');
    } else if k == 4 {
      GroupWithoutChar(t, "\\sqrt{", "sqrt(", ")", '\\');
    } else if k == 5 {
      GroupWithoutChar(t, "{", "", "", '{');
    } else {
      CaretStepChangesNothing(t);
    }
  }

  lemma {:induction false} ReadableBefore(j: nat, x: string, n: nat)
    requires j < n <= 6
    requires forall i :: 1 <= i < n ==> ReadableStep(i, x) == x
    ensures Readable(j, x) == x
    decreases j
  {
    if j > 0 {
      ReadableBefore(j - 1, x, n);
    }
  }

  lemma {:induction false} ReadableAfter(j: nat, x: string, n: nat, t: string)
    requires 1 <= n <= j <= 6 && NoMarkup(t)
    requires forall i :: 1 <= i < n ==> ReadableStep(i, x) == x
    requires ReadableStep(n, x) == t
    ensures Readable(j, x) == t
    decreases j
  {
    if j == n {
      ReadableBefore(n - 1, x, n);
    } else {
      ReadableAfter(j - 1, x, n, t);
      StepPlain(j, t);
    }
  }

  /** A text that steps `1..n-1` leave alone and step `n` turns into text
      without markup is a piece. */
  lemma PieceFrom(x: string, n: nat, t: string)
    requires 1 <= n <= 6 && NoMarkup(t) && SplitsCleanly(x) && SplitsCleanly(t)
    requires forall i :: 1 <= i < n ==> ReadableStep(i, x) == x
    requires ReadableStep(n, x) == t
    ensures Piece(x)
  {
    forall j | 0 <= j < 6
      ensures SplitsCleanly(Readable(j, x))
    {
      if j < n {
        ReadableBefore(j, x, n);
      } else {
        ReadableAfter(j, x, n, t);
      }
    }
    ReadableAfter(6, x, n, t);
  }

  lemma NoOpenBraceClosed(x: string)
    requires '{' !in x
    ensures BracesClosed(x)
  {
    forall j | 0 <= j < |x|
      ensures x[j] != '{'
    {
      assert x[j] in x;
    }
  }

  /** Text without markup and with a clean end is a piece. */
  lemma PlainPiece(t: string)
    requires NoMarkup(t) && (t == [] || t[|t| - 1] !in "\\sicolqrt")
    ensures Piece(t)
  {
    NoOpenBraceClosed(t);
    StepPlain(1, t);
    PieceFrom(t, 1, t);
  }

  // ----- the pieces of a rendered target -----

  /** A printed integer: digits with an optional leading minus, ending in a digit. */
  predicate Numeral(d: string)
  {
    && |d| >= 1 && IsDigit(d[|d| - 1])
    && forall c :: c in d ==> c == '-' || IsDigit(c)
  }

  lemma IntNumeral(n: int)
    ensures Numeral(IntToString(n))
  {
    var d := IntToString(n);
    IntToStringEndsInDigit(n);
    IntToStringChars(n);
    forall c | c in d
      ensures c == '-' || IsDigit(c)
    {
      var i :| 0 <= i < |d| && d[i] == c;
    }
  }

  /** `${c}\sin(${m}x)`: step 1 names the sine. */
  lemma SineSteps(d: string, m: string)
    requires Numeral(d) && (m == "" || Numeral(m))
    ensures ReadableStep(1, d + "\\sin(" + m + "x)") == d + "sin(" + m + "x)"
  {
    var z := "(" + m + "x)";
    assert d + "\\sin(" + m + "x)" == d + ("\\sin" + z);
    assert d + "sin(" + m + "x)" == d + ("sin" + z);
    assert "\\sin"[..3] == "\\si";
    ReplaceConcat(d, "\\sin" + z, "\\sin", "sin");
    ReplaceWithoutChar(d, "\\sin", "sin", '\\');
    ReplaceFront("\\sin", z, "sin");
    ReplaceWithoutChar(z, "\\sin", "sin", '\\');
  }

  lemma SineClean(d: string, m: string)
    requires Numeral(d) && (m == "" || Numeral(m))
    ensures SplitsCleanly(d + "\\sin(" + m + "x)")
    ensures var t := d + "sin(" + m + "x)"; SplitsCleanly(t) && NoMarkup(t)
  {
    NoOpenBraceClosed(d + "\\sin(" + m + "x)");
    NoOpenBraceClosed(d + "sin(" + m + "x)");
  }

  lemma SinePiece(d: string, m: string)
    requires Numeral(d) && (m == "" || Numeral(m))
    ensures Piece(d + "\\sin(" + m + "x)")
  {
    SineSteps(d, m);
    SineClean(d, m);
    PieceFrom(d + "\\sin(" + m + "x)", 1, d + "sin(" + m + "x)");
  }

  /** `${c}\cos(${m}x)`: step 1 leaves it alone and step 2 names the cosine. */
  lemma CosineSteps(d: string, m: string)
    requires Numeral(d) && (m == "" || Numeral(m))
    ensures var x := d + "\\cos(" + m + "x)";
      ReadableStep(1, x) == x && ReadableStep(2, x) == d + "cos(" + m + "x)"
  {
    var z := "(" + m + "x)";
    var x := d + "\\cos(" + m + "x)";
    ReplaceWithoutChar(x, "\\sin", "sin", 'i');
    assert x == d + ("\\cos" + z);
    assert d + "cos(" + m + "x)" == d + ("cos" + z);
    assert "\\cos"[..3] == "\\co";
    ReplaceConcat(d, "\\cos" + z, "\\cos", "cos");
    ReplaceWithoutChar(d, "\\cos", "cos", '\\');
    ReplaceFront("\\cos", z, "cos");
    ReplaceWithoutChar(z, "\\cos", "cos", '\\');
  }

  lemma CosineClean(d: string, m: string)
    requires Numeral(d) && (m == "" || Numeral(m))
    ensures SplitsCleanly(d + "\\cos(" + m + "x)")
    ensures var t := d + "cos(" + m + "x)"; SplitsCleanly(t) && NoMarkup(t)
  {
    NoOpenBraceClosed(d + "\\cos(" + m + "x)");
    NoOpenBraceClosed(d + "cos(" + m + "x)");
  }

  lemma CosinePiece(d: string, m: string)
    requires Numeral(d) && (m == "" || Numeral(m))
    ensures Piece(d + "\\cos(" + m + "x)")
  {
    CosineSteps(d, m);
    CosineClean(d, m);
    PieceFrom(d + "\\cos(" + m + "x)", 2, d + "cos(" + m + "x)");
  }

  /** `${c}\ln(x+${b})`: steps 1 and 2 leave it alone and step 3 names the
      logarithm. */
  lemma LogSteps(d: string, b: string)
    requires Numeral(d) && Numeral(b)
    ensures var x := d + "\\ln(x+" + b + ")";
      && ReadableStep(1, x) == x && ReadableStep(2, x) == x
      && ReadableStep(3, x) == d + "log(x+" + b + ")"
  {
    var z := "(x+" + b + ")";
    var x := d + "\\ln(x+" + b + ")";
    ReplaceWithoutChar(x, "\\sin", "sin", 'i');
    ReplaceWithoutChar(x, "\\cos", "cos", 'c');
    assert x == d + ("\\ln" + z);
    assert d + "log(x+" + b + ")" == d + ("log" + z);
    assert "\\ln"[..2] == "\\l";
    ReplaceConcat(d, "\\ln" + z, "\\ln", "log");
    ReplaceWithoutChar(d, "\\ln", "log", '\\');
    ReplaceFront("\\ln", z, "log");
    ReplaceWithoutChar(z, "\\ln", "log", '\\');
  }

  lemma LogClean(d: string, b: string)
    requires Numeral(d) && Numeral(b)
    ensures SplitsCleanly(d + "\\ln(x+" + b + ")")
    ensures var t := d + "log(x+" + b + ")"; SplitsCleanly(t) && NoMarkup(t)
  {
    NoOpenBraceClosed(d + "\\ln(x+" + b + ")");
    NoOpenBraceClosed(d + "log(x+" + b + ")");
  }

  lemma LogPiece(d: string, b: string)
    requires Numeral(d) && Numeral(b)
    ensures Piece(d + "\\ln(x+" + b + ")")
  {
    LogSteps(d, b);
    LogClean(d, b);
    PieceFrom(d + "\\ln(x+" + b + ")", 3, d + "log(x+" + b + ")");
  }

  /** The steps of `\sqrt{${c}x}`: the first three leave it alone and
      step 4 turns the root's group into parentheses. */
  lemma RootSteps(d: string)
    requires Numeral(d)
    ensures var x := "\\sqrt{" + d + "x}";
      && ReadableStep(1, x) == x && ReadableStep(2, x) == x && ReadableStep(3, x) == x
      && ReadableStep(4, x) == "sqrt(" + d + "x" + ")"
  {
    var x := "\\sqrt{" + d + "x}";
    assert ReadableStep(1, x) == x by {
      ReplaceWithoutChar(x, "\\sin", "sin", 'i');
    }
    assert ReadableStep(2, x) == x by {
      ReplaceWithoutChar(x, "\\cos", "cos", 'c');
    }
    assert ReadableStep(3, x) == x by {
      ReplaceWithoutChar(x, "\\ln", "log", 'l');
    }
    RootGroup(d);
  }

  lemma RootGroup(d: string)
    requires Numeral(d)
    ensures GroupReplace("\\sqrt{" + d + "x}", "\\sqrt{", "sqrt(", ")") == "sqrt(" + d + "x" + ")"
  {
    assert "\\sqrt{" + d + "x}" == "\\sqrt{" + (d + "x") + "}";
    GroupFront("\\sqrt{", d + "x", "sqrt(", ")");
  }

  lemma RootClean(d: string)
    requires Numeral(d)
    ensures SplitsCleanly("\\sqrt{" + d + "x}")
    ensures var t := "sqrt(" + d + "x" + ")"; SplitsCleanly(t) && NoMarkup(t)
  {
    var z := d + "x";
    assert "\\sqrt{" + d + "x}" == "\\sqrt" + "{" + z + "}";
    BracesClosedGroup("\\sqrt", z);
    NoOpenBraceClosed("sqrt(" + z + ")");
  }

  lemma RootPiece(d: string)
    requires Numeral(d)
    ensures Piece("\\sqrt{" + d + "x}")
  {
    RootSteps(d);
    RootClean(d);
    PieceFrom("\\sqrt{" + d + "x}", 4, "sqrt(" + d + "x" + ")");
  }

  /** `a{z}` with markup-free `a` and `z`: steps 1 to 4 leave it alone and
      step 5 drops the braces. */
  lemma BracedSteps(a: string, z: string)
    requires NoMarkup(a) && NoMarkup(z) && |z| >= 1
    ensures var x := a + ("{" + z + "}");
      && ReadableStep(1, x) == x && ReadableStep(2, x) == x
      && ReadableStep(3, x) == x && ReadableStep(4, x) == x
      && ReadableStep(5, x) == a + z
  {
    var x := a + ("{" + z + "}");
    ReplaceWithoutChar(x, "\\sin", "sin", '\\');
    ReplaceWithoutChar(x, "\\cos", "cos", '\\');
    ReplaceWithoutChar(x, "\\ln", "log", '\\');
    GroupWithoutChar(x, "\\sqrt{", "sqrt(", ")", '\\');
    BracesDropped(a, z);
  }

  lemma BracesDropped(a: string, z: string)
    requires NoMarkup(a) && NoMarkup(z) && |z| >= 1
    ensures GroupReplace(a + ("{" + z + "}"), "{", "", "") == a + z
  {
    GroupAfterPlain(a, "{" + z + "}", "{", "", "", '{');
    GroupFront("{", z, "", "");
    assert "" + z + "" == z;
  }

  lemma ConcatAssoc(a: string, b: string, c: string, e: string)
    ensures a + b + c + e == a + (b + c + e)
  {
  }

  /** Text without a character of the opening and without `{` passes the
      group replacement unchanged, whatever follows it. */
  lemma GroupAfterPlain(a: string, y: string, open: string, pre: string, post: string, c: char)
    requires |open| > 0 && open[|open| - 1] == '{' && EndsClear(a, open)
    requires c in open && c !in a && '{' !in a
    ensures GroupReplace(a + y, open, pre, post) == a + GroupReplace(y, open, pre, post)
  {
    NoOpenBraceClosed(a);
    GroupConcat(a, y, open, pre, post);
    GroupWithoutChar(a, open, pre, post, c);
  }

  lemma BracedClean(a: string, z: string)
    requires NoMarkup(a) && NoMarkup(z) && |a| >= 1 && a[|a| - 1] == '^' && |z| >= 1
    requires z[|z| - 1] !in "\\sicolqrt"
    ensures SplitsCleanly(a + ("{" + z + "}"))
    ensures SplitsCleanly(a + z) && NoMarkup(a + z)
  {
    BracesClosedGroup(a, z);
    ConcatAssoc(a, "{", z, "}");
    NoOpenBraceClosed(a + z);
    assert (a + z)[|a + z| - 1] == z[|z| - 1];
  }

  lemma BracedPiece(a: string, z: string)
    requires NoMarkup(a) && NoMarkup(z) && |a| >= 1 && a[|a| - 1] == '^' && |z| >= 1
    requires z[|z| - 1] !in "\\sicolqrt"
    ensures Piece(a + ("{" + z + "}"))
  {
    BracedSteps(a, z);
    BracedClean(a, z);
    PieceFrom(a + ("{" + z + "}"), 5, a + z);
  }

  /** `${c}x`: no markup at all. */
  lemma LinearPiece(d: string)
    requires Numeral(d)
    ensures Piece(d + "x")
  {
    PlainPiece(d + "x");
  }

  /** `${c}x^{2}`: step 5 drops the exponent's braces. */
  lemma QuadraticPiece(d: string)
    requires Numeral(d)
    ensures Piece(d + "x^{2}")
  {
    var w := "{" + "2" + "}";
    assert "x^{2}" == "x^" + w;
    assert d + ("x^" + w) == (d + "x^") + w;
    BracedPiece(d + "x^", "2");
  }

  /** `${b}^{x}`: step 5 drops the exponent's braces. */
  lemma PowerPiece(d: string)
    requires Numeral(d)
    ensures Piece(d + "^{x}")
  {
    var w := "{" + "x" + "}";
    assert "^{x}" == "^" + w;
    assert d + ("^" + w) == (d + "^") + w;
    BracedPiece(d + "^", "x");
  }

  /** Every template's text is a piece. */
  lemma TermPiece(t: Generator.Term)
    requires Generator.WellFormedTerm(t)
    ensures Piece(Generator.TermText(t))
  {
    var v := t.values;
    IntNumeral(v[0]);
    match t.op
    case Linear(_) =>
      LinearPiece(IntToString(v[0]));
    case Quadratic(_) =>
      QuadraticPiece(IntToString(v[0]));
    case Sine(_, m) =>
      if m.Some? {
        IntNumeral(v[1]);
        SinePiece(IntToString(v[0]), IntToString(v[1]));
      } else {
        SinePiece(IntToString(v[0]), "");
      }
    case Cosine(_, m) =>
      if m.Some? {
        IntNumeral(v[1]);
        CosinePiece(IntToString(v[0]), IntToString(v[1]));
      } else {
        CosinePiece(IntToString(v[0]), "");
      }
    case Log(_, _) =>
      IntNumeral(v[1]);
      LogPiece(IntToString(v[0]), IntToString(v[1]));
    case Power(_) =>
      PowerPiece(IntToString(v[0]));
    case Root(_) =>
      RootPiece(IntToString(v[0]));
  }

  lemma {:induction false} JoinPiece(texts: seq<string>, signs: seq<char>)
    requires |texts| >= 1 && |signs| == |texts| - 1
    requires forall i :: 0 <= i < |texts| ==> Piece(texts[i])
    requires forall i :: 0 <= i < |signs| ==> signs[i] == '+' || signs[i] == '-'
    ensures Piece(Generator.Join(texts, signs))
    decreases |texts|
  {
    if |texts| > 1 {
      var n, m := |texts|, |signs|;
      JoinPiece(texts[..n - 1], signs[..m - 1]);
      PlainPiece([signs[m - 1]]);
      PieceConcat(Generator.Join(texts[..n - 1], signs[..m - 1]), [signs[m - 1]]);
      PieceConcat(Generator.Join(texts[..n - 1], signs[..m - 1]) + [signs[m - 1]], texts[n - 1]);
    }
  }

  lemma OffsetPiece(o: Generator.Offset)
    ensures Piece(Generator.OffsetText(o))
  {
    match o
    case NoOffset =>
      PlainPiece("");
    case Constant(n) =>
      IntNumeral(n);
      PlainPiece((if n > 0 then "+" else "") + IntToString(n));
    case NotANumber =>
      PlainPiece("NaN");
  }

  /** The readable form of any rendered target holds no backslash and no
      brace: every command and group the templates write is converted. */
  lemma RenderReadable(p: Generator.Plan)
    requires Generator.WellFormedPlan(p)
    ensures NoMarkup(LatexToReadable(Generator.Render(p)))
  {
    var texts := Generator.Texts(p.terms);
    forall i | 0 <= i < |texts|
      ensures Piece(texts[i])
    {
      TermPiece(p.terms[i]);
    }
    JoinPiece(texts, p.signs);
    OffsetPiece(p.offset);
    PieceConcat(Generator.Join(texts, p.signs), Generator.OffsetText(p.offset));
    ReadableIsLatexToReadable(Generator.Render(p));
  }

  /** So the readable form of every generated target is free of markup. */
  lemma GeneratedReadable(d: Generator.Difficulty, seed: nat, sh: Generator.Shuffle)
    requires Generator.IsPermutation(sh.order, |Generator.Pool(d)|)
    ensures NoMarkup(LatexToReadable(Generator.Render(Generator.Generated(d, seed, sh))))
  {
    RenderReadable(Generator.Generated(d, seed, sh));
  }
}
