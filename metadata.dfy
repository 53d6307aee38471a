/** `parseFunctionMetadata`: what the hints read off a target expression.
    It tags term kinds by seven substring and pattern tests, lists every
    decimal number between 2 and 99, and reads a signed integer at the very
    end as the constant offset. */
module Metadata {
  import opened Wrappers
  import opened Text
  import Generator

  /** The tags in the order the source pushes them. */
  datatype TermType =
    | Quadratic | Linear | Sine | Cosine | Logarithmic | SquareRoot | Exponential

  function Rank(t: TermType): nat
  {
    match t
    case Quadratic => 0
    case Linear => 1
    case Sine => 2
    case Cosine => 3
    case Logarithmic => 4
    case SquareRoot => 5
    case Exponential => 6
  }

  const AllTypes: seq<TermType> :=
    [Quadratic, Linear, Sine, Cosine, Logarithmic, SquareRoot, Exponential]

  predicate Ascending(ts: seq<TermType>)
  {
    forall i, j :: 0 <= i < j < |ts| ==> Rank(ts[i]) < Rank(ts[j])
  }

  /** The candidate list is in rank order: entry `i` has rank `i`. */
  lemma AllTypesAscending()
    ensures Ascending(AllTypes)
  {
    forall i | 0 <= i < |AllTypes|
      ensures Rank(AllTypes[i]) == i
    {
      if i == 0 {} else if i == 1 {} else if i == 2 {} else if i == 3 {}
      else if i == 4 {} else if i == 5 {} else {}
    }
  }

  // ----- the detectors -----

  /** From position `k` on, a `}` comes before any `{`: the lookahead
      `(?=[^{]*})` succeeds at `k`. */
  predicate FirstBraceCloses(s: string, k: nat)
    requires k <= |s|
    decreases |s| - k
  {
    k < |s| && (s[k] == '}' || (s[k] != '{' && FirstBraceCloses(s, k + 1)))
  }

  /** `/\d+x(?![^{]*})/` matches with its `x` at position `k`: a digit right
      before it and no `}` ahead unless a `{` comes first. */
  predicate LinearAt(s: string, k: int)
  {
    1 <= k < |s| && IsDigit(s[k - 1]) && s[k] == 'x' && !FirstBraceCloses(s, k + 1)
  }

  /** `/\d+\^{x}/` matches with its `^` at position `k`. */
  predicate ExponentialAt(s: string, k: int)
  {
    1 <= k && k + 4 <= |s| && IsDigit(s[k - 1]) && s[k..k + 4] == "^{x}"
  }

  predicate Detected(s: string, t: TermType)
  {
    match t
    case Quadratic => Contains(s, "x^{2}")
    case Linear => exists k :: 1 <= k < |s| && LinearAt(s, k)
    case Sine => Contains(s, "\\sin")
    case Cosine => Contains(s, "\\cos")
    case Logarithmic => Contains(s, "\\ln")
    case SquareRoot => Contains(s, "\\sqrt")
    case Exponential => exists k :: 1 <= k < |s| && ExponentialAt(s, k)
  }

  /** The candidates whose test fires, in candidate order. */
  function Tags(s: string, candidates: seq<TermType>): (ts: seq<TermType>)
    requires Ascending(candidates)
    ensures Ascending(ts)
    ensures forall t :: t in ts <==> t in candidates && Detected(s, t)
  {
    if candidates == [] then []
    else
      var rest := Tags(s, candidates[1..]);
      assert forall t :: t in candidates[1..] ==> Rank(candidates[0]) < Rank(t);
      if Detected(s, candidates[0]) then [candidates[0]] + rest else rest
  }

  // ----- the numbers -----

  /** The length of the run of digits that starts `s`. */
  function LeadingDigits(s: string): (k: nat)
    ensures k <= |s| && AllDigits(s[..k])
    ensures k < |s| ==> !IsDigit(s[k])
  {
    if s == [] || !IsDigit(s[0]) then 0
    else
      var k := 1 + LeadingDigits(s[1..]);
      assert s[..k] == [s[0]] + s[1..][..k - 1];
      k
  }

  /** `latex.match(/\d+/g).map(parseInt)`: every maximal run of digits,
      left to right, read as a decimal number. */
  function Numbers(s: string): seq<nat>
    decreases |s|
  {
    if s == [] then []
    else if !IsDigit(s[0]) then Numbers(s[1..])
    else
      var k := LeadingDigits(s);
      [DigitsValue(s[..k])] + Numbers(s[k..])
  }

  /** `.filter(n => n > 1 && n < 100)`. */
  function Kept(ns: seq<nat>): (r: seq<nat>)
    ensures forall i :: 0 <= i < |r| ==> 1 < r[i] < 100
    ensures forall n :: n in r <==> n in ns && 1 < n < 100
  {
    if ns == [] then []
    else if 1 < ns[0] < 100 then [ns[0]] + Kept(ns[1..])
    else Kept(ns[1..])
  }

  /** The kept numbers, or `[1]` when there are none. */
  function Coefficients(s: string): (cs: seq<nat>)
    ensures |cs| >= 1
    ensures cs == [1] || forall i :: 0 <= i < |cs| ==> 2 <= cs[i] <= 99
  {
    var kept := Kept(Numbers(s));
    if |kept| > 0 then kept else [1]
  }

  // ----- the trailing offset -----

  /** The length of the run of digits that ends `s`. */
  function TrailingDigits(s: string): (k: nat)
    ensures k <= |s| && AllDigits(s[|s| - k..])
    ensures k < |s| ==> !IsDigit(s[|s| - k - 1])
  {
    if s == [] || !IsDigit(s[|s| - 1]) then 0
    else
      var init := s[..|s| - 1];
      var k := 1 + TrailingDigits(init);
      assert s[|s| - k..] == init[|init| - (k - 1)..] + [s[|s| - 1]];
      k
  }

  /** `/[+-]\d+$/` with `parseInt`: a sign followed by digits up to the end. */
  function TrailingOffset(s: string): Option<int>
  {
    var k := TrailingDigits(s);
    if k == 0 || k == |s| then None
    else
      var value: int := DigitsValue(s[|s| - k..]);
      if s[|s| - k - 1] == '+' then Some(value)
      else if s[|s| - k - 1] == '-' then Some(-value)
      else None
  }

  // ----- the record -----

  datatype Metadata = Metadata(numTerms: nat, types: seq<TermType>, coefs: seq<nat>, offset: int)

  /** `parseFunctionMetadata(latex)`. */
  function ParseMetadata(latex: string): (m: Metadata)
    ensures Ascending(m.types) && |m.types| <= 7
    ensures forall t :: t in m.types <==> Detected(latex, t)
    ensures |m.coefs| >= 1
    ensures m.coefs == [1] || forall i :: 0 <= i < |m.coefs| ==> 2 <= m.coefs[i] <= 99
    ensures m.numTerms == |m.types| + (if TrailingOffset(latex).Some? then 1 else 0)
    ensures TrailingOffset(latex).None? ==> m.offset == 0
    ensures TrailingOffset(latex).Some? ==> m.offset == TrailingOffset(latex).value
  {
    AllTypesAscending();
    var types := Tags(latex, AllTypes);
    AscendingBound(types);
    var found := TrailingOffset(latex);
    var offset := if found.Some? then found.value else 0;
    Metadata(|types| + (if found.Some? then 1 else 0), types, Coefficients(latex), offset)
  }

  // ----- lemmas -----

  /** An ascending list of tags has at most one of each. */
  lemma {:induction false} AscendingBound(ts: seq<TermType>)
    requires Ascending(ts)
    ensures |ts| <= 7
  {
    if |ts| > 7 {
      AscendingRankBelow(ts, 7);
    }
  }

  lemma {:induction false} AscendingRankBelow(ts: seq<TermType>, i: nat)
    requires Ascending(ts) && i < |ts|
    ensures Rank(ts[i]) >= i
  {
    if i > 0 {
      AscendingRankBelow(ts, i - 1);
    }
  }

  /** No tag is listed twice. */
  lemma TagsDistinct(latex: string)
    ensures forall i, j :: 0 <= i < j < |ParseMetadata(latex).types| ==>
      ParseMetadata(latex).types[i] != ParseMetadata(latex).types[j]
  {
  }

  /** A run of digits after a non-digit is the whole trailing run. */
  lemma {:induction false} TrailingDigitsAfter(x: string, d: string)
    requires AllDigits(d) && |x| > 0 && !IsDigit(x[|x| - 1])
    ensures TrailingDigits(x + d) == |d|
    decreases |d|
  {
    if d == [] {
      assert x + d == x;
    } else {
      assert (x + d)[..|x + d| - 1] == x + d[..|d| - 1];
      TrailingDigitsAfter(x, d[..|d| - 1]);
    }
  }

  /** The offset a round appended reads back exactly, whatever precedes it. */
  lemma OffsetReadBack(body: string, n: int)
    requires n != 0
    ensures TrailingOffset(body + Generator.OffsetText(Generator.Constant(n))) == Some(n)
  {
    var magnitude: nat := if n > 0 then n else -n;
    var sign := if n > 0 then "+" else "-";
    var digits := NatToString(magnitude);
    assert Generator.OffsetText(Generator.Constant(n)) == sign + digits;
    var s := body + sign + digits;
    assert s == (body + sign) + digits == body + (sign + digits);
    TrailingDigitsAfter(body + sign, digits);
    assert s[|s| - |digits|..] == digits;
    assert s[|s| - |digits| - 1] == sign[0];
    DigitsValueOfNatToString(magnitude);
    assert TrailingOffset(s) == Some(if n > 0 then magnitude else -(magnitude as int));
  }

  /** Parsing a generated target recovers the offset the generator drew:
      the constant when there is one, and 0 for no offset or `NaN`; the
      offset then counts as one of the terms exactly when it is a constant. */
  lemma GeneratedOffsetReadBack(d: Generator.Difficulty, seed: nat, sh: Generator.Shuffle)
    requires Generator.IsPermutation(sh.order, |Generator.Pool(d)|)
    ensures var p := Generator.Generated(d, seed, sh);
      var m := ParseMetadata(Generator.Render(p));
      && m.offset == (if p.offset.Constant? then p.offset.n else 0)
      && m.numTerms == |m.types| + (if p.offset.Constant? then 1 else 0)
  {
    var p := Generator.Generated(d, seed, sh);
    var body := Generator.Join(Generator.Texts(p.terms), p.signs);
    Generator.RenderedBodyEnd(p);
    Generator.GeneratedOffset(d, seed, sh);
    SuffixReadBack(body, p.offset);
  }

  /** The trailing offset of a body that ends in `x`, `)` or `}` followed by
      a printed offset. */
  lemma SuffixReadBack(body: string, o: Generator.Offset)
    requires |body| >= 1 && body[|body| - 1] in "x)}"
    requires o.Constant? ==> o.n != 0
    ensures TrailingOffset(body + Generator.OffsetText(o)) ==
      if o.Constant? then Some(o.n) else None
  {
    var s := body + Generator.OffsetText(o);
    match o
    case Constant(n) =>
      OffsetReadBack(body, n);
    case NoOffset =>
      assert s == body;
      NoTrailingOffset(s);
    case NotANumber =>
      assert s[|s| - 1] == 'N';
      NoTrailingOffset(s);
  }

  /** A text that ends in a non-digit has no trailing offset. */
  lemma NoTrailingOffset(s: string)
    requires |s| > 0 && !IsDigit(s[|s| - 1])
    ensures TrailingOffset(s) == None
  {
  }

  /** The linear test fires on a quadratic term `${c}x^{2}`: the `{` after
      the `x` comes before the `}`. */
  lemma QuadraticTermLooksLinear(c: int)
    ensures Detected(IntToString(c) + "x^{2}", Linear)
  {
    var s := IntToString(c) + "x^{2}";
    var k := |IntToString(c)|;
    IntToStringEndsInDigit(c);
    assert s[k - 1] == IntToString(c)[k - 1];
    assert s[k] == 'x' && s[k + 1] == '^' && s[k + 2] == '{';
    assert !FirstBraceCloses(s, k + 1);
    assert LinearAt(s, k);
  }

  /** The linear test fires on `\sin(${m}x)` and `\cos(${m}x)` too: the
      inner multiplier is a digit before an `x` with no brace after it. */
  lemma InnerMultiplierLooksLinear(head: string, m: int)
    ensures Detected(head + IntToString(m) + "x)", Linear)
  {
    var s := head + IntToString(m) + "x)";
    var k := |head| + |IntToString(m)|;
    IntToStringEndsInDigit(m);
    assert s[k - 1] == IntToString(m)[|IntToString(m)| - 1];
    assert s[k] == 'x' && s[k + 1] == ')';
    assert !FirstBraceCloses(s, k + 2);
    assert !FirstBraceCloses(s, k + 1);
    assert LinearAt(s, k);
  }

  /** The linear test does not fire on a root term `\sqrt{${c}x}`: its `x`
      is followed by the closing `}`. */
  lemma RootTermNotLinear(c: nat)
    ensures !Detected("\\sqrt{" + NatToString(c) + "x}", Linear)
  {
    var s := "\\sqrt{" + NatToString(c) + "x}";
    var d := NatToString(c);
    forall k | 1 <= k < |s|
      ensures !LinearAt(s, k)
    {
      if k < 6 {
        assert s[k] == "\\sqrt{"[k];
      } else if k < 6 + |d| {
        assert s[k] == d[k - 6];
        assert IsDigit(d[k - 6]);
      } else if k == 6 + |d| {
        assert s[k + 1] == '}';
        assert FirstBraceCloses(s, k + 1);
      } else {
        assert s[k] == '}';
      }
    }
  }

  /** A digit run is read back as the number it spells. */
  lemma {:induction false} NumbersOfDigits(n: nat)
    ensures Numbers(NatToString(n)) == [n]
  {
    var d := NatToString(n);
    LeadingDigitsOfDigits(d);
    assert d[..|d|] == d;
    DigitsValueOfNatToString(n);
    assert d[|d|..] == [];
  }

  lemma {:induction false} LeadingDigitsOfDigits(d: string)
    requires AllDigits(d)
    ensures LeadingDigits(d) == |d|
    decreases |d|
  {
    if d != [] {
      LeadingDigitsOfDigits(d[1..]);
    }
  }

  /** Numbers are read run by run: gluing two texts at a non-digit boundary
      glues their number lists. */
  lemma {:induction false} NumbersConcat(x: string, y: string)
    requires x == [] || y == [] || !IsDigit(x[|x| - 1]) || !IsDigit(y[0])
    ensures Numbers(x + y) == Numbers(x) + Numbers(y)
    decreases |x|, 1
  {
    if x == [] {
      assert x + y == y;
    } else if !IsDigit(x[0]) {
      NumbersConcatSkip(x, y);
    } else {
      NumbersConcatRun(x, y);
    }
  }

  /** `NumbersConcat` when `x` starts with a character that is skipped. */
  lemma {:induction false} NumbersConcatSkip(x: string, y: string)
    requires x != [] && !IsDigit(x[0])
    requires y == [] || !IsDigit(x[|x| - 1]) || !IsDigit(y[0])
    ensures Numbers(x + y) == Numbers(x) + Numbers(y)
    decreases |x|, 0
  {
    var rest := x[1..];
    assert rest != [] ==> rest[|rest| - 1] == x[|x| - 1];
    assert (x + y)[1..] == rest + y;
    NumbersConcat(rest, y);
  }

  /** `NumbersConcat` when `x` starts with a run of digits. */
  lemma {:induction false} NumbersConcatRun(x: string, y: string)
    requires x != [] && IsDigit(x[0])
    requires y == [] || !IsDigit(x[|x| - 1]) || !IsDigit(y[0])
    ensures Numbers(x + y) == Numbers(x) + Numbers(y)
    decreases |x|, 0
  {
    var k := LeadingDigits(x);
    var rest := x[k..];
    assert rest != [] ==> rest[|rest| - 1] == x[|x| - 1];
    LeadingDigitsConcat(x, y);
    assert (x + y)[..k] == x[..k];
    assert (x + y)[k..] == rest + y;
    NumbersConcat(rest, y);
  }

  /** The leading run of `x + y` ends inside `x` when the boundary is not
      between two digits. */
  lemma {:induction false} LeadingDigitsConcat(x: string, y: string)
    requires x != [] && (y == [] || !IsDigit(x[|x| - 1]) || !IsDigit(y[0]))
    ensures LeadingDigits(x + y) == LeadingDigits(x)
    decreases |x|
  {
    if IsDigit(x[0]) && |x| > 1 {
      assert (x + y)[1..] == x[1..] + y;
      LeadingDigitsConcat(x[1..], y);
    } else if IsDigit(x[0]) {
      assert (x + y)[1..] == y;
    }
  }
}
