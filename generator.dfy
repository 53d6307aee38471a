/** `generateFunction`: the target expression of a round, in the formal
    (LaTeX) notation the graph widget draws.

    The generator draws, in this order and from one `Rng` state: the number
    of terms; the comparator calls of the pool shuffle; the coefficients of
    every selected term, left to right, each coefficient before its inner
    multiplier; one sign per join; and, unless the tier is easy, the
    constant offset. `Generated` states the outcome of those draws as a
    `Plan`, `Render` spells it out, and the method `Generate` is proved to
    produce exactly `Render(Generated(..))`. */
module Generator {
  import opened Wrappers
  import opened Text
  import opened Lcg

  /** The tier names the source compares against; any other name falls
      through to the very-hard pool and has no offset range. */
  datatype Difficulty = Easy | Medium | Hard | VeryHard | Unknown

  function TierOf(name: string): Difficulty
  {
    if name == "easy" then Easy
    else if name == "medium" then Medium
    else if name == "hard" then Hard
    else if name == "very_hard" then VeryHard
    else Unknown
  }

  datatype Range = Range(lo: int, hi: int)

  /** One entry of a tier's operation pool: a term template with the
      ranges of the integers it draws. */
  datatype Op =
    | Linear(c: Range)                      // `${c}x`
    | Quadratic(c: Range)                   // `${c}x^{2}`
    | Sine(c: Range, m: Option<Range>)      // `${c}\sin(x)` or `${c}\sin(${m}x)`
    | Cosine(c: Range, m: Option<Range>)    // `${c}\cos(x)` or `${c}\cos(${m}x)`
    | Log(c: Range, b: Range)               // `${c}\ln(x+${b})`
    | Power(b: Range)                       // `${b}^{x}`
    | Root(c: Range)                        // `\sqrt{${c}x}`

  /** The ranges an operation draws from, in the order it draws them. */
  function Ranges(op: Op): seq<Range>
  {
    match op
    case Linear(c) => [c]
    case Quadratic(c) => [c]
    case Sine(c, m) => if m.Some? then [c, m.value] else [c]
    case Cosine(c, m) => if m.Some? then [c, m.value] else [c]
    case Log(c, b) => [c, b]
    case Power(b) => [b]
    case Root(c) => [c]
  }

  function Pool(d: Difficulty): seq<Op>
  {
    match d
    case Easy =>
      [Linear(Range(1, 5)), Quadratic(Range(1, 3)),
       Sine(Range(5, 15), None), Cosine(Range(5, 15), None)]
    case Medium =>
      [Linear(Range(2, 8)), Quadratic(Range(1, 4)),
       Sine(Range(10, 30), Some(Range(1, 2))), Cosine(Range(10, 30), Some(Range(1, 2))),
       Log(Range(5, 15), Range(1, 3))]
    case Hard =>
      [Linear(Range(3, 10)), Quadratic(Range(1, 5)),
       Sine(Range(15, 40), Some(Range(1, 3))), Cosine(Range(15, 40), Some(Range(1, 3))),
       Log(Range(8, 20), Range(1, 5)), Root(Range(20, 80))]
    case _ =>
      [Linear(Range(2, 10)), Quadratic(Range(1, 5)),
       Sine(Range(10, 50), Some(Range(1, 3))), Cosine(Range(10, 50), Some(Range(1, 3))),
       Log(Range(5, 20), Range(1, 5)), Power(Range(2, 5)), Root(Range(10, 100))]
  }

  /** The range `num_terms` is drawn from. */
  function TermCount(d: Difficulty): Range
  {
    match d
    case Easy => Range(1, 2)
    case Medium => Range(2, 3)
    case Hard => Range(2, 3)
    case _ => Range(3, 4)
  }

  /** The bound of the symmetric offset range; none for an unknown name,
      where the source's lookup yields `undefined`. */
  function OffsetBound(d: Difficulty): Option<nat>
  {
    match d
    case Easy => None
    case Medium => Some(30)
    case Hard => Some(50)
    case VeryHard => Some(50)
    case Unknown => None
  }

  /** A realised term: its template and the integers drawn for it. */
  datatype Term = Term(op: Op, values: seq<int>)

  predicate WellFormedTerm(t: Term) { |t.values| == |Ranges(t.op)| }

  function TermText(t: Term): string
    requires WellFormedTerm(t)
  {
    var v := t.values;
    match t.op
    case Linear(_) => IntToString(v[0]) + "x"
    case Quadratic(_) => IntToString(v[0]) + "x^{2}"
    case Sine(_, m) =>
      IntToString(v[0]) + "\\sin(" + (if m.Some? then IntToString(v[1]) else "") + "x)"
    case Cosine(_, m) =>
      IntToString(v[0]) + "\\cos(" + (if m.Some? then IntToString(v[1]) else "") + "x)"
    case Log(_, _) => IntToString(v[0]) + "\\ln(x+" + IntToString(v[1]) + ")"
    case Power(_) => IntToString(v[0]) + "^{x}"
    case Root(_) => "\\sqrt{" + IntToString(v[0]) + "x}"
  }

  // ----- the draws -----

  /** A value computed by drawing, with the generator state after the draws. */
  datatype Drawn<T> = Drawn(value: T, state: nat)

  /** `randInt` for each range in turn, starting from state `s`. */
  function DrawAll(rs: seq<Range>, s: nat): (r: Drawn<seq<int>>)
    ensures |r.value| == |rs|
  {
    if rs == [] then Drawn([], s)
    else
      var prev := DrawAll(rs[..|rs| - 1], s);
      var s' := Step(prev.state);
      Drawn(prev.value + [RandIntAt(s', rs[|rs| - 1].lo, rs[|rs| - 1].hi)], s')
  }

  lemma DrawOne(r: Range, s: nat)
    ensures DrawAll([r], s) == Drawn([RandIntAt(Step(s), r.lo, r.hi)], Step(s))
  {
    assert [r][..0] == [];
    assert DrawAll([], s) == Drawn([], s);
    assert [] + [RandIntAt(Step(s), r.lo, r.hi)] == [RandIntAt(Step(s), r.lo, r.hi)];
  }

  lemma DrawTwo(r1: Range, r2: Range, s: nat)
    ensures var s1 := Step(s); var s2 := Step(s1);
      DrawAll([r1, r2], s) == Drawn([RandIntAt(s1, r1.lo, r1.hi), RandIntAt(s2, r2.lo, r2.hi)], s2)
  {
    var s1 := Step(s);
    var s2 := Step(s1);
    assert [r1, r2][..1] == [r1];
    DrawOne(r1, s);
    assert [RandIntAt(s1, r1.lo, r1.hi)] + [RandIntAt(s2, r2.lo, r2.hi)]
        == [RandIntAt(s1, r1.lo, r1.hi), RandIntAt(s2, r2.lo, r2.hi)];
  }

  /** Calling one pool entry. */
  function Realise(op: Op, s: nat): (r: Drawn<Term>)
    ensures WellFormedTerm(r.value) && r.value.op == op
  {
    var vs := DrawAll(Ranges(op), s);
    Drawn(Term(op, vs.value), vs.state)
  }

  /** `selected.map(op => op())`: the selected entries called left to right. */
  function RealiseAll(ops: seq<Op>, s: nat): (r: Drawn<seq<Term>>)
    ensures |r.value| == |ops|
    ensures forall i :: 0 <= i < |ops| ==> WellFormedTerm(r.value[i]) && r.value[i].op == ops[i]
  {
    if ops == [] then Drawn([], s)
    else
      var prev := RealiseAll(ops[..|ops| - 1], s);
      var t := Realise(ops[|ops| - 1], prev.state);
      Drawn(prev.value + [t.value], t.state)
  }

  /** The operator `random() > 0.3 ? '+' : '-'` once the state is `s`. */
  function SignChar(s: nat): char
  {
    if Value(s) > 0.3 then '+' else '-'
  }

  /** `n` sign draws starting from state `s`. */
  function Signs(n: nat, s: nat): (r: Drawn<seq<char>>)
    ensures |r.value| == n
    ensures forall i :: 0 <= i < n ==> r.value[i] == '+' || r.value[i] == '-'
  {
    if n == 0 then Drawn([], s)
    else
      var prev := Signs(n - 1, s);
      var s' := Step(prev.state);
      Drawn(prev.value + [SignChar(s')], s')
  }

  /** The result of `sort` with a random comparator: the order the engine
      produced and how many times it called the comparator. */
  datatype Shuffle = Shuffle(order: seq<nat>, calls: nat)

  predicate IsPermutation(order: seq<nat>, n: nat)
  {
    && |order| == n
    && (forall i :: 0 <= i < n ==> order[i] < n)
    && (forall i, j :: 0 <= i < j < n ==> order[i] != order[j])
  }

  /** `shuffled.slice(0, Math.min(k, operations.length))`. */
  function Select(pool: seq<Op>, order: seq<nat>, k: int): (ops: seq<Op>)
    requires IsPermutation(order, |pool|)
    ensures |ops| == if k < |pool| then (if k < 0 then 0 else k) else |pool|
  {
    var n := if k < |pool| then (if k < 0 then 0 else k) else |pool|;
    seq(n, i requires 0 <= i < n => pool[order[i]])
  }

  datatype Offset = NoOffset | Constant(n: int) | NotANumber

  /** The offset drawn once the state is `s`; a zero draw adds nothing. */
  function OffsetAt(d: Difficulty, s: nat): Offset
  {
    match OffsetBound(d)
    case None => NotANumber
    case Some(b) =>
      var n := RandIntAt(s, -(b as int), b);
      if n == 0 then NoOffset else Constant(n)
  }

  function OffsetText(o: Offset): string
  {
    match o
    case NoOffset => ""
    case Constant(n) => (if n > 0 then "+" else "") + IntToString(n)
    case NotANumber => "NaN"
  }

  /** The outcome of all the draws of one call. */
  datatype Plan = Plan(terms: seq<Term>, signs: seq<char>, offset: Offset)

  predicate WellFormedPlan(p: Plan)
  {
    && |p.terms| >= 1
    && |p.signs| == |p.terms| - 1
    && (forall i :: 0 <= i < |p.terms| ==> WellFormedTerm(p.terms[i]))
    && forall i :: 0 <= i < |p.signs| ==> p.signs[i] == '+' || p.signs[i] == '-'
  }

  /** The terms of one call: the count is drawn first, the comparator draws
      of the shuffle come next, then the selected entries are called in
      order. */
  function Chosen(d: Difficulty, seed: nat, sh: Shuffle): (r: Drawn<seq<Term>>)
    requires IsPermutation(sh.order, |Pool(d)|)
    ensures TermCount(d).lo <= |r.value| <= TermCount(d).hi
    ensures forall i :: 0 <= i < |r.value| ==> WellFormedTerm(r.value[i])
  {
    var s1 := Step(seed);
    var k := RandIntAt(s1, TermCount(d).lo, TermCount(d).hi);
    RandIntInRange(s1, TermCount(d).lo, TermCount(d).hi);
    RealiseAll(Select(Pool(d), sh.order, k), Iterate(s1, sh.calls))
  }

  /** `generateFunction(difficulty, seed)` as the outcome of its draws: the
      number of terms lies in the tier's range. */
  function Generated(d: Difficulty, seed: nat, sh: Shuffle): (p: Plan)
    requires IsPermutation(sh.order, |Pool(d)|)
    ensures WellFormedPlan(p)
    ensures TermCount(d).lo <= |p.terms| <= TermCount(d).hi
  {
    var terms := Chosen(d, seed, sh);
    var signs := Signs(|terms.value| - 1, terms.state);
    var offset := if d == Easy then NoOffset else OffsetAt(d, Step(signs.state));
    Plan(terms.value, signs.value, offset)
  }

  function Texts(ts: seq<Term>): (texts: seq<string>)
    requires forall i :: 0 <= i < |ts| ==> WellFormedTerm(ts[i])
    ensures |texts| == |ts|
    ensures forall i :: 0 <= i < |ts| ==> texts[i] == TermText(ts[i])
  {
    seq(|ts|, i requires 0 <= i < |ts| && WellFormedTerm(ts[i]) => TermText(ts[i]))
  }

  lemma TextsAppend(ts: seq<Term>, t: Term)
    requires forall i :: 0 <= i < |ts| ==> WellFormedTerm(ts[i])
    requires WellFormedTerm(t)
    ensures Texts(ts + [t]) == Texts(ts) + [TermText(t)]
  {
    assert forall i :: 0 <= i < |ts| ==> (ts + [t])[i] == ts[i];
  }

  /** The terms joined left to right, sign `i` in front of term `i + 1`. */
  function Join(texts: seq<string>, signs: seq<char>): string
    requires |texts| >= 1 && |signs| == |texts| - 1
  {
    if |texts| == 1 then texts[0]
    else Join(texts[..|texts| - 1], signs[..|signs| - 1]) + [signs[|signs| - 1]] + texts[|texts| - 1]
  }

  function Render(p: Plan): string
    requires WellFormedPlan(p)
  {
    Join(Texts(p.terms), p.signs) + OffsetText(p.offset)
  }

  // ----- the method -----

  /** Calls one pool entry: each `${randInt(..)}` of its template in order. */
  method RealiseTerm(rng: Rng, op: Op) returns (text: string)
    modifies rng
    ensures var t := Realise(op, old(rng.seed)); text == TermText(t.value) && rng.seed == t.state
  {
    ghost var s0 := rng.seed;
    match op
    case Linear(c) =>
      var a := rng.RandInt(c.lo, c.hi);
      DrawOne(c, s0);
      text := IntToString(a) + "x";
    case Quadratic(c) =>
      var a := rng.RandInt(c.lo, c.hi);
      DrawOne(c, s0);
      text := IntToString(a) + "x^{2}";
    case Sine(c, m) =>
      var a := rng.RandInt(c.lo, c.hi);
      var inner := "";
      if m.Some? {
        var b := rng.RandInt(m.value.lo, m.value.hi);
        DrawTwo(c, m.value, s0);
        inner := IntToString(b);
      } else {
        DrawOne(c, s0);
      }
      text := IntToString(a) + "\\sin(" + inner + "x)";
    case Cosine(c, m) =>
      var a := rng.RandInt(c.lo, c.hi);
      var inner := "";
      if m.Some? {
        var b := rng.RandInt(m.value.lo, m.value.hi);
        DrawTwo(c, m.value, s0);
        inner := IntToString(b);
      } else {
        DrawOne(c, s0);
      }
      text := IntToString(a) + "\\cos(" + inner + "x)";
    case Log(c, b) =>
      var a := rng.RandInt(c.lo, c.hi);
      var shift := rng.RandInt(b.lo, b.hi);
      DrawTwo(c, b, s0);
      text := IntToString(a) + "\\ln(x+" + IntToString(shift) + ")";
    case Power(b) =>
      var a := rng.RandInt(b.lo, b.hi);
      DrawOne(b, s0);
      text := IntToString(a) + "^{x}";
    case Root(c) =>
      var a := rng.RandInt(c.lo, c.hi);
      DrawOne(c, s0);
      text := "\\sqrt{" + IntToString(a) + "x}";
  }

  /** `selected.map(op => op())`. */
  method RealiseSelected(rng: Rng, selected: seq<Op>) returns (terms: seq<string>)
    modifies rng
    ensures var ts := RealiseAll(selected, old(rng.seed)); terms == Texts(ts.value) && rng.seed == ts.state
  {
    ghost var s0 := rng.seed;
    terms := [];
    var i := 0;
    while i < |selected|
      invariant 0 <= i <= |selected|
      invariant rng.seed == RealiseAll(selected[..i], s0).state
      invariant terms == Texts(RealiseAll(selected[..i], s0).value)
    {
      ghost var before := RealiseAll(selected[..i], s0);
      ghost var drawn := Realise(selected[i], before.state);
      var t := RealiseTerm(rng, selected[i]);
      assert selected[..i + 1][..i] == selected[..i];
      assert RealiseAll(selected[..i + 1], s0) == Drawn(before.value + [drawn.value], drawn.state);
      TextsAppend(before.value, drawn.value);
      terms := terms + [t];
      i := i + 1;
    }
    assert selected[..|selected|] == selected;
  }

  /** The loop that joins the terms, drawing one sign per join. */
  method JoinTerms(rng: Rng, terms: seq<string>) returns (result: string)
    requires |terms| >= 1
    modifies rng
    ensures var signs := Signs(|terms| - 1, old(rng.seed));
      result == Join(terms, signs.value) && rng.seed == signs.state
  {
    ghost var s0 := rng.seed;
    result := terms[0];
    var i := 1;
    while i < |terms|
      invariant 1 <= i <= |terms|
      invariant rng.seed == Signs(i - 1, s0).state
      invariant result == Join(terms[..i], Signs(i - 1, s0).value)
    {
      var v := rng.Random();
      var op := if v > 0.3 then "+" else "-";
      assert terms[..i + 1][..i] == terms[..i];
      result := result + op + terms[i];
      i := i + 1;
    }
    assert terms[..|terms|] == terms;
  }

  /** The offset step; the tier is not easy. */
  method AppendOffset(rng: Rng, d: Difficulty, body: string) returns (result: string)
    requires d != Easy
    modifies rng
    ensures rng.seed == Step(old(rng.seed))
    ensures result == body + OffsetText(OffsetAt(d, rng.seed))
  {
    match OffsetBound(d)
    case None =>
      var _ := rng.Random();
      result := body + "NaN";
    case Some(b) =>
      var offset := rng.RandInt(-(b as int), b);
      result := body;
      if offset != 0 {
        result := result + (if offset > 0 then "+" else "") + IntToString(offset);
        assert OffsetAt(d, rng.seed) == Constant(offset);
      } else {
        assert OffsetAt(d, rng.seed) == NoOffset;
        assert result == body + "";
      }
  }

  /** Draws the count, skips the comparator draws, and calls the selected
      entries. */
  method ChooseTerms(rng: Rng, d: Difficulty, sh: Shuffle) returns (terms: seq<string>)
    requires IsPermutation(sh.order, |Pool(d)|)
    modifies rng
    ensures var c := Chosen(d, old(rng.seed), sh); terms == Texts(c.value) && rng.seed == c.state
  {
    var numTerms := rng.RandInt(TermCount(d).lo, TermCount(d).hi);
    rng.Skip(sh.calls);
    var selected := Select(Pool(d), sh.order, numTerms);
    terms := RealiseSelected(rng, selected);
  }

  /** `generateFunction(difficulty, seed)`, with the engine's shuffle given. */
  method Generate(d: Difficulty, seed: nat, sh: Shuffle) returns (target: string)
    requires IsPermutation(sh.order, |Pool(d)|)
    ensures target == Render(Generated(d, seed, sh))
  {
    var rng := new Rng(seed);
    var terms := ChooseTerms(rng, d, sh);
    ghost var c := Chosen(d, seed, sh);
    assert terms == Texts(c.value) && rng.seed == c.state;
    target := JoinTerms(rng, terms);
    ghost var signs := Signs(|terms| - 1, c.state);
    assert target == Join(terms, signs.value) && rng.seed == signs.state;
    RenderedParts(d, seed, sh, terms);
    if d != Easy {
      target := AppendOffset(rng, d, target);
    } else {
      assert target == target + "";
    }
  }

  /** `Render(Generated(..))` piece by piece, in the order the method builds it. */
  lemma RenderedParts(d: Difficulty, seed: nat, sh: Shuffle, terms: seq<string>)
    requires IsPermutation(sh.order, |Pool(d)|)
    requires terms == Texts(Chosen(d, seed, sh).value)
    ensures var signs := Signs(|terms| - 1, Chosen(d, seed, sh).state);
      Render(Generated(d, seed, sh)) ==
        Join(terms, signs.value)
        + OffsetText(if d == Easy then NoOffset else OffsetAt(d, Step(signs.state)))
  {
  }

  // ----- properties of the draws -----

  /** No two entries of a pool are the same template. */
  lemma PoolDistinct(d: Difficulty)
    ensures forall i, j :: 0 <= i < j < |Pool(d)| ==> Pool(d)[i] != Pool(d)[j]
  {
  }

  predicate InRange(v: int, r: Range) { r.lo <= v <= r.hi }

  /** The `i`-th value drawn uses the `(i+1)`-th advance of the state, and
      drawing `|rs|` values advances the state `|rs|` times. */
  lemma {:induction false} DrawAllOrder(rs: seq<Range>, s: nat)
    ensures DrawAll(rs, s).state == Iterate(s, |rs|)
    ensures forall i :: 0 <= i < |rs| ==>
      DrawAll(rs, s).value[i] == RandIntAt(Iterate(s, i + 1), rs[i].lo, rs[i].hi)
  {
    if rs != [] {
      var init := rs[..|rs| - 1];
      DrawAllOrder(init, s);
      forall i | 0 <= i < |rs|
        ensures DrawAll(rs, s).value[i] == RandIntAt(Iterate(s, i + 1), rs[i].lo, rs[i].hi)
      {
        if i < |rs| - 1 {
          assert rs[i] == init[i];
        }
      }
    }
  }

  /** Every value drawn from a non-empty range lies in it. */
  lemma DrawAllInRange(rs: seq<Range>, s: nat)
    requires forall i :: 0 <= i < |rs| ==> rs[i].lo <= rs[i].hi
    ensures forall i :: 0 <= i < |rs| ==> InRange(DrawAll(rs, s).value[i], rs[i])
  {
    DrawAllOrder(rs, s);
    forall i | 0 <= i < |rs|
      ensures InRange(DrawAll(rs, s).value[i], rs[i])
    {
      RandIntInRange(Iterate(s, i + 1), rs[i].lo, rs[i].hi);
    }
  }

  predicate ValidRanges(op: Op)
  {
    forall i :: 0 <= i < |Ranges(op)| ==> Ranges(op)[i].lo <= Ranges(op)[i].hi
  }

  lemma PoolRangesValid(d: Difficulty)
    ensures forall i :: 0 <= i < |Pool(d)| ==> ValidRanges(Pool(d)[i])
  {
  }

  lemma {:induction false} RealiseAllFrom(ops: seq<Op>, s: nat, i: nat)
    requires i < |ops|
    ensures exists t :: RealiseAll(ops, s).value[i] == Realise(ops[i], t).value
  {
    var init := ops[..|ops| - 1];
    var prev := RealiseAll(init, s);
    if i < |ops| - 1 {
      RealiseAllFrom(init, s, i);
      assert init[i] == ops[i];
      var t :| prev.value[i] == Realise(init[i], t).value;
      assert RealiseAll(ops, s).value[i] == Realise(ops[i], t).value;
    } else {
      assert RealiseAll(ops, s).value[i] == Realise(ops[i], prev.state).value;
    }
  }

  /** Term `i` of a generated target realises entry `sh.order[i]` of the
      pool, drawn in turn after the shuffle. */
  lemma GeneratedOrder(d: Difficulty, seed: nat, sh: Shuffle)
    requires IsPermutation(sh.order, |Pool(d)|)
    ensures var p := Generated(d, seed, sh);
      && |p.terms| == RandIntAt(Step(seed), TermCount(d).lo, TermCount(d).hi) <= |Pool(d)|
      && forall i :: 0 <= i < |p.terms| ==> p.terms[i].op == Pool(d)[sh.order[i]]
  {
    var s1 := Step(seed);
    var k := RandIntAt(s1, TermCount(d).lo, TermCount(d).hi);
    RandIntInRange(s1, TermCount(d).lo, TermCount(d).hi);
    var ops := Select(Pool(d), sh.order, k);
    assert Generated(d, seed, sh).terms == RealiseAll(ops, Iterate(s1, sh.calls)).value;
  }

  /** Every drawn coefficient lies in the range its template gives. */
  lemma GeneratedValuesInRange(d: Difficulty, seed: nat, sh: Shuffle)
    requires IsPermutation(sh.order, |Pool(d)|)
    ensures var p := Generated(d, seed, sh);
      forall i, k :: 0 <= i < |p.terms| && 0 <= k < |p.terms[i].values| ==>
        InRange(p.terms[i].values[k], Ranges(p.terms[i].op)[k])
  {
    var p := Generated(d, seed, sh);
    var s1 := Step(seed);
    var k := RandIntAt(s1, TermCount(d).lo, TermCount(d).hi);
    var s2 := Iterate(s1, sh.calls);
    var ops := Select(Pool(d), sh.order, k);
    assert p.terms == RealiseAll(ops, s2).value;
    PoolRangesValid(d);
    forall i, m | 0 <= i < |p.terms| && 0 <= m < |p.terms[i].values|
      ensures InRange(p.terms[i].values[m], Ranges(p.terms[i].op)[m])
    {
      RealiseAllFrom(ops, s2, i);
      var t :| p.terms[i] == Realise(ops[i], t).value;
      assert ValidRanges(ops[i]);
      DrawAllInRange(Ranges(ops[i]), t);
    }
  }

  /** The terms of a generated target: each comes from the tier's pool, no
      template is used twice, and every drawn coefficient lies in the range
      its template gives. */
  lemma GeneratedTerms(d: Difficulty, seed: nat, sh: Shuffle)
    requires IsPermutation(sh.order, |Pool(d)|)
    ensures var p := Generated(d, seed, sh);
      && (forall i :: 0 <= i < |p.terms| ==> p.terms[i].op in Pool(d))
      && (forall i, j :: 0 <= i < j < |p.terms| ==> p.terms[i].op != p.terms[j].op)
      && (forall i, k :: 0 <= i < |p.terms| && 0 <= k < |p.terms[i].values| ==>
            InRange(p.terms[i].values[k], Ranges(p.terms[i].op)[k]))
  {
    var p := Generated(d, seed, sh);
    GeneratedOrder(d, seed, sh);
    PoolDistinct(d);
    forall i, j | 0 <= i < j < |p.terms|
      ensures p.terms[i].op != p.terms[j].op
    {
      assert sh.order[i] != sh.order[j];
    }
    GeneratedValuesInRange(d, seed, sh);
  }

  /** The `i`-th sign is drawn by the `(i+1)`-th advance, and is `+`
      exactly when that state exceeds 69984, i.e. `random() > 0.3`. */
  lemma {:induction false} SignsOrder(n: nat, s: nat)
    ensures Signs(n, s).state == Iterate(s, n)
    ensures forall i :: 0 <= i < n ==>
      && Signs(n, s).value[i] == SignChar(Iterate(s, i + 1))
      && (Signs(n, s).value[i] == '+' <==> Iterate(s, i + 1) > 69984)
      && (Signs(n, s).value[i] == '-' <==> Iterate(s, i + 1) <= 69984)
  {
    if n > 0 {
      SignsOrder(n - 1, s);
    }
    forall i | 0 <= i < n
      ensures Signs(n, s).value[i] == '+' <==> Iterate(s, i + 1) > 69984
    {
      AboveThreshold(Iterate(s, i + 1));
    }
  }

  /** The offset: none for the easy tier; within +-30 for medium and +-50
      for hard and very hard, and never a zero constant; `NaN` for an
      unknown name. */
  lemma GeneratedOffset(d: Difficulty, seed: nat, sh: Shuffle)
    requires IsPermutation(sh.order, |Pool(d)|)
    ensures var o := Generated(d, seed, sh).offset;
      && (d == Easy ==> o == NoOffset)
      && (d == Unknown ==> o == NotANumber)
      && (d == Medium ==> o == NoOffset || (o.Constant? && o.n != 0 && -30 <= o.n <= 30))
      && (d in {Hard, VeryHard} ==> o == NoOffset || (o.Constant? && o.n != 0 && -50 <= o.n <= 50))
  {
    var c := Chosen(d, seed, sh);
    var s5 := Step(Signs(|c.value| - 1, c.state).state);
    if d != Easy {
      assert Generated(d, seed, sh).offset == OffsetAt(d, s5);
      OffsetAtBounds(d, s5);
    }
  }

  /** One offset draw from a state below the modulus. */
  lemma OffsetAtBounds(d: Difficulty, s: nat)
    requires s < Modulus && d != Easy
    ensures var o := OffsetAt(d, s);
      && (d == Unknown ==> o == NotANumber)
      && (d != Unknown ==>
            o == NoOffset || (o.Constant? && o.n != 0 && -(OffsetBound(d).value as int) <= o.n <= OffsetBound(d).value))
  {
    if d != Unknown {
      var b := OffsetBound(d).value;
      RandIntInRange(s, -(b as int), b);
    }
  }

  /** Every term text ends in `x`, `)` or `}`, never in a digit. */
  lemma TermTextEnd(t: Term)
    requires WellFormedTerm(t)
    ensures |TermText(t)| >= 1 && TermText(t)[|TermText(t)| - 1] in "x)}"
  {
  }

  /** The joined terms end where the last term ends, so a rendered target
      that has no constant offset does not end in a digit. */
  lemma RenderedBodyEnd(p: Plan)
    requires WellFormedPlan(p)
    ensures var body := Join(Texts(p.terms), p.signs);
      |body| >= 1 && body[|body| - 1] in "x)}"
  {
    var texts := Texts(p.terms);
    var last := texts[|texts| - 1];
    TermTextEnd(p.terms[|p.terms| - 1]);
    if |texts| > 1 {
      var head := Join(texts[..|texts| - 1], p.signs[..|p.signs| - 1]) + [p.signs[|p.signs| - 1]];
      assert Join(texts, p.signs) == head + last;
    }
  }

  /** The offset is printed with its sign: `+` only when positive. */
  lemma OffsetTextSigned(n: int)
    requires n != 0
    ensures OffsetText(Constant(n)) == [if n > 0 then '+' else '-'] + NatToString(if n > 0 then n else -n)
  {
  }
}
