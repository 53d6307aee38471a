/** Character and string helpers shared by the generator, the notation
    converters and the metadata extraction: decimal digits, JavaScript's
    integer-to-string and `parseInt` on digit runs, substring search and
    global literal replacement (`s.replace(/lit/g, rep)`).

    Searching and replacing are written by recursion on an index into a
    fixed string, which lets the verifier evaluate them on literals. */
module Text {

  predicate IsDigit(c: char) { '0' <= c <= '9' }

  predicate AllDigits(s: string) { forall i :: 0 <= i < |s| ==> IsDigit(s[i]) }

  function DigitChar(d: nat): (c: char)
    requires d < 10
    ensures IsDigit(c)
  {
    (('0' as int) + d) as char
  }

  function DigitValue(c: char): (d: nat)
    requires IsDigit(c)
    ensures d < 10
  {
    c as int - '0' as int
  }

  /** Decimal text of a non-negative integer, as `${n}` prints it. */
  function NatToString(n: nat): (s: string)
    ensures 1 <= |s| && AllDigits(s)
    decreases n
  {
    if n < 10 then [DigitChar(n)] else NatToString(n / 10) + [DigitChar(n % 10)]
  }

  /** Decimal text of an integer, as `${n}` prints it: a leading `-` when negative. */
  function IntToString(n: int): string
  {
    if n < 0 then "-" + NatToString(-n) else NatToString(n)
  }

  /** `${n}` ends in a digit. */
  lemma IntToStringEndsInDigit(n: int)
    ensures |IntToString(n)| >= 1 && IsDigit(IntToString(n)[|IntToString(n)| - 1])
  {
    if n < 0 {
      assert IntToString(n) == "-" + NatToString(-n);
    }
  }

  /** `${n}` holds nothing but digits and a leading `-`. */
  lemma IntToStringChars(n: int)
    ensures forall i :: 0 <= i < |IntToString(n)| ==>
      IsDigit(IntToString(n)[i]) || IntToString(n)[i] == '-'
  {
    if n < 0 {
      var d := NatToString(-n);
      assert forall i :: 1 <= i < |IntToString(n)| ==> IntToString(n)[i] == d[i - 1];
    }
  }

  /** The value `parseInt` gives a run of decimal digits. */
  function DigitsValue(s: string): nat
    requires AllDigits(s)
  {
    if s == [] then 0 else DigitsValue(s[..|s| - 1]) * 10 + DigitValue(s[|s| - 1])
  }

  /** `parseInt` reads back exactly the integer that `${n}` printed. */
  lemma {:induction false} DigitsValueOfNatToString(n: nat)
    ensures DigitsValue(NatToString(n)) == n
    decreases n
  {
    if n >= 10 {
      var s := NatToString(n);
      assert s[..|s| - 1] == NatToString(n / 10);
      DigitsValueOfNatToString(n / 10);
    }
  }

  // ----- substring search -----

  /** `p[k..]` occurs in `s` at position `i + k`. */
  predicate MatchAt(s: string, p: string, i: nat, k: nat)
    requires i + |p| <= |s| && k <= |p|
    decreases |p| - k
  {
    k == |p| || (s[i + k] == p[k] && MatchAt(s, p, i, k + 1))
  }

  lemma {:induction false} MatchAtIsSlice(s: string, p: string, i: nat, k: nat)
    requires i + |p| <= |s| && k <= |p|
    ensures MatchAt(s, p, i, k) <==> s[i + k..i + |p|] == p[k..]
    decreases |p| - k
  {
    if k < |p| {
      MatchAtIsSlice(s, p, i, k + 1);
      assert s[i + k..i + |p|] == [s[i + k]] + s[i + k + 1..i + |p|];
      assert p[k..] == [p[k]] + p[k + 1..];
    }
  }

  predicate OccursAt(s: string, w: string, i: int)
  {
    0 <= i && i + |w| <= |s| && s[i..i + |w|] == w
  }

  /** `w` occurs in `s` at some position `i` or later. */
  predicate ContainsFrom(s: string, w: string, i: nat)
    requires i <= |s|
    decreases |s| - i
  {
    |s| - i >= |w| && (MatchAt(s, w, i, 0) || ContainsFrom(s, w, i + 1))
  }

  /** `s.includes(w)`. */
  predicate Contains(s: string, w: string)
  {
    ContainsFrom(s, w, 0)
  }

  lemma {:induction false} ContainsFromIff(s: string, w: string, i: nat)
    requires i <= |s|
    ensures ContainsFrom(s, w, i) <==> exists j :: i <= j && OccursAt(s, w, j)
    decreases |s| - i
  {
    if |s| - i >= |w| {
      MatchAtIsSlice(s, w, i, 0);
      assert w[0..] == w;
      if i < |s| {
        ContainsFromIff(s, w, i + 1);
      }
      if MatchAt(s, w, i, 0) {
        assert OccursAt(s, w, i);
      }
      if j :| i <= j && OccursAt(s, w, j) {
        if j > i {
          assert ContainsFrom(s, w, i + 1);
        }
      }
    } else {
      if j :| i <= j && OccursAt(s, w, j) {
        assert false;
      }
    }
  }

  lemma ContainsIff(s: string, w: string)
    ensures Contains(s, w) <==> exists j :: OccursAt(s, w, j)
  {
    ContainsFromIff(s, w, 0);
  }

  // ----- global literal replacement -----

  /** `s[i..].replace(/p/g, r)` for a literal pattern `p`: scan left to right,
      replace each match and resume after it, so matches never overlap. */
  function ReplaceFrom(s: string, p: string, r: string, i: nat): string
    requires |p| > 0 && i <= |s|
    decreases |s| - i
  {
    if |s| - i < |p| then s[i..]
    else if MatchAt(s, p, i, 0) then r + ReplaceFrom(s, p, r, i + |p|)
    else [s[i]] + ReplaceFrom(s, p, r, i + 1)
  }

  function ReplaceAll(s: string, p: string, r: string): string
    requires |p| > 0
  {
    ReplaceFrom(s, p, r, 0)
  }

  // ----- what a replacement can and cannot create -----

  /** A word with a character that `r` lacks does not occur in `r`. */
  lemma AbsentCharNoOccurrence(r: string, w: string, c: char)
    requires c in w && c !in r
    ensures forall j :: !OccursAt(r, w, j)
  {
  }

  lemma OccursInPrefix(u: string, x: string, w: string, j: int)
    requires OccursAt(u, w, j)
    ensures OccursAt(u + x, w, j)
  {
    assert (u + x)[j..j + |w|] == u[j..j + |w|];
  }

  lemma OccursInSuffix(u: string, x: string, w: string, j: int)
    requires OccursAt(x, w, j)
    ensures OccursAt(u + x, w, |u| + j)
  {
    assert (u + x)[|u| + j..|u| + j + |w|] == x[j..j + |w|];
  }

  /** An occurrence of `w` in `u + r + rest` lies in one of the three parts
      or covers the first or the last character of `r`. */
  lemma NoOccurrenceAround(u: string, r: string, rest: string, w: string)
    requires |r| > 0 && r[0] !in w && r[|r| - 1] !in w
    requires forall j :: !OccursAt(u, w, j)
    requires forall j :: !OccursAt(r, w, j)
    requires forall j :: !OccursAt(rest, w, j)
    ensures forall j :: !OccursAt(u + (r + rest), w, j)
  {
    var t := u + (r + rest);
    forall j | 0 <= j && j + |w| <= |t|
      ensures !OccursAt(t, w, j)
    {
      var m := t[j..j + |w|];
      if j + |w| <= |u| {
        assert m == u[j..j + |w|];
        assert !OccursAt(u, w, j);
      } else if j <= |u| {
        assert m[|u| - j] == r[0];
      } else if j + |w| <= |u| + |r| {
        assert m == r[j - |u|..j - |u| + |w|];
        assert !OccursAt(r, w, j - |u|);
      } else if j < |u| + |r| {
        assert m[|u| + |r| - 1 - j] == r[|r| - 1];
      } else {
        assert m == rest[j - |u| - |r|..j - |u| - |r| + |w|];
        assert !OccursAt(rest, w, j - |u| - |r|);
      }
    }
  }

  /** A character in neither the input nor the replacement is not in the result. */
  lemma {:induction false} ReplaceKeepsCharOut(s: string, p: string, r: string, i: nat, c: char)
    requires |p| > 0 && i <= |s| && c !in s && c !in r
    ensures c !in ReplaceFrom(s, p, r, i)
    decreases |s| - i
  {
    if |s| - i < |p| {
    } else if MatchAt(s, p, i, 0) {
      ReplaceKeepsCharOut(s, p, r, i + |p|, c);
    } else {
      ReplaceKeepsCharOut(s, p, r, i + 1, c);
    }
  }

  /** Replacing every `c` by nothing leaves no `c`. */
  lemma {:induction false} RemoveCharRemovesAll(s: string, c: char, i: nat)
    requires i <= |s|
    ensures c !in ReplaceFrom(s, [c], "", i)
    decreases |s| - i
  {
    if |s| - i < 1 {
    } else {
      MatchAtIsSlice(s, [c], i, 0);
      assert s[i..i + 1] == [s[i]];
      if MatchAt(s, [c], i, 0) {
        RemoveCharRemovesAll(s, c, i + 1);
      } else {
        RemoveCharRemovesAll(s, c, i + 1);
      }
    }
  }

  /** With no match of `p` left in `s`, the replacement changes nothing. */
  lemma {:induction false} ReplaceWithoutMatch(s: string, p: string, r: string, i: nat)
    requires |p| > 0 && i <= |s|
    requires forall j :: !OccursAt(s, p, j)
    ensures ReplaceFrom(s, p, r, i) == s[i..]
    decreases |s| - i
  {
    if |s| - i >= |p| {
      MatchAtIsSlice(s, p, i, 0);
      assert p[0..] == p;
      assert !OccursAt(s, p, i);
      ReplaceWithoutMatch(s, p, r, i + 1);
      assert s[i..] == [s[i]] + s[i + 1..];
    }
  }

  /** A replacement whose first and last characters are not in `w`, and
      which holds no `w` itself, creates no occurrence of `w`: the prefix
      `u` is what has been written before position `i`. */
  lemma {:induction false} ReplaceCreatesNoWord(u: string, s: string, p: string, r: string, i: nat, w: string)
    requires |p| > 0 && i <= |s| && |r| > 0
    requires r[0] !in w && r[|r| - 1] !in w
    requires forall j :: !OccursAt(r, w, j)
    requires forall j :: !OccursAt(u + s[i..], w, j)
    ensures forall j :: !OccursAt(u + ReplaceFrom(s, p, r, i), w, j)
    decreases |s| - i, 1
  {
    if |s| - i < |p| {
    } else if MatchAt(s, p, i, 0) {
      MatchCreatesNoWord(u, s, p, r, i, w);
    } else {
      SkipCreatesNoWord(u, s, p, r, i, w);
    }
  }

  /** `ReplaceCreatesNoWord` at a position the scan copies. */
  lemma {:induction false} SkipCreatesNoWord(u: string, s: string, p: string, r: string, i: nat, w: string)
    requires |p| > 0 && i + |p| <= |s| && |r| > 0 && !MatchAt(s, p, i, 0)
    requires r[0] !in w && r[|r| - 1] !in w
    requires forall j :: !OccursAt(r, w, j)
    requires forall j :: !OccursAt(u + s[i..], w, j)
    ensures forall j :: !OccursAt(u + ReplaceFrom(s, p, r, i), w, j)
    decreases |s| - i, 0
  {
    var v := u + [s[i]];
    var x := ReplaceFrom(s, p, r, i + 1);
    assert v + s[i + 1..] == u + s[i..];
    ReplaceCreatesNoWord(v, s, p, r, i + 1, w);
    assert ReplaceFrom(s, p, r, i) == [s[i]] + x;
    assert v + x == u + ([s[i]] + x);
  }

  /** `ReplaceCreatesNoWord` at a position where the pattern matches. */
  lemma {:induction false} MatchCreatesNoWord(u: string, s: string, p: string, r: string, i: nat, w: string)
    requires |p| > 0 && i + |p| <= |s| && |r| > 0 && MatchAt(s, p, i, 0)
    requires r[0] !in w && r[|r| - 1] !in w
    requires forall j :: !OccursAt(r, w, j)
    requires forall j :: !OccursAt(u + s[i..], w, j)
    ensures forall j :: !OccursAt(u + ReplaceFrom(s, p, r, i), w, j)
    decreases |s| - i, 0
  {
    var tail := s[i + |p|..];
    var rest := ReplaceFrom(s, p, r, i + |p|);
    assert u + s[i..] == (u + s[i..i + |p|]) + tail;
    forall j | OccursAt(tail, w, j)
      ensures false
    {
      OccursInSuffix(u + s[i..i + |p|], tail, w, j);
    }
    forall j | OccursAt(u, w, j)
      ensures false
    {
      OccursInPrefix(u, s[i..], w, j);
    }
    assert [] + tail == tail;
    ReplaceCreatesNoWord([], s, p, r, i + |p|, w);
    assert [] + rest == rest;
    NoOccurrenceAround(u, r, rest, w);
    assert u + ReplaceFrom(s, p, r, i) == u + (r + rest);
  }

  /** A position the scan steps over without a match starts no match. */
  lemma SkippedPositionHasNoMatch(u: string, s: string, p: string, i: nat)
    requires i + |p| <= |s| && |p| > 0 && !MatchAt(s, p, i, 0)
    requires forall j :: j < |u| ==> !OccursAt(u + s[i..], p, j)
    ensures forall j :: j <= |u| ==> !OccursAt(u + s[i..], p, j)
  {
    MatchAtIsSlice(s, p, i, 0);
    assert p[0..] == p;
    assert (u + s[i..])[|u|..|u| + |p|] == s[i..i + |p|];
  }

  /** No match starting inside `u` means no match within `u`. */
  lemma PrefixHasNoMatch(u: string, x: string, p: string)
    requires |p| > 0
    requires forall j :: j < |u| ==> !OccursAt(u + x, p, j)
    ensures forall j :: !OccursAt(u, p, j)
  {
    forall j | OccursAt(u, p, j)
      ensures false
    {
      OccursInPrefix(u, x, p, j);
    }
  }

  /** After a replacement of the same kind, no match of `p` is left: every
      match is consumed, and no new one forms across a boundary. The prefix
      `u` is what has been written before position `i`. */
  lemma {:induction false} ReplaceLeavesNoMatch(u: string, s: string, p: string, r: string, i: nat)
    requires |p| > 0 && i <= |s| && |r| > 0
    requires r[0] !in p && r[|r| - 1] !in p
    requires forall j :: !OccursAt(r, p, j)
    requires forall j :: j < |u| ==> !OccursAt(u + s[i..], p, j)
    ensures forall j :: !OccursAt(u + ReplaceFrom(s, p, r, i), p, j)
    decreases |s| - i, 1
  {
    if |s| - i < |p| {
      forall j | |u| <= j
        ensures !OccursAt(u + s[i..], p, j)
      {
      }
    } else if MatchAt(s, p, i, 0) {
      ReplacedMatchLeavesNoMatch(u, s, p, r, i);
    } else {
      SkippedLeavesNoMatch(u, s, p, r, i);
    }
  }

  lemma {:induction false} ReplacedMatchLeavesNoMatch(u: string, s: string, p: string, r: string, i: nat)
    requires |p| > 0 && i + |p| <= |s| && |r| > 0 && MatchAt(s, p, i, 0)
    requires r[0] !in p && r[|r| - 1] !in p
    requires forall j :: !OccursAt(r, p, j)
    requires forall j :: j < |u| ==> !OccursAt(u + s[i..], p, j)
    ensures forall j :: !OccursAt(u + ReplaceFrom(s, p, r, i), p, j)
    decreases |s| - i, 0
  {
    var rest := ReplaceFrom(s, p, r, i + |p|);
    assert [] + s[i + |p|..] == s[i + |p|..];
    ReplaceLeavesNoMatch([], s, p, r, i + |p|);
    assert [] + rest == rest;
    PrefixHasNoMatch(u, s[i..], p);
    NoOccurrenceAround(u, r, rest, p);
    assert u + ReplaceFrom(s, p, r, i) == u + (r + rest);
  }

  lemma {:induction false} SkippedLeavesNoMatch(u: string, s: string, p: string, r: string, i: nat)
    requires |p| > 0 && i + |p| <= |s| && |r| > 0 && !MatchAt(s, p, i, 0)
    requires r[0] !in p && r[|r| - 1] !in p
    requires forall j :: !OccursAt(r, p, j)
    requires forall j :: j < |u| ==> !OccursAt(u + s[i..], p, j)
    ensures forall j :: !OccursAt(u + ReplaceFrom(s, p, r, i), p, j)
    decreases |s| - i, 0
  {
    SkippedPositionHasNoMatch(u, s, p, i);
    var written := u + [s[i]];
    var next := written + s[i + 1..];
    assert next == u + s[i..];
    forall j | j < |written|
      ensures !OccursAt(next, p, j)
    {
    }
    ReplaceLeavesNoMatch(written, s, p, r, i + 1);
    var x := ReplaceFrom(s, p, r, i + 1);
    assert ReplaceFrom(s, p, r, i) == [s[i]] + x;
    assert written + x == u + ([s[i]] + x);
  }

  /** An occurrence of `w` carries along every occurrence inside `w`. */
  lemma OccursWithin(s: string, w: string, v: string, j: int, k: int)
    requires OccursAt(s, w, j) && OccursAt(w, v, k)
    ensures OccursAt(s, v, j + k)
  {
    var m := s[j..j + |w|];
    assert m == w;
    forall t | 0 <= t < |v|
      ensures s[j + k..j + k + |v|][t] == v[t]
    {
      assert s[j + k + t] == m[k + t] == w[k..k + |v|][t];
    }
  }

  /** Replacing a pattern by itself changes nothing. */
  lemma {:induction false} ReplaceBySelf(s: string, p: string, i: nat)
    requires |p| > 0 && i <= |s|
    ensures ReplaceFrom(s, p, p, i) == s[i..]
    decreases |s| - i
  {
    if |s| - i >= |p| {
      MatchAtIsSlice(s, p, i, 0);
      assert p[0..] == p;
      if MatchAt(s, p, i, 0) {
        ReplaceBySelf(s, p, i + |p|);
        assert s[i..] == s[i..i + |p|] + s[i + |p|..];
      } else {
        ReplaceBySelf(s, p, i + 1);
        assert s[i..] == [s[i]] + s[i + 1..];
      }
    }
  }

  // ----- replacement over a concatenation -----

  lemma ReplaceAtMatch(s: string, p: string, r: string, i: nat)
    requires |p| > 0 && i + |p| <= |s| && MatchAt(s, p, i, 0)
    ensures ReplaceFrom(s, p, r, i) == r + ReplaceFrom(s, p, r, i + |p|)
  {
  }

  lemma ReplaceAtEnd(s: string, p: string, r: string, i: nat)
    requires |p| > 0 && i <= |s| < i + |p|
    ensures ReplaceFrom(s, p, r, i) == s[i..]
  {
  }

  lemma ReplaceAtSkip(s: string, p: string, r: string, i: nat)
    requires |p| > 0 && i + |p| <= |s| && !MatchAt(s, p, i, 0)
    ensures ReplaceFrom(s, p, r, i) == [s[i]] + ReplaceFrom(s, p, r, i + 1)
  {
  }

  /** Two texts that start alike and go on so that one continues the
      other end alike. */
  lemma Regroup(a: string, b: string, c: string, d: string, m: string, z: string)
    requires a == m + c && b == m + d && c == d + z
    ensures a == b + z
  {
  }

  /** Past a prefix `u`, the replacement runs as on the rest alone. */
  lemma {:induction false} ReplaceShift(u: string, y: string, p: string, r: string, k: nat)
    requires |p| > 0 && k <= |y|
    ensures ReplaceFrom(u + y, p, r, |u| + k) == ReplaceFrom(y, p, r, k)
    decreases |y| - k, 1
  {
    if |y| - k < |p| {
      ShiftAtEnd(u, y, p, r, k);
    } else if MatchAt(y, p, k, 0) {
      ShiftAtMatch(u, y, p, r, k);
    } else {
      ShiftAtSkip(u, y, p, r, k);
    }
  }

  lemma ShiftAtEnd(u: string, y: string, p: string, r: string, k: nat)
    requires |p| > 0 && k <= |y| < k + |p|
    ensures ReplaceFrom(u + y, p, r, |u| + k) == ReplaceFrom(y, p, r, k)
  {
    ReplaceAtEnd(u + y, p, r, |u| + k);
    ReplaceAtEnd(y, p, r, k);
    assert (u + y)[|u| + k..] == y[k..];
  }

  lemma {:induction false} ShiftAtMatch(u: string, y: string, p: string, r: string, k: nat)
    requires |p| > 0 && k + |p| <= |y| && MatchAt(y, p, k, 0)
    ensures ReplaceFrom(u + y, p, r, |u| + k) == ReplaceFrom(y, p, r, k)
    decreases |y| - k, 0
  {
    MatchShifted(u, y, p, k);
    ReplaceAtMatch(u + y, p, r, |u| + k);
    ReplaceAtMatch(y, p, r, k);
    ReplaceShift(u, y, p, r, k + |p|);
    assert |u| + k + |p| == |u| + (k + |p|);
  }

  lemma {:induction false} ShiftAtSkip(u: string, y: string, p: string, r: string, k: nat)
    requires |p| > 0 && k + |p| <= |y| && !MatchAt(y, p, k, 0)
    ensures ReplaceFrom(u + y, p, r, |u| + k) == ReplaceFrom(y, p, r, k)
    decreases |y| - k, 0
  {
    MatchShifted(u, y, p, k);
    ReplaceAtSkip(u + y, p, r, |u| + k);
    ReplaceAtSkip(y, p, r, k);
    ReplaceShift(u, y, p, r, k + 1);
    assert |u| + k + 1 == |u| + (k + 1);
  }

  /** Past a prefix `u`, the text reads as `y` does. */
  lemma MatchShifted(u: string, y: string, p: string, k: nat)
    requires k + |p| <= |y| && |p| > 0
    ensures MatchAt(u + y, p, |u| + k, 0) == MatchAt(y, p, k, 0)
    ensures (u + y)[|u| + k] == y[k]
  {
    var s := u + y;
    MatchAtIsSlice(s, p, |u| + k, 0);
    MatchAtIsSlice(y, p, k, 0);
    assert s[|u| + k..|u| + k + |p|] == y[k..k + |p|];
  }

  /** Inside a prefix `x`, the text reads as `x` does. */
  lemma MatchInPrefix(x: string, y: string, p: string, i: nat)
    requires i + |p| <= |x| && |p| > 0
    ensures MatchAt(x + y, p, i, 0) == MatchAt(x, p, i, 0)
    ensures (x + y)[i] == x[i]
  {
    var s := x + y;
    MatchAtIsSlice(s, p, i, 0);
    MatchAtIsSlice(x, p, i, 0);
    assert s[i..i + |p|] == x[i..i + |p|];
  }

  /** No occurrence of `p` can start inside `x` and run past its end: the
      last character of `x` is not among the first `|p| - 1` of `p`. */
  predicate EndsClear(x: string, p: string)
  {
    |p| > 0 && (x == [] || x[|x| - 1] !in p[..|p| - 1])
  }

  lemma NoStraddle(x: string, y: string, p: string, i: nat)
    requires EndsClear(x, p)
    requires i < |x| < i + |p| <= |x + y|
    ensures !MatchAt(x + y, p, i, 0)
  {
    var s := x + y;
    MatchAtIsSlice(s, p, i, 0);
    var m := |x| - 1 - i;
    assert s[i..i + |p|][m] == s[|x| - 1] == x[|x| - 1];
    assert p[..|p| - 1][m] == p[m];
  }

  lemma {:induction false} ReplaceConcatFrom(x: string, y: string, p: string, r: string, i: nat)
    requires i <= |x| && EndsClear(x, p)
    ensures ReplaceFrom(x + y, p, r, i) == ReplaceFrom(x, p, r, i) + ReplaceAll(y, p, r)
    decreases |x| - i, 1
  {
    if i == |x| {
      ReplaceShift(x, y, p, r, 0);
      ReplaceAtEnd(x, p, r, i);
    } else if |x| - i >= |p| {
      if MatchAt(x, p, i, 0) {
        ConcatAtMatch(x, y, p, r, i);
      } else {
        ConcatAtSkip(x, y, p, r, i);
      }
    } else if |x + y| - i < |p| {
      ConcatAtEnd(x, y, p, r, i);
    } else {
      ConcatStraddle(x, y, p, r, i);
    }
  }

  lemma {:induction false} ConcatAtMatch(x: string, y: string, p: string, r: string, i: nat)
    requires i + |p| <= |x| && EndsClear(x, p) && MatchAt(x, p, i, 0)
    ensures ReplaceFrom(x + y, p, r, i) == ReplaceFrom(x, p, r, i) + ReplaceAll(y, p, r)
    decreases |x| - i, 0
  {
    var s := x + y;
    MatchInPrefix(x, y, p, i);
    ReplaceAtMatch(s, p, r, i);
    ReplaceAtMatch(x, p, r, i);
    ReplaceConcatFrom(x, y, p, r, i + |p|);
    Regroup(ReplaceFrom(s, p, r, i), ReplaceFrom(x, p, r, i), ReplaceFrom(s, p, r, i + |p|),
      ReplaceFrom(x, p, r, i + |p|), r, ReplaceAll(y, p, r));
  }

  lemma {:induction false} ConcatAtSkip(x: string, y: string, p: string, r: string, i: nat)
    requires i + |p| <= |x| && EndsClear(x, p) && !MatchAt(x, p, i, 0)
    ensures ReplaceFrom(x + y, p, r, i) == ReplaceFrom(x, p, r, i) + ReplaceAll(y, p, r)
    decreases |x| - i, 0
  {
    var s := x + y;
    MatchInPrefix(x, y, p, i);
    ReplaceAtSkip(s, p, r, i);
    ReplaceAtSkip(x, p, r, i);
    ReplaceConcatFrom(x, y, p, r, i + 1);
    Regroup(ReplaceFrom(s, p, r, i), ReplaceFrom(x, p, r, i), ReplaceFrom(s, p, r, i + 1),
      ReplaceFrom(x, p, r, i + 1), [x[i]], ReplaceAll(y, p, r));
  }

  lemma ConcatAtEnd(x: string, y: string, p: string, r: string, i: nat)
    requires i <= |x| && |p| > 0 && |x + y| - i < |p|
    ensures ReplaceFrom(x + y, p, r, i) == ReplaceFrom(x, p, r, i) + ReplaceAll(y, p, r)
  {
    ReplaceAtEnd(x + y, p, r, i);
    ReplaceAtEnd(x, p, r, i);
    ReplaceAtEnd(y, p, r, 0);
    assert (x + y)[i..] == x[i..] + y[0..];
  }

  lemma {:induction false} ConcatStraddle(x: string, y: string, p: string, r: string, i: nat)
    requires i < |x| < i + |p| <= |x + y| && EndsClear(x, p)
    ensures ReplaceFrom(x + y, p, r, i) == ReplaceFrom(x, p, r, i) + ReplaceAll(y, p, r)
    decreases |x| - i, 0
  {
    var s := x + y;
    NoStraddle(x, y, p, i);
    ReplaceAtSkip(s, p, r, i);
    assert s[i] == x[i];
    ReplaceConcatFrom(x, y, p, r, i + 1);
    ReplaceAtEnd(x, p, r, i);
    ReplaceAtEnd(x, p, r, i + 1);
    assert x[i..] == [x[i]] + x[i + 1..];
    Regroup(ReplaceFrom(s, p, r, i), ReplaceFrom(x, p, r, i), ReplaceFrom(s, p, r, i + 1),
      ReplaceFrom(x, p, r, i + 1), [x[i]], ReplaceAll(y, p, r));
  }

  /** A replacement splits at a point no occurrence straddles. */
  lemma ReplaceConcat(x: string, y: string, p: string, r: string)
    requires EndsClear(x, p)
    ensures ReplaceAll(x + y, p, r) == ReplaceAll(x, p, r) + ReplaceAll(y, p, r)
  {
    ReplaceConcatFrom(x, y, p, r, 0);
  }

  /** A text that starts with the pattern starts with its replacement. */
  lemma ReplaceFront(p: string, z: string, r: string)
    requires |p| > 0
    ensures ReplaceAll(p + z, p, r) == r + ReplaceAll(z, p, r)
  {
    MatchAtIsSlice(p + z, p, 0, 0);
    assert (p + z)[0..|p|] == p;
    ReplaceShift(p, z, p, r, 0);
  }

  /** A text without some character of the pattern is left as it is. */
  lemma ReplaceWithoutChar(s: string, p: string, r: string, c: char)
    requires c in p && c !in s
    ensures ReplaceAll(s, p, r) == s
  {
    AbsentCharNoOccurrence(s, p, c);
    ReplaceWithoutMatch(s, p, r, 0);
  }
}
