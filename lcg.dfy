/** The seeded generator inside `generateFunction`: a linear-congruential
    recurrence on an integer state, read as a fraction of the modulus.

    The source keeps the state in a variable captured by its `random`
    closure; here it is the field of an `Rng` object. Seeds are the
    non-negative integers the daily mode produces; for any seed of at
    most 2^31 (every `hashCode` result) `seed * 9301 + 49297` stays below
    2^53, so the double arithmetic of the source is exact and integers
    model it. */
module Lcg {

  const Multiplier := 9301
  const Increment := 49297
  const Modulus := 233280

  /** One advance of the recurrence; the state after it is below the modulus. */
  function Step(s: nat): (t: nat)
    ensures t < Modulus
  {
    (s * Multiplier + Increment) % Modulus
  }

  /** The state after `n` draws. */
  function Iterate(s: nat, n: nat): nat
  {
    if n == 0 then s else Step(Iterate(s, n - 1))
  }

  /** What `random()` returns once the state has been advanced to `s`. */
  function Value(s: nat): (v: real)
    ensures s < Modulus ==> 0.0 <= v < 1.0
  {
    s as real / Modulus as real
  }

  /** What `randInt(lo, hi)` returns once the state has been advanced to `s`:
      `Math.floor(random() * (hi - lo + 1)) + lo`. */
  function RandIntAt(s: nat, lo: int, hi: int): int
  {
    (Value(s) * (hi - lo + 1) as real).Floor + lo
  }

  /** `randInt` never leaves `[lo, hi]` once the state is below the modulus. */
  lemma RandIntInRange(s: nat, lo: int, hi: int)
    requires s < Modulus && lo <= hi
    ensures lo <= RandIntAt(s, lo, hi) <= hi
  {
    var n := (hi - lo + 1) as real;
    var v := Value(s);
    assert 0.0 <= v * n < n by {
      assert v * n < 1.0 * n;
    }
  }

  /** The floor of the scaled fraction is plain integer division. */
  lemma RandIntIsDivision(s: nat, lo: int, hi: int)
    ensures RandIntAt(s, lo, hi) == (s * (hi - lo + 1)) / Modulus + lo
  {
    var n := hi - lo + 1;
    var q := (s * n) / Modulus;
    var r := (s * n) % Modulus;
    assert s * n == q * Modulus + r && 0 <= r < Modulus;
    var x := Value(s) * n as real;
    assert x == (s * n) as real / Modulus as real;
    assert x == q as real + r as real / Modulus as real;
    assert q as real <= x < q as real + 1.0;
  }

  /** `random() > 0.3` is a comparison of the state with 69984. */
  lemma AboveThreshold(s: nat)
    ensures Value(s) > 0.3 <==> s > 69984
  {
  }

  /** The mutable state of the `random` closure. */
  class Rng {
    var seed: nat

    constructor (initial: nat)
      ensures seed == initial
    {
      seed := initial;
    }

    /** `random()`: advance the state and return it as a fraction. */
    method Random() returns (v: real)
      modifies this
      ensures seed == Step(old(seed)) && v == Value(seed)
    {
      seed := (seed * Multiplier + Increment) % Modulus;
      v := seed as real / Modulus as real;
    }

    /** `randInt(lo, hi)`: one `random()` scaled to the range. */
    method RandInt(lo: int, hi: int) returns (n: int)
      modifies this
      ensures seed == Step(old(seed)) && n == RandIntAt(seed, lo, hi)
      ensures lo <= hi ==> lo <= n <= hi
    {
      var v := Random();
      n := (v * (hi - lo + 1) as real).Floor + lo;
      if lo <= hi {
        RandIntInRange(seed, lo, hi);
      }
    }

    /** `count` draws whose values are not used for their digits (the
        comparator calls of the shuffle). */
    method Skip(count: nat)
      modifies this
      ensures seed == Iterate(old(seed), count)
    {
      for j := 0 to count
        invariant seed == Iterate(old(seed), j)
      {
        var _ := Random();
      }
    }
  }
}
