/** `hashCode`: the string hash that turns "date + tier name" into the seed of
    the daily challenge. JavaScript keeps `hash` a 32-bit signed integer by
    `hash & hash`; the shift `hash << 5` also works on 32 bits. Character
    codes are taken as UTF-16 code units, one per `char`. */
module Hash {

  const TwoTo31 := 0x8000_0000
  const TwoTo32 := 0x1_0000_0000

  /** JavaScript's ToInt32 on an integer: reduction modulo 2^32 into
      `[-2^31, 2^31)`. The result differs from `x` by a multiple of 2^32. */
  function ToInt32(x: int): (r: int)
    ensures -TwoTo31 <= r < TwoTo31
    ensures (x - r) % TwoTo32 == 0
  {
    var m := (x + TwoTo31) % TwoTo32;
    assert x + TwoTo31 == ((x + TwoTo31) / TwoTo32) * TwoTo32 + m;
    m - TwoTo31
  }

  lemma ModMultiple(x: int, k: int)
    ensures (x + k * TwoTo32) % TwoTo32 == x % TwoTo32
  {
    var q := x / TwoTo32;
    var r := x % TwoTo32;
    assert x + k * TwoTo32 == (q + k) * TwoTo32 + r;
  }

  /** ToInt32 only sees its argument modulo 2^32. */
  lemma ToInt32Congruent(x: int, y: int)
    requires (x - y) % TwoTo32 == 0
    ensures ToInt32(x) == ToInt32(y)
  {
    var k := (x - y) / TwoTo32;
    assert x == y + k * TwoTo32;
    ModMultiple(y + TwoTo31, k);
  }

  /** `hash << 5` on an integer already in 32-bit range. */
  function ShiftLeft5(h: int): int
  {
    ToInt32(h * 32)
  }

  /** The value of `hash` after the whole string: each character folds in as
      `hash * 31 + code`, wrapped to 32 bits. */
  function HashState(s: string): (h: int)
    ensures -TwoTo31 <= h < TwoTo31
  {
    if s == [] then 0 else ToInt32(31 * HashState(s[..|s| - 1]) + s[|s| - 1] as int)
  }

  /** `Math.abs(hash)`; the absolute value of -2^31 is 2^31. */
  function StringHash(s: string): (n: nat)
    ensures n <= TwoTo31
  {
    var h := HashState(s);
    if h < 0 then -h else h
  }

  /** The unwrapped polynomial `sum code[i] * 31^(n-1-i)`, the classic
      string hash before any overflow. */
  function Polynomial(s: string): int
  {
    if s == [] then 0 else Polynomial(s[..|s| - 1]) * 31 + s[|s| - 1] as int
  }

  /** Wrapping at every step gives the same 32-bit value as wrapping once at
      the end. */
  lemma {:induction false} HashStateIsWrappedPolynomial(s: string)
    ensures HashState(s) == ToInt32(Polynomial(s))
  {
    if s != [] {
      var init := s[..|s| - 1];
      var c := s[|s| - 1] as int;
      HashStateIsWrappedPolynomial(init);
      var h := HashState(init);
      var p := Polynomial(init);
      StepCongruent(p, h, c);
      ToInt32Congruent(p * 31 + c, 31 * h + c);
    }
  }

  /** Two values equal modulo 2^32 stay equal after one fold step. */
  lemma StepCongruent(p: int, h: int, c: int)
    requires (p - h) % TwoTo32 == 0
    ensures ((p * 31 + c) - (31 * h + c)) % TwoTo32 == 0
  {
    var k := (p - h) / TwoTo32;
    assert p - h == k * TwoTo32;
    assert (p * 31 + c) - (31 * h + c) == 0 + (31 * k) * TwoTo32;
    ModMultiple(0, 31 * k);
  }

  /** One step of the source loop, as written with the shift. */
  lemma ShiftStep(h: int, c: int)
    requires -TwoTo31 <= h < TwoTo31
    ensures ToInt32(ShiftLeft5(h) - h + c) == ToInt32(31 * h + c)
  {
    var w := h * 32;
    assert (w - ToInt32(w)) % TwoTo32 == 0;
    var k := (w - ToInt32(w)) / TwoTo32;
    assert w - ToInt32(w) == k * TwoTo32;
    assert (31 * h + c) - (ShiftLeft5(h) - h + c) == k * TwoTo32;
    ToInt32Congruent(31 * h + c, ShiftLeft5(h) - h + c);
  }

  /** `hashCode(str)`. */
  method HashCode(str: string) returns (n: nat)
    ensures n == StringHash(str)
  {
    var hash := 0;
    var i := 0;
    while i < |str|
      invariant 0 <= i <= |str|
      invariant hash == HashState(str[..i])
    {
      var code := str[i] as int;
      ShiftStep(hash, code);
      assert str[..i + 1][..i] == str[..i];
      hash := ShiftLeft5(hash) - hash + code;
      hash := ToInt32(hash);
      i := i + 1;
    }
    assert str[..|str|] == str;
    n := if hash < 0 then -hash else hash;
  }
}
