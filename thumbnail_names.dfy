/**
 * The cache names of src/utils/thumbnailService.ts (`generateThumbnailName`) and
 * src/utils/thumbService.ts (`generateThumbCacheName`): the same 32-bit string hash
 * over the path's UTF-16 code units, `hash = (hash << 5) - hash + char` wrapped by
 * `hash & hash`, rendered as the base-36 digits of its absolute value.
 */
module ThumbnailNames {

  // ---------------------------------------------------------------------------
  // UTF-16 code units
  // ---------------------------------------------------------------------------

  /** The code units `charCodeAt` reads for one character: one unit, or a surrogate pair. */
  function CodeUnitsOf(c: char): (u: seq<int>)
    ensures 1 <= |u| <= 2 && forall i :: 0 <= i < |u| ==> 0 <= u[i] < 0x1_0000
  {
    var v := c as int;
    if v < 0x1_0000 then [v]
    else [0xD800 + (v - 0x1_0000) / 0x400, 0xDC00 + (v - 0x1_0000) % 0x400]
  }

  /** The UTF-16 code units of a string, in order. */
  function CodeUnits(s: string): (u: seq<int>)
    ensures |u| >= |s| && forall i :: 0 <= i < |u| ==> 0 <= u[i] < 0x1_0000
  {
    if s == [] then [] else CodeUnits(s[..|s| - 1]) + CodeUnitsOf(s[|s| - 1])
  }

  // ---------------------------------------------------------------------------
  // 32-bit wrap-around
  // ---------------------------------------------------------------------------

  const Two32: int := 0x1_0000_0000
  const Two31: int := 0x8000_0000

  /** ECMAScript's ToInt32: the signed 32-bit integer congruent to `x` modulo 2^32. */
  function ToInt32(x: int): (r: int)
    ensures -Two31 <= r < Two31 && (r - x) % Two32 == 0
  {
    var m := x % Two32;
    if m >= Two31 then m - Two32 else m
  }

  /** ToInt32 moves `x` by a whole multiple of 2^32. */
  lemma ToInt32Shift(x: int) returns (q: int)
    ensures ToInt32(x) == x + Two32 * q
  {
    q := if x % Two32 >= Two31 then -(x / Two32) - 1 else -(x / Two32);
  }

  /** ToInt32 ignores whole multiples of 2^32. */
  lemma ToInt32Periodic(y: int, q: int)
    ensures ToInt32(y + Two32 * q) == ToInt32(y)
  {
    var x := y + Two32 * q;
    assert x == Two32 * (y / Two32 + q) + y % Two32;
    assert x % Two32 == y % Two32;
  }

  /** One step of the loop: `hash << 5` wraps to 32 bits, then `- hash + char`, then `& hash` wraps again. */
  function Step(hash: int, unit: int): int {
    ToInt32(ToInt32(hash * 32) - hash + unit)
  }

  /** The hash as a polynomial in 31: `sum of u[i] * 31^(n-1-i)`, without wrap-around. */
  function Polynomial(u: seq<int>): int {
    if u == [] then 0 else 31 * Polynomial(u[..|u| - 1]) + u[|u| - 1]
  }

  /** A step on any 32-bit representative of `p` gives the representative of `31 p + unit`. */
  lemma StepIsPolynomial(hash: int, p: int, unit: int)
    requires hash == ToInt32(p)
    ensures Step(hash, unit) == ToInt32(31 * p + unit)
  {
    var a := ToInt32Shift(hash * 32);
    var b := ToInt32Shift(p);
    assert ToInt32(hash * 32) - hash + unit == (31 * p + unit) + Two32 * (a + 31 * b);
    ToInt32Periodic(31 * p + unit, a + 31 * b);
  }

  /**
   * The hash loop shared by both functions. After every step the hash is a signed
   * 32-bit integer, and the final hash is the polynomial of the code units read as
   * a signed 32-bit integer.
   */
  method Hash(path: string) returns (hash: int)
    ensures -Two31 <= hash < Two31
    ensures hash == ToInt32(Polynomial(CodeUnits(path)))
  {
    var units := CodeUnits(path);
    hash := 0;
    var i := 0;
    while i < |units|
      invariant 0 <= i <= |units|
      invariant hash == ToInt32(Polynomial(units[..i]))
    {
      assert units[..i + 1][..i] == units[..i];
      StepIsPolynomial(hash, Polynomial(units[..i]), units[i]);
      hash := Step(hash, units[i]);
      i := i + 1;
    }
    assert units[..i] == units;
  }

  // ---------------------------------------------------------------------------
  // Base 36
  // ---------------------------------------------------------------------------

  /** The digit for `d`: `0`-`9`, then `a`-`z`. */
  function Digit36(d: int): (c: char)
    requires 0 <= d < 36
    ensures IsDigit36(c) && DigitValue(c) == d
  {
    if d < 10 then ('0' as int + d) as char else ('a' as int + d - 10) as char
  }

  predicate IsDigit36(c: char) {
    '0' <= c <= '9' || 'a' <= c <= 'z'
  }

  function DigitValue(c: char): int {
    if '0' <= c <= '9' then c as int - '0' as int else c as int - 'a' as int + 10
  }

  /** `n.toString(36)`: the base-36 digits of `n`, most significant first, with no leading zero. */
  function Base36(n: nat): (s: string)
    ensures |s| >= 1 && forall i :: 0 <= i < |s| ==> IsDigit36(s[i])
    ensures |s| > 1 ==> s[0] != '0'
  {
    if n < 36 then [Digit36(n)] else Base36(n / 36) + [Digit36(n % 36)]
  }

  /** The number a string of base-36 digits denotes. */
  function ParseBase36(s: string): int {
    if s == [] then 0 else 36 * ParseBase36(s[..|s| - 1]) + DigitValue(s[|s| - 1])
  }

  /** Reading the digits back gives the number: the rendering loses nothing. */
  lemma {:induction false} Base36RoundTrip(n: nat)
    ensures ParseBase36(Base36(n)) == n
  {
    if n >= 36 {
      Base36RoundTrip(n / 36);
      var s := Base36(n);
      assert s[..|s| - 1] == Base36(n / 36);
    }
  }

  /** `Math.abs`. */
  function Abs(x: int): nat {
    if x < 0 then -x else x
  }

  // ---------------------------------------------------------------------------
  // The two names
  // ---------------------------------------------------------------------------

  /** `generateThumbnailName`: the base-36 hash followed by `.jpg`. */
  method GenerateThumbnailName(filePath: string) returns (name: string)
    ensures name == Base36(Abs(ToInt32(Polynomial(CodeUnits(filePath))))) + ".jpg"
  {
    var hash := Hash(filePath);
    name := Base36(Abs(hash)) + ".jpg";
  }

  /** `generateThumbCacheName`: the base-36 hash alone. */
  method GenerateThumbCacheName(path: string) returns (name: string)
    ensures name == Base36(Abs(ToInt32(Polynomial(CodeUnits(path)))))
  {
    var hash := Hash(path);
    name := Base36(Abs(hash));
  }

  /**
   * A name holds only the digits `0`-`9` and `a`-`z` before its extension, denotes the
   * hash's absolute value (at most 2^31), and the empty path is named `0`.
   */
  lemma NameShape(path: string)
    ensures var digits := Base36(Abs(ToInt32(Polynomial(CodeUnits(path)))));
      && |digits| >= 1 && (forall i :: 0 <= i < |digits| ==> IsDigit36(digits[i]))
      && 0 <= ParseBase36(digits) <= Two31
    ensures Base36(Abs(ToInt32(Polynomial(CodeUnits(""))))) == "0"
  {
    Base36RoundTrip(Abs(ToInt32(Polynomial(CodeUnits(path)))));
    assert ToInt32(0) == 0;
  }

  /** The ASCII path `"a"` hashes to 97, named `2p`. */
  lemma ExampleOneUnit()
    ensures Base36(Abs(ToInt32(Polynomial(CodeUnits("a"))))) == "2p"
  {
    assert CodeUnits("a") == [97] by {
      assert "a"[..0] == "";
    }
    assert Polynomial([97]) == 97 by {
      assert [97][..0] == [];
    }
    assert ToInt32(97) == 97;
    assert Base36(97) == Base36(2) + [Digit36(25)];
  }

  /** The ASCII path `"ab"` hashes to 97 * 31 + 98 = 3105, named `2e9`. */
  lemma ExampleTwoUnits()
    ensures Base36(Abs(ToInt32(Polynomial(CodeUnits("ab"))))) == "2e9"
  {
    TwoUnits('a', 'b');
    assert ToInt32(3105) == 3105;
    Base36Of3105();
  }

  /** 3105 = (2 * 36 + 14) * 36 + 9 renders as `2e9`. */
  lemma Base36Of3105()
    ensures Base36(3105) == "2e9"
  {
    assert Base36(86) == Base36(2) + [Digit36(14)];
    assert Base36(3105) == Base36(86) + [Digit36(9)];
  }

  /** The hash of a two-unit string is `31 * first + second`. */
  lemma TwoUnits(a: char, b: char)
    requires a as int < 0x1_0000 && b as int < 0x1_0000
    ensures Polynomial(CodeUnits([a, b])) == 31 * (a as int) + b as int
  {
    assert [a, b][..1] == [a];
    assert [a][..0] == [];
    assert CodeUnits([a]) == [] + CodeUnitsOf(a) == [a as int];
    assert CodeUnits([a, b]) == CodeUnits([a]) + CodeUnitsOf(b) == [a as int, b as int];
    assert [a as int, b as int][..1] == [a as int];
    assert [a as int][..0] == [];
    assert Polynomial([a as int]) == 31 * Polynomial([]) + a as int == a as int;
    assert Polynomial([a as int, b as int]) == 31 * Polynomial([a as int]) + b as int;
  }

  /** Distinct paths can share a name: `"Aa"` and `"BB"` both hash to 2112. */
  lemma NamesCollide()
    ensures Polynomial(CodeUnits("Aa")) == Polynomial(CodeUnits("BB")) == 2112
  {
    TwoUnits('A', 'a');
    TwoUnits('B', 'B');
  }
}
