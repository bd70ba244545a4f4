/** The small helpers of include/util/util.h: `limit`, `sgn` and the
    string form of `makeSeed`. */
module Util {
  import opened StreamCodec

  /** `limit(v, minV, maxV)`: `maxV` above the range, `minV` below it,
      `v` otherwise; the upper bound is tested first. */
  function Limit(v: real, minV: real, maxV: real): (r: real)
    ensures minV <= maxV ==> minV <= r <= maxV
    ensures minV <= v <= maxV ==> r == v
    ensures v > maxV ==> r == maxV
    ensures v <= maxV && v < minV ==> r == minV
  {
    if v > maxV then maxV else if minV > v then minV else v
  }

  /** Clamping twice into a non-empty range is clamping once. */
  lemma LimitIdempotent(v: real, minV: real, maxV: real)
    requires minV <= maxV
    ensures Limit(Limit(v, minV, maxV), minV, maxV) == Limit(v, minV, maxV)
  {
  }

  /** `sgn(v)`: the sign of `v` as -1, 0 or 1. */
  function Sgn(v: real): (r: int)
    ensures r == -1 <==> v < 0.0
    ensures r == 0 <==> v == 0.0
    ensures r == 1 <==> v > 0.0
  {
    if v < 0.0 then -1 else if v > 0.0 then 1 else 0
  }

  const Modulus32: nat := 0x1_0000_0000

  /** The `makeSeed` loop over `s`: `retval = retval * 9 + ch` in 32-bit
      unsigned arithmetic, starting from 0. */
  function SeedFold(s: seq<WChar>): U32
  {
    if s == [] then 0 else (SeedFold(s[..|s| - 1]) * 9 + s[|s| - 1]) % Modulus32
  }

  /** The same number without wrap-around: the characters read as the
      digits of a base-9 numeral. */
  function Horner9(s: seq<WChar>): nat
  {
    if s == [] then 0 else Horner9(s[..|s| - 1]) * 9 + s[|s| - 1]
  }

  /** The seed is the base-9 value of the string reduced modulo 2^32. */
  lemma {:induction false} SeedFoldIsHornerModulo(s: seq<WChar>)
    ensures SeedFold(s) == Horner9(s) % Modulus32
  {
    if s != [] {
      var p := s[..|s| - 1];
      var c := s[|s| - 1];
      SeedFoldIsHornerModulo(p);
      var h := Horner9(p);
      var q := h / Modulus32;
      assert h == q * Modulus32 + h % Modulus32;
      assert h * 9 + c == q * 9 * Modulus32 + (h % Modulus32 * 9 + c);
      ModAddMultiple(h % Modulus32 * 9 + c, q * 9);
    }
  }

  lemma ModAddMultiple(x: nat, k: nat)
    ensures (k * Modulus32 + x) % Modulus32 == x % Modulus32
  {
  }

  /** `makeSeed(str)`: for the empty string, the seed `makeSeed()` draws
      from the environment (here the parameter `drawn`); otherwise the fold. */
  method MakeSeed(str: seq<WChar>, drawn: U32) returns (r: U32)
    ensures str == [] ==> r == drawn
    ensures str != [] ==> r == Horner9(str) % Modulus32
  {
    if str == [] {
      return drawn;
    }
    var retval: U32 := 0;
    var i := 0;
    while i < |str|
      invariant 0 <= i <= |str|
      invariant retval == SeedFold(str[..i])
    {
      assert str[..i + 1][..i] == str[..i];
      retval := (retval * 9 + str[i]) % Modulus32;
      i := i + 1;
    }
    assert str[..|str|] == str;
    SeedFoldIsHornerModulo(str);
    r := retval;
  }
}
