/**
 * String.hashCode as the JDK computes it: h = 31 * h + c over the characters,
 * in 32-bit two's-complement arithmetic that wraps around.
 */
module JavaHash {

  const TwoTo32: int := 0x1_0000_0000
  const TwoTo31: int := 0x8000_0000

  /** A value of Java's `int` type. */
  predicate IsInt32(x: int) {
    -TwoTo31 <= x < TwoTo31
  }

  /** Reads 32 bits as a signed Java `int`; every int arises from exactly one such pattern. */
  function ToInt32(u: int): (x: int)
    requires 0 <= u < TwoTo32
    ensures IsInt32(x)
    ensures x % TwoTo32 == u
  {
    if u < TwoTo31 then u else u - TwoTo32
  }

  /** Java `int` subtraction: the exact difference wrapped into 32 bits. */
  function SubInt32(a: int, b: int): (x: int)
    requires IsInt32(a) && IsInt32(b)
    ensures IsInt32(x)
    ensures x == 0 <==> a == b
  {
    ToInt32((a - b) % TwoTo32)
  }

  /** The hash loop on the bit pattern: each step multiplies by 31, adds the character and wraps. */
  function HashBits(s: string): (u: int)
    ensures 0 <= u < TwoTo32
  {
    if s == [] then 0 else (31 * HashBits(s[..|s| - 1]) + s[|s| - 1] as int) % TwoTo32
  }

  /** String.hashCode. */
  function StringHash(s: string): (h: int)
    ensures IsInt32(h)
    ensures h % TwoTo32 == PolynomialHash(s) % TwoTo32
  {
    HashBitsIsPolynomial(s);
    ToInt32(HashBits(s))
  }

  function Pow31(n: nat): nat {
    if n == 0 then 1 else 31 * Pow31(n - 1)
  }

  /**
   * The documented closed form of String.hashCode, computed exactly:
   * s[0]*31^(n-1) + s[1]*31^(n-2) + ... + s[n-1].
   */
  function PolynomialHash(s: string): int {
    if s == [] then 0 else (s[0] as int) * Pow31(|s| - 1) + PolynomialHash(s[1..])
  }

  /** Appending a character multiplies the polynomial by 31 and adds the character. */
  lemma {:induction false} PolynomialHashSnoc(s: string, c: char)
    ensures PolynomialHash(s + [c]) == 31 * PolynomialHash(s) + c as int
  {
    if s == [] {
      assert [c][1..] == [];
    } else {
      var t := s + [c];
      assert t[1..] == s[1..] + [c];
      PolynomialHashSnoc(s[1..], c);
      calc {
        PolynomialHash(t);
        (s[0] as int) * Pow31(|s|) + PolynomialHash(s[1..] + [c]);
        (s[0] as int) * (31 * Pow31(|s| - 1)) + 31 * PolynomialHash(s[1..]) + c as int;
        { MulAssoc(s[0] as int, 31, Pow31(|s| - 1)); }
        31 * ((s[0] as int) * Pow31(|s| - 1) + PolynomialHash(s[1..])) + c as int;
      }
    }
  }

  lemma MulAssoc(a: int, b: int, c: int)
    ensures a * (b * c) == b * (a * c)
  {
  }

  lemma ModOfLinear(x: int, c: int)
    ensures (31 * (x % TwoTo32) + c) % TwoTo32 == (31 * x + c) % TwoTo32
  {
    var q := x / TwoTo32;
    var r := x % TwoTo32;
    assert x == q * TwoTo32 + r;
    assert 31 * x + c == (31 * r + c) + (31 * q) * TwoTo32;
  }

  /** The wrapping loop computes the closed form modulo 2^32. */
  lemma {:induction false} HashBitsIsPolynomial(s: string)
    ensures HashBits(s) == PolynomialHash(s) % TwoTo32
  {
    if s != [] {
      var p, c := s[..|s| - 1], s[|s| - 1];
      assert s == p + [c];
      HashBitsIsPolynomial(p);
      PolynomialHashSnoc(p, c);
      ModOfLinear(PolynomialHash(p), c as int);
    }
  }
}
