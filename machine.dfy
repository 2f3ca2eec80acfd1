/** Fixed-width integer arithmetic of the host program (an LP64 C++ target):
    `size_t` and `unsigned long` are unsigned 64-bit, `int` is signed 32-bit.
    Dafny integers are unbounded, so every wrap-around is written out here. */
module Machine {

  /** 2^64: the modulus of `size_t` and `unsigned long` arithmetic. */
  const SizeModulus: nat := 0x1_0000_0000_0000_0000

  /** 2^32: the modulus of a conversion to a 32-bit `int`. */
  const IntModulus: nat := 0x1_0000_0000

  const IntMin: int := -0x8000_0000
  const IntMax: int := 0x7FFF_FFFF

  predicate FitsInt(x: int) {
    IntMin <= x <= IntMax
  }

  /** The unsigned 64-bit value of an exact integer result: the unique value
      below 2^64 that is congruent to `x`. */
  function WrapSize(x: int): (r: nat)
    ensures r < SizeModulus
    ensures (x - r) % SizeModulus == 0
    ensures 0 <= x < SizeModulus ==> r == x
    ensures -(SizeModulus as int) <= x < 0 ==> r == x + SizeModulus
  {
    x % SizeModulus
  }

  /** Conversion of a `size_t` value to a 32-bit `int` (modular, as C++20
      specifies and as LP64 compilers do): the unique `int` congruent to `x`. */
  function ToInt(x: nat): (r: int)
    requires x < SizeModulus
    ensures FitsInt(r)
    ensures (x - r) % IntModulus == 0
    ensures x <= IntMax ==> r == x
  {
    var low := x % IntModulus;
    if low <= IntMax then low else low - IntModulus
  }

  /** Euclidean division is unique: a quotient and remainder that satisfy the
      division equation are the ones `/` and `%` produce. */
  lemma DivModUnique(a: int, b: int, q: int, r: int)
    requires b > 0 && 0 <= r < b
    requires a == q * b + r
    ensures a / b == q && a % b == r
  {
    var q0, r0 := a / b, a % b;
    assert a == q0 * b + r0;
    assert (q - q0) * b == r0 - r;
    if q > q0 {
      MulAtLeast(q - q0, b);
      assert false;
    } else if q < q0 {
      MulAtLeast(q0 - q, b);
      assert false;
    }
  }

  lemma MulAtLeast(k: int, b: int)
    requires k >= 1 && b > 0
    ensures k * b >= b
  {
    assert k * b == (k - 1) * b + b;
    assert (k - 1) * b >= 0;
  }

  /** A product is a multiple of each factor. */
  lemma MulMod(k: nat, b: nat)
    requires b > 0
    ensures (k * b) % b == 0 && (k * b) / b == k
  {
    DivModUnique(k * b, b, k, 0);
  }

  /** The truncated quotient times the divisor does not exceed the dividend. */
  lemma DivFloor(a: nat, b: nat)
    requires b > 0
    ensures b * (a / b) <= a
  {
    assert a == (a / b) * b + a % b;
  }
}
