/// Saturating and bounded arithmetic on the unsigned counters of the
/// simulator.  Every status counter of a card is an `unsigned` in the
/// program; the model uses `nat` and writes the saturation out.
module Arith {

  /// `safe_minus`: subtraction clamped at zero.
  function SafeMinus(a: nat, b: nat): nat
  {
    if a > b then a - b else 0
  }

  function Min(a: int, b: int): int
  {
    if a <= b then a else b
  }

  function Max(a: int, b: int): int
  {
    if a >= b then a else b
  }

  /// `(x + 1) / 2`: half of `x`, rounded up.
  function HalfUp(x: nat): (r: nat)
    ensures r == 0 <==> x == 0
    ensures r <= x && x <= 2 * r
  {
    (x + 1) / 2
  }

  /// 2^32: `unsigned` arithmetic is arithmetic modulo this.
  const Modulus: nat := 0x1_0000_0000

  /// An integer computed in unsigned 32-bit arithmetic.
  function U32(x: int): (r: nat)
    ensures r < Modulus
    ensures 0 <= x < Modulus ==> r == x
    ensures (x - r) % Modulus == 0
  {
    x % Modulus
  }

  /// Subtracting in two steps saturates like subtracting the sum.
  lemma SafeMinusTwice(a: nat, b: nat, c: nat)
    ensures SafeMinus(SafeMinus(a, b), c) == SafeMinus(a, b + c)
  {
  }
}
