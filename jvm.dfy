/**
 * The JVM integer semantics the Kotlin code relies on: 32-bit `Int`,
 * 64-bit `Long` with wrap-around arithmetic, division that truncates toward
 * zero and the narrowing conversion `Long.toInt()`.
 */
module Jvm {

  const INT_MIN: int := -0x8000_0000
  const INT_MAX: int := 0x7fff_ffff
  const LONG_MIN: int := -0x8000_0000_0000_0000
  const LONG_MAX: int := 0x7fff_ffff_ffff_ffff

  type int32 = x: int | -0x8000_0000 <= x < 0x8000_0000
  type int64 = x: int | -0x8000_0000_0000_0000 <= x < 0x8000_0000_0000_0000

  /**
   * Division of a `Long` by a positive divisor as Kotlin computes it: the
   * quotient is truncated toward zero, so a negative dividend gives a
   * quotient that is zero or negative (Dafny's own `/` would floor it).
   */
  function Quot(a: int, b: int): (q: int)
    requires b > 0
    ensures a >= 0 ==> q == a / b
    ensures a < 0 ==> a <= q * b && q <= 0
  {
    if a >= 0 then a / b
    else
      var m := (-a) / b;
      assert m * b <= -a by { DivMulBound(-a, b); }
      -m
  }

  lemma DivMulBound(a: nat, b: int)
    requires b > 0
    ensures (a / b) * b <= a && a / b >= 0
  {
  }

  /** `Long.toInt()`: keeps the low 32 bits and reads them as a two's complement `Int`. */
  function ToInt(x: int64): (r: int32)
    ensures INT_MIN <= x <= INT_MAX ==> r == x
    ensures (r - x) % 0x1_0000_0000 == 0
  {
    var low := x % 0x1_0000_0000;
    if low < 0x8000_0000 then low else low - 0x1_0000_0000
  }

  /**
   * `Long` addition and multiplication: the low 64 bits of the exact
   * result, read as a two's complement `Long`.
   */
  function WrapLong(x: int): (r: int64)
    ensures LONG_MIN <= x <= LONG_MAX ==> r == x
    ensures (r - x) % 0x1_0000_0000_0000_0000 == 0
  {
    var low := x % 0x1_0000_0000_0000_0000;
    if low < 0x8000_0000_0000_0000 then low else low - 0x1_0000_0000_0000_0000
  }
}
