/** Decimal quantization. Amounts are reals measured in the quantum (cents for money, whole
    base units for stock), so quantizing is rounding to an integer. The 28-digit Decimal context
    is idealised to exact arithmetic. */
module Rounding {

  function Abs(x: real): (r: real)
  {
    if x < 0.0 then -x else x
  }

  /** `Decimal.quantize` with the context default, ROUND_HALF_EVEN. The contract determines the
      result: a nearest integer, and the even one when two are equally near. */
  function RoundHalfEven(x: real): (n: int)
    ensures Abs(x - n as real) <= 0.5
    ensures Abs(x - n as real) == 0.5 ==> n % 2 == 0
  {
    var f := x.Floor;
    var r := x - f as real;
    if r < 0.5 || (r == 0.5 && f % 2 == 0) then f else f + 1
  }

  /** `Decimal.quantize` with ROUND_HALF_UP: a nearest integer, and on a tie the one that is
      further from zero. */
  function RoundHalfUp(x: real): (n: int)
    ensures Abs(x - n as real) <= 0.5
    ensures Abs(x - n as real) == 0.5 ==> Abs(n as real) > Abs(x)
  {
    if x >= 0.0 then (x + 0.5).Floor else -((-x + 0.5).Floor)
  }

  lemma WholeNumbersAreFixed(n: int)
    ensures RoundHalfEven(n as real) == n
    ensures RoundHalfUp(n as real) == n
  {
  }

  lemma RoundsToItself(x: real, n: int)
    requires x == n as real
    ensures RoundHalfEven(x) == n
  {
  }
}
