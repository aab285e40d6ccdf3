/**
 C++ numeric conversions that the WebM audio client relies on, stated over
 Dafny's unbounded `int` and exact `real`.

 Dafny's `/` is Euclidean and `.Floor` rounds toward negative infinity; C++
 integer division and the conversion of a floating value to an integer type
 both truncate toward zero. The two functions below write that out, and
 their contracts characterise the result independently of the bodies.
 */
module CppNumeric {

  /** Conversion of a floating value to an integer type (`int n = x;`):
      the fractional part is discarded, rounding toward zero. */
  function TruncateToInt(x: real): (n: int)
    ensures 0.0 <= x ==> 0 <= n && n as real <= x < n as real + 1.0
    ensures x < 0.0 ==> n <= 0 && n as real - 1.0 < x <= n as real
  {
    if x >= 0.0 then x.Floor else -((-x).Floor)
  }

  /** Integer division `a / b` with a positive divisor: the quotient is
      rounded toward zero, so the remainder takes the sign of `a`. */
  function TruncatingDiv(a: int, b: int): (q: int)
    requires b > 0
    ensures 0 <= a ==> 0 <= a - q * b < b
    ensures a < 0 ==> -b < a - q * b <= 0
  {
    if a >= 0 then a / b else -((-a) / b)
  }
}
