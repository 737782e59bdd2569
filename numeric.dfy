/** Arithmetic of the host languages, written out over unbounded numbers:
    C/Go float-to-int truncation, C `round`/Go `math.Round` rounding and the
    truncating integer `%` and `/` of C, C++ and Go. */
module Numeric {

  function Max(a: real, b: real): real { if a >= b then a else b }
  function Min(a: real, b: real): real { if a <= b then a else b }

  /** `static_cast<int>(x)` / Go `int(x)`: truncation toward zero. */
  function Trunc(x: real): (r: int)
    ensures x >= 0.0 ==> r >= 0 && r as real <= x < r as real + 1.0
    ensures x < 0.0 ==> r <= 0 && r as real - 1.0 < x <= r as real
  {
    if x >= 0.0 then x.Floor else -((-x).Floor)
  }

  /** C `round` / Go `math.Round`: nearest integer, halves away from zero. */
  function Round(x: real): (r: int)
    ensures r as real - 0.5 <= x <= r as real + 0.5
    ensures x >= 0.0 ==> r >= 0 && x < r as real + 0.5
    ensures x < 0.0 ==> r <= 0 && r as real - 0.5 < x
  {
    if x >= 0.0 then (x + 0.5).Floor else -((-x + 0.5).Floor)
  }

  function Pow(b: real, n: nat): real { if n == 0 then 1.0 else b * Pow(b, n - 1) }

  function Pow10(n: nat): (r: nat)
    ensures r >= 1
  {
    if n == 0 then 1 else 10 * Pow10(n - 1)
  }

  /** C/Go `a % b` for `b > 0`: the remainder takes the sign of `a`. */
  function CRem(a: int, b: int): (r: int)
    requires b > 0
    ensures a >= 0 ==> 0 <= r < b
    ensures a < 0 ==> -b < r <= 0
  {
    if a >= 0 then a % b else -((-a) % b)
  }

  /** C/Go `a / b` for `b > 0`: the quotient is truncated toward zero. */
  function CDiv(a: int, b: int): (r: int)
    requires b > 0
    ensures r * b + CRem(a, b) == a
  {
    if a >= 0 then a / b else -((-a) / b)
  }
}
