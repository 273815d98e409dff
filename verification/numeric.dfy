/**
 * The Arduino arithmetic macros the controllers use (`abs`, `min`, `max`,
 * `constrain`) and the float-to-unsigned cast, over unbounded reals.
 */
module Numeric {

  /** Arduino `abs(x)`: `x > 0 ? x : -x`. */
  function Abs(x: real): (r: real)
    ensures r >= 0.0
    ensures r == x || r == -x
  {
    if x > 0.0 then x else -x
  }

  /** Arduino `min(a, b)`. */
  function Min(a: real, b: real): (r: real)
    ensures r <= a && r <= b
    ensures r == a || r == b
  {
    if a < b then a else b
  }

  /** Arduino `max(a, b)`. */
  function Max(a: real, b: real): (r: real)
    ensures r >= a && r >= b
    ensures r == a || r == b
  {
    if a > b then a else b
  }

  /** Arduino `constrain(x, lo, hi)`. */
  function Constrain(x: real, lo: real, hi: real): (r: real)
    ensures lo <= hi ==> lo <= r <= hi
    ensures lo <= x <= hi ==> r == x
  {
    if x < lo then lo else if x > hi then hi else x
  }

  /** `(unsigned long)x` for a non-negative float: truncation toward zero. */
  function Truncate(x: real): (n: nat)
    requires x >= 0.0
    ensures n as real <= x < n as real + 1.0
  {
    x.Floor
  }
}
