/** Real-valued helpers; timestamps and frame rates are modelled as reals. */
module Reals {

  /** Python's `abs` on a number. */
  function Abs(x: real): (r: real)
    ensures r >= 0.0
    ensures r == x || r == -x
  {
    if x < 0.0 then -x else x
  }
}
