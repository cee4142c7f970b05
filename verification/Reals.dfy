/** Products of reals. */
module Reals {

  /** A product under a name of its own, so that a proof can treat it as a unit. */
  function Product(a: real, b: real): real {
    a * b
  }
}
