/** JavaScript numbers without rounding and without infinities: a real, or NaN. */
module JsNumber {
  datatype Number = NaN | Fin(value: real)

  const ZERO := Fin(0.0)

  function Plus(a: Number, b: Number): Number {
    if a.NaN? || b.NaN? then NaN else Fin(a.value + b.value)
  }

  function Minus(a: Number, b: Number): Number {
    if a.NaN? || b.NaN? then NaN else Fin(a.value - b.value)
  }

  function Negate(a: Number): Number {
    if a.NaN? then NaN else Fin(-a.value)
  }

  /** `n > 0`: false for NaN. */
  predicate IsPositive(n: Number) {
    n.Fin? && n.value > 0.0
  }

  /** `a != b`: NaN differs from everything, itself included. */
  predicate Differs(a: Number, b: Number) {
    a.NaN? || b.NaN? || a != b
  }
}
