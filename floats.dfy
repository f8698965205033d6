/** Double-precision values as the indicator engine meets them: a number, one of
    the two infinities, or NaN. Numbers are exact reals; rounding and signed zero
    are not part of the model. The operations follow IEEE 754 on these four
    kinds of value. */
module Floats {

  datatype Float = Finite(x: real) | PosInf | NegInf | NaN

  /** -1, 0 or 1: the sign of a value (0 for NaN). */
  function Sign(a: Float): int {
    match a
    case Finite(x) => if x > 0.0 then 1 else if x < 0.0 then -1 else 0
    case PosInf => 1
    case NegInf => -1
    case NaN => 0
  }

  /** The infinity with the given sign, NaN for sign 0. */
  function Infinity(sign: int): Float {
    if sign > 0 then PosInf else if sign < 0 then NegInf else NaN
  }

  function Neg(a: Float): Float {
    match a
    case Finite(x) => Finite(-x)
    case PosInf => NegInf
    case NegInf => PosInf
    case NaN => NaN
  }

  function Add(a: Float, b: Float): Float {
    match (a, b)
    case (Finite(x), Finite(y)) => Finite(x + y)
    case (NaN, _) => NaN
    case (_, NaN) => NaN
    case (PosInf, NegInf) => NaN
    case (NegInf, PosInf) => NaN
    case (Finite(_), _) => b
    case (_, _) => a
  }

  function Sub(a: Float, b: Float): Float {
    Add(a, Neg(b))
  }

  function Mul(a: Float, b: Float): Float {
    match (a, b)
    case (Finite(x), Finite(y)) => Finite(x * y)
    case (NaN, _) => NaN
    case (_, NaN) => NaN
    // an infinity times zero is NaN, otherwise an infinity of the product's sign
    case (_, _) => Infinity(Sign(a) * Sign(b))
  }

  function Div(a: Float, b: Float): Float {
    match (a, b)
    case (Finite(x), Finite(y)) =>
      if y != 0.0 then Finite(x / y)
      // x / 0 is an infinity of x's sign, and 0 / 0 is NaN
      else Infinity(Sign(a))
    case (NaN, _) => NaN
    case (_, NaN) => NaN
    case (Finite(_), _) => Finite(0.0)
    case (_, Finite(_)) => if Sign(b) < 0 then Neg(a) else a
    case (_, _) => NaN
  }

  /** pandas' fillna(v) on one value. */
  function FillNa(a: Float, v: real): Float {
    if a.NaN? then Finite(v) else a
  }
}
