/** A C `double` (or `long double`) abstracted as an exact real number
    extended with IEEE 754's two infinities and NaN. Rounding and the sign
    of zero are not modelled: a zero divisor is taken to be +0. */
module Ieee {

  datatype Double = Finite(v: real) | PosInf | NegInf | NaN

  function Inf(positive: bool): Double
  {
    if positive then PosInf else NegInf
  }

  /** +1, -1 or 0 according to the sign of a value that is not NaN. */
  function Sign(a: Double): int
    requires !a.NaN?
  {
    match a
    case Finite(x) => if x > 0.0 then 1 else if x < 0.0 then -1 else 0
    case PosInf => 1
    case NegInf => -1
  }

  /** `a / b`: a nonzero finite value over zero is an infinity, zero over zero
      and infinity over infinity are NaN, NaN propagates. */
  function Div(a: Double, b: Double): (r: Double)
    ensures a.NaN? || b.NaN? ==> r.NaN?
    ensures a.Finite? && b.Finite? && b.v != 0.0 ==> r.Finite? && r.v * b.v == a.v
    ensures b == Finite(0.0) ==> !r.Finite?
    ensures a.Finite? && !b.Finite? && !b.NaN? ==> r == Finite(0.0)
  {
    if a.NaN? || b.NaN? then NaN
    else if a.Finite? && b.Finite? then
      if b.v != 0.0 then Finite(a.v / b.v)
      else if a.v == 0.0 then NaN
      else Inf(a.v > 0.0)
    else if a.Finite? then Finite(0.0)
    else if b.Finite? then Inf((Sign(a) > 0) == (b.v >= 0.0))
    else NaN
  }

  /** `a * b`: an infinity times zero is NaN, NaN propagates. */
  function Mul(a: Double, b: Double): (r: Double)
    ensures a.NaN? || b.NaN? ==> r.NaN?
    ensures a.Finite? && b.Finite? ==> r.Finite? && r.v == a.v * b.v
    ensures !a.Finite? && b == Finite(0.0) ==> r.NaN?
    ensures a.PosInf? && Greater(b, 0.0) ==> r.PosInf?
  {
    if a.NaN? || b.NaN? then NaN
    else if a.Finite? && b.Finite? then Finite(a.v * b.v)
    else if Sign(a) == 0 || Sign(b) == 0 then NaN
    else Inf(Sign(a) == Sign(b))
  }

  /** `a - b`: the difference of two equal infinities is NaN, NaN propagates. */
  function Sub(a: Double, b: Double): (r: Double)
    ensures a.NaN? || b.NaN? ==> r.NaN?
    ensures a.Finite? && b.Finite? ==> r.Finite? && r.v + b.v == a.v
    ensures !a.Finite? && a == b ==> r.NaN?
    ensures a.Finite? && (b.PosInf? || b.NegInf?) ==> r.PosInf? == b.NegInf? && !r.Finite? && !r.NaN?
  {
    if a.NaN? || b.NaN? then NaN
    else if a.Finite? && b.Finite? then Finite(a.v - b.v)
    else if a.Finite? then Inf(b.NegInf?)
    else if b.Finite? || a != b then a
    else NaN
  }

  /** The C comparison `a > bound` against a finite bound (false for NaN). */
  predicate Greater(a: Double, bound: real)
  {
    match a
    case Finite(x) => x > bound
    case PosInf => true
    case _ => false
  }
}
