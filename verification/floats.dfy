/** The values a pandas float column holds, on exact reals: a finite number, one of the two
    infinities, or NaN. Rounding is not modelled. */
module Floats {

  datatype Float = Num(value: real) | PosInf | NegInf | NaN

  /** `-a`. */
  function Neg(a: Float): (r: Float)
    ensures a.Num? ==> r == Num(-a.value)
    ensures (r.NaN? <==> a.NaN?) && (r.PosInf? <==> a.NegInf?) && (r.NegInf? <==> a.PosInf?)
  {
    match a
    case Num(x) => Num(-x)
    case PosInf => NegInf
    case NegInf => PosInf
    case NaN => NaN
  }

  /** `a - b`: NaN when either side is NaN or for infinity minus itself. */
  function Sub(a: Float, b: Float): (r: Float)
    ensures a.Num? && b.Num? ==> r == Num(a.value - b.value)
    ensures a.NaN? || b.NaN? ==> r.NaN?
    ensures r.NaN? ==> a.NaN? || b.NaN? || (a == b && !a.Num?)
  {
    match (a, b)
    case (NaN, _) => NaN
    case (_, NaN) => NaN
    case (Num(x), Num(y)) => Num(x - y)
    case (PosInf, PosInf) => NaN
    case (NegInf, NegInf) => NaN
    case (PosInf, _) => PosInf
    case (NegInf, _) => NegInf
    case (Num(_), _) => Neg(b)
  }

  /** `a / b`: a non-zero finite number over zero is an infinity of its sign, zero over zero
      and infinity over infinity are NaN. Zero is taken as +0.0. */
  function Div(a: Float, b: Float): (r: Float)
    ensures a.Num? && b.Num? && b.value != 0.0 ==> r == Num(a.value / b.value)
    ensures a.Num? && b == Num(0.0) ==>
              r == (if a.value > 0.0 then PosInf else if a.value < 0.0 then NegInf else NaN)
    ensures a.NaN? || b.NaN? ==> r.NaN?
  {
    match (a, b)
    case (NaN, _) => NaN
    case (_, NaN) => NaN
    case (Num(x), Num(y)) =>
      if y != 0.0 then Num(x / y) else if x > 0.0 then PosInf else if x < 0.0 then NegInf else NaN
    case (Num(_), _) => Num(0.0)
    case (_, Num(y)) => if y >= 0.0 then a else Neg(a)
    case (_, _) => NaN
  }

  /** `a * k` for a positive finite factor `k`. */
  function Scale(a: Float, k: real): (r: Float)
    requires k > 0.0
    ensures a.Num? ==> r == Num(a.value * k)
    ensures !a.Num? ==> r == a
  {
    if a.Num? then Num(a.value * k) else a
  }

  /** `a` may stand before `b` in `sort_values(ascending=False)`: larger values first,
      +inf before every number, -inf after every number, and NaN after everything. */
  predicate NotBelow(a: Float, b: Float) {
    match (a, b)
    case (_, NaN) => true
    case (NaN, _) => false
    case (PosInf, _) => true
    case (_, PosInf) => false
    case (_, NegInf) => true
    case (NegInf, _) => false
    case (Num(x), Num(y)) => x >= y
  }

  /** Any two values are ordered one way or the other. */
  lemma NotBelowTotal(a: Float, b: Float)
    ensures NotBelow(a, b) || NotBelow(b, a)
  {
  }

  /** The order is transitive, so a sequence ordered pair by pair is ordered throughout. */
  lemma NotBelowTransitive(a: Float, b: Float, c: Float)
    requires NotBelow(a, b) && NotBelow(b, c)
    ensures NotBelow(a, c)
  {
  }
}
