/**
  The special values of IEEE 754 double arithmetic that the indicator code can
  reach when it divides without a guard: a finite value, the two infinities and
  NaN. Finite values are exact reals (rounding is not modelled) and the sign of
  zero is not tracked: a zero divisor is taken as +0.
 */
module Ieee {
  import opened Wrappers

  datatype Float = Finite(v: real) | PosInf | NegInf | NaN

  /** The float a pandas entry holds: an undefined entry is NaN. */
  function FromOption(o: Option<real>): Float {
    match o
    case Some(v) => Finite(v)
    case None => NaN
  }

  /** Back to an entry: only a finite value counts as defined. */
  function ToOption(f: Float): Option<real> {
    match f
    case Finite(v) => Some(v)
    case _ => None
  }

  function Neg(a: Float): Float {
    match a
    case Finite(v) => Finite(-v)
    case PosInf => NegInf
    case NegInf => PosInf
    case NaN => NaN
  }

  function Add(a: Float, b: Float): Float {
    match (a, b)
    case (NaN, _) => NaN
    case (_, NaN) => NaN
    case (PosInf, NegInf) => NaN
    case (NegInf, PosInf) => NaN
    case (PosInf, _) => PosInf
    case (_, PosInf) => PosInf
    case (NegInf, _) => NegInf
    case (_, NegInf) => NegInf
    case (Finite(x), Finite(y)) => Finite(x + y)
  }

  function Sub(a: Float, b: Float): Float {
    Add(a, Neg(b))
  }

  /** -1, 0 or 1 as the sign of a non-NaN value. */
  function Sign(a: Float): int
    requires !a.NaN?
  {
    match a
    case Finite(v) => if v > 0.0 then 1 else if v < 0.0 then -1 else 0
    case PosInf => 1
    case NegInf => -1
  }

  /** The infinity with sign `s` (s is 1 or -1). */
  function Infinity(s: int): Float {
    if s > 0 then PosInf else NegInf
  }

  function Mul(a: Float, b: Float): Float {
    if a.NaN? || b.NaN? then NaN
    else if a.Finite? && b.Finite? then Finite(a.v * b.v)
    else if Sign(a) == 0 || Sign(b) == 0 then NaN
    else Infinity(Sign(a) * Sign(b))
  }

  function Div(a: Float, b: Float): Float {
    if a.NaN? || b.NaN? then NaN
    else if b.Finite? && b.v != 0.0 then
      (if a.Finite? then Finite(a.v / b.v) else Infinity(Sign(a) * Sign(b)))
    else if b.Finite? then
      (if Sign(a) == 0 then NaN else Infinity(Sign(a)))
    else if a.Finite? then Finite(0.0)
    else NaN
  }

  /** The comparison `a > t`; every comparison with NaN is false. */
  predicate GreaterThan(a: Float, t: real) {
    match a
    case Finite(v) => v > t
    case PosInf => true
    case NegInf => false
    case NaN => false
  }

  /** Division of a finite value by zero: an infinity of the dividend's sign, or NaN for 0/0. */
  lemma DivByZero(x: real)
    ensures Div(Finite(x), Finite(0.0)) == if x > 0.0 then PosInf else if x < 0.0 then NegInf else NaN
  {
  }

  /** Division of finite values by a non-zero divisor is exact. */
  lemma DivFinite(x: real, y: real)
    requires y != 0.0
    ensures Div(Finite(x), Finite(y)) == Finite(x / y)
  {
  }
}
