/**
  Go's float64 as far as the flag evaluator observes it: finite values, the
  two infinities and NaN, together with Go's ordering operators on them.
  Finite values are kept as exact reals; rounding is not modelled.
 */
module Floats {

  /** An IEEE-754 binary64 value. `-0.0` and `0.0` are the same real here,
      which matches Go, where they compare equal. */
  datatype Float64 = Finite(x: real) | Inf(negative: bool) | NaN

  /** Position of a non-NaN value on the extended real line, used only to
      define the order: -Inf below every finite value, +Inf above. */
  datatype Extended = Bottom | Real(r: real) | Top

  function ToExtended(a: Float64): Extended
    requires !a.NaN?
  {
    match a
    case Finite(x) => Real(x)
    case Inf(negative) => if negative then Bottom else Top
  }

  predicate ExtendedLt(a: Extended, b: Extended) {
    match (a, b)
    case (Bottom, Bottom) => false
    case (Bottom, _) => true
    case (Real(x), Real(y)) => x < y
    case (Real(_), Top) => true
    case (_, _) => false
  }

  /** Go's `a < b` on float64: every comparison with NaN is false. */
  predicate Lt(a: Float64, b: Float64) {
    !a.NaN? && !b.NaN? && ExtendedLt(ToExtended(a), ToExtended(b))
  }

  /** Go's `a > b`. */
  predicate Gt(a: Float64, b: Float64) {
    Lt(b, a)
  }

  /** Go's `a <= b`: `a < b` or `a == b`, and NaN equals nothing. */
  predicate Le(a: Float64, b: Float64) {
    Lt(a, b) || (!a.NaN? && a == b)
  }

  /** On non-NaN values `<` is a strict total order: finite values compare
      as reals, -Inf is least and +Inf greatest. NaN is unordered with
      respect to every value, itself included. */
  lemma LtOrder(a: Float64, b: Float64, c: Float64)
    ensures a.Finite? && b.Finite? ==> (Lt(a, b) <==> a.x < b.x)
    ensures !a.NaN? ==> Le(Inf(true), a) && Le(a, Inf(false))
    ensures a.Finite? ==> Lt(Inf(true), a) && Lt(a, Inf(false))
    ensures !Lt(a, a)
    ensures Lt(a, b) && Lt(b, c) ==> Lt(a, c)
    ensures !a.NaN? && !b.NaN? ==> (Lt(a, b) || a == b || Lt(b, a))
    ensures a.NaN? ==> !Lt(a, b) && !Lt(b, a) && !Le(a, b) && !Le(b, a)
  {
  }

  /** `<=` followed by `<` is `<`; used by the monotonicity arguments. */
  lemma LtLe(a: Float64, b: Float64, c: Float64)
    requires Lt(a, b) && Le(b, c)
    ensures Lt(a, c)
  {
  }
}
