/** Floating-point numbers as the source compares and adds them: finite values are exact, and there are
    two infinities and a value that is not a number, with which every comparison is false. */
module Floats {
  datatype Num = NaN | NegInf | Fin(v: real) | PosInf

  const ZERO := Fin(0.0)

  predicate Lt(a: Num, b: Num) {
    match (a, b)
    case (NaN, _) => false
    case (_, NaN) => false
    case (Fin(x), Fin(y)) => x < y
    case (_, _) => a != b && (a.NegInf? || b.PosInf?)
  }

  predicate Le(a: Num, b: Num) {
    !a.NaN? && !b.NaN? && (a == b || Lt(a, b))
  }

  function Add(a: Num, b: Num): Num {
    match (a, b)
    case (NaN, _) => NaN
    case (_, NaN) => NaN
    case (Fin(x), Fin(y)) => Fin(x + y)
    case (Fin(_), _) => b
    case (_, Fin(_)) => a
    case (_, _) => if a == b then a else NaN
  }

  function Neg(a: Num): Num {
    match a
    case NaN => NaN
    case NegInf => PosInf
    case Fin(x) => Fin(-x)
    case PosInf => NegInf
  }

  function Sub(a: Num, b: Num): Num {
    Add(a, Neg(b))
  }

  // Python's `min` and `max` keep the first argument unless the second one is beyond it.

  function Min(a: Num, b: Num): Num {
    if Lt(b, a) then b else a
  }

  function Max(a: Num, b: Num): Num {
    if Lt(a, b) then b else a
  }

  lemma NumbersCompare()
    ensures forall a, b :: Le(a, b) <==> !a.NaN? && !b.NaN? && !Lt(b, a)
  {
  }

  lemma NumbersChain(a: Num, b: Num, c: Num)
    requires !a.NaN? && !Lt(b, a) && Lt(b, c)
    ensures Lt(a, c)
  {
  }
}
