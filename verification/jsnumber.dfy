/**
 * The part of JavaScript number arithmetic the client screens depend on:
 * a division may produce an infinity or NaN, and comparisons, `Math.min`
 * and `Math.round` treat those specially. Finite values are exact reals;
 * rounding of binary floating point and the sign of zero are not modelled.
 */
module JsNumber {

  datatype Num = Finite(v: real) | PosInf | NegInf | NaN

  /** `a / b`: a zero divisor gives an infinity of the dividend's sign, or NaN for `0 / 0`. */
  function Div(a: real, b: real): (r: Num)
    ensures b != 0.0 ==> r == Finite(a / b)
    ensures b == 0.0 ==> (r == PosInf <==> a > 0.0) && (r == NegInf <==> a < 0.0) && (r == NaN <==> a == 0.0)
  {
    if b != 0.0 then Finite(a / b)
    else if a > 0.0 then PosInf
    else if a < 0.0 then NegInf
    else NaN
  }

  /** `x * k` for a positive finite `k`: infinities and NaN are kept. */
  function Scale(x: Num, k: real): (r: Num)
    requires k > 0.0
    ensures x.Finite? <==> r.Finite?
    ensures x.Finite? ==> r.v == x.v * k
    ensures !x.Finite? ==> r == x
  {
    match x
    case Finite(v) => Finite(v * k)
    case _ => x
  }

  /** `x >= t`: false for NaN and for minus infinity, true for plus infinity. */
  predicate AtLeast(x: Num, t: real) {
    match x
    case Finite(v) => v >= t
    case PosInf => true
    case NegInf => false
    case NaN => false
  }

  /** `x > t`, with the same treatment of the special values. */
  predicate Exceeds(x: Num, t: real) {
    match x
    case Finite(v) => v > t
    case PosInf => true
    case NegInf => false
    case NaN => false
  }

  /** `Math.min(x, t)` for a finite `t`: NaN wins over any number. */
  function MinWith(x: Num, t: real): (r: Num)
    ensures x == NaN <==> r == NaN
    ensures r != PosInf
    ensures r.Finite? ==> r.v <= t
    ensures x.Finite? ==> r.Finite? && (r.v == x.v || r.v == t)
    ensures x == PosInf ==> r == Finite(t)
  {
    match x
    case Finite(v) => if v < t then x else Finite(t)
    case PosInf => Finite(t)
    case NegInf => NegInf
    case NaN => NaN
  }

  /** `Math.round` on a finite value: the nearest integer, halves going up. */
  function Round(x: real): (n: int)
    ensures n as real - 0.5 <= x < n as real + 0.5
  {
    (x + 0.5).Floor
  }

  /** The nearest integer is unique, so `Round` is determined by its contract. */
  lemma RoundUnique(x: real, m: int)
    requires m as real - 0.5 <= x < m as real + 0.5
    ensures Round(x) == m
  {
  }

  /** `Math.round` on any number: the special values pass through. */
  function RoundNum(x: Num): (r: Num)
    ensures x.Finite? <==> r.Finite?
    ensures x.Finite? ==> r.v == Round(x.v) as real
    ensures !x.Finite? ==> r == x
  {
    match x
    case Finite(v) => Finite(Round(v) as real)
    case _ => x
  }
}
