/**
 * The part of JavaScript's number semantics the modelled code relies on.
 * A number is a finite value (a real, without floating-point rounding),
 * NaN, or one of the two infinities.
 */
module Js {

  datatype Num = Finite(v: real) | NaN | PosInf | NegInf

  /** `Number.isFinite(n)`. */
  predicate IsFinite(n: Num) { n.Finite? }

  /** `Number.isInteger(n)`: finite and without a fractional part. */
  predicate IsInteger(n: Num) { n.Finite? && n.v == n.v.Floor as real }

  const TWO31: int := 0x8000_0000
  const TWO32: int := 0x1_0000_0000

  /** Truncation toward zero, as the abstract operation ToIntegerOrInfinity does. */
  function Trunc(x: real): (r: int)
    ensures r as real <= x < r as real + 1.0 || r as real - 1.0 < x <= r as real
    ensures (x >= 0.0 ==> 0 <= r) && (x <= 0.0 ==> r <= 0)
  {
    if x >= 0.0 then x.Floor else -((-x).Floor)
  }

  /** Reduction of an integer into the signed 32-bit range, modulo 2^32. */
  function WrapInt32(t: int): (r: int)
    ensures -TWO31 <= r < TWO31
    ensures (r - t) % TWO32 == 0
    ensures -TWO31 <= t < TWO31 ==> r == t
  {
    var m := t % TWO32;
    if m >= TWO31 then m - TWO32 else m
  }

  /** `n | 0`: NaN and the infinities give 0, finite values are truncated and wrapped. */
  function ToInt32(n: Num): (r: int)
    ensures -TWO31 <= r < TWO31
    ensures !n.Finite? ==> r == 0
    ensures n.Finite? && -TWO31 <= Trunc(n.v) < TWO31 ==> r == Trunc(n.v)
  {
    if n.Finite? then WrapInt32(Trunc(n.v)) else 0
  }

  /** Wrapping to 32 bits keeps the parity of an integer (the low bit of its two's complement). */
  lemma WrapInt32Parity(t: int)
    ensures WrapInt32(t) % 2 == t % 2
  {
    var k := (WrapInt32(t) - t) / TWO32;
    assert WrapInt32(t) == t + k * TWO32;
    assert k * TWO32 == 2 * (k * TWO31);
  }

  /** `Math.floor` of a finite number. */
  function Floor(x: real): int { x.Floor }

  function Max(a: int, b: int): (r: int)
    ensures r >= a && r >= b && (r == a || r == b)
  {
    if a >= b then a else b
  }

  function Min(a: int, b: int): (r: int)
    ensures r <= a && r <= b && (r == a || r == b)
  {
    if a <= b then a else b
  }

  /** A JavaScript value, as far as the modelled type tests (`typeof`, truthiness) look at it. */
  datatype Value = Undefined | Null | Bool(b: bool) | Number(n: Num) | Str(s: string) | Object

  /** JavaScript truthiness: false, 0, NaN, the empty string, null and undefined are falsy. */
  predicate Truthy(x: Value)
  {
    match x
    case Undefined => false
    case Null => false
    case Bool(b) => b
    case Number(n) => !(n.NaN? || n == Finite(0.0))
    case Str(s) => s != []
    case Object => true
  }

  /** `Math.floor`: NaN and the infinities are kept. */
  function FloorNum(n: Num): (r: Num)
    ensures n.Finite? <==> r.Finite?
    ensures n.Finite? ==> r.v == n.v.Floor as real
    ensures !n.Finite? ==> r == n
  {
    if n.Finite? then Finite(n.v.Floor as real) else n
  }

  /** `a < b` on numbers: false whenever NaN takes part. */
  predicate Less(a: Num, b: Num)
  {
    match (a, b)
    case (Finite(x), Finite(y)) => x < y
    case (NegInf, Finite(_)) => true
    case (NegInf, PosInf) => true
    case (Finite(_), PosInf) => true
    case _ => false
  }

  /** `a <= b` on numbers: false whenever NaN takes part. */
  predicate LessEq(a: Num, b: Num)
  {
    !a.NaN? && !b.NaN? && !Less(b, a)
  }

  /** `Math.max(a, b)`: NaN when either is NaN, otherwise the larger. */
  function MaxNum(a: Num, b: Num): (r: Num)
    ensures a.NaN? || b.NaN? ==> r.NaN?
    ensures !a.NaN? && !b.NaN? ==> (r == a || r == b) && !Less(r, a) && !Less(r, b)
  {
    if a.NaN? || b.NaN? then NaN else if Less(a, b) then b else a
  }
}
