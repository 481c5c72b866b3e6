/**
 * The parts of JavaScript's number semantics that the model relies on:
 * `Math.round`, `Math.floor`, `Math.ceil`, `Math.abs`, values that may be NaN or
 * `undefined`, and the infinities that `Math.max`/`Math.min` start from.
 */
module JsMath {
  import opened Wrappers

  /** A JavaScript number that is either a real value or NaN/undefined (None). */
  type Num = Option<real>

  /** The result of a running maximum or minimum, which starts at -Infinity or +Infinity. */
  datatype Extended = NegInf | Finite(value: real) | PosInf

  /** `Math.floor` on a finite number. */
  function Floor(v: real): (r: int)
    ensures r as real <= v < r as real + 1.0
  {
    v.Floor
  }

  /** `Math.ceil` on a finite number. */
  function Ceil(v: real): (r: int)
    ensures r as real - 1.0 < v <= r as real
  {
    -((-v).Floor)
  }

  /** `Math.round`: the nearest integer, halves rounded towards +Infinity. */
  function Round(v: real): (r: int)
    ensures v - 0.5 < r as real <= v + 0.5
  {
    Floor(v + 0.5)
  }

  /** `Math.abs` on a finite number. */
  function Abs(v: real): (r: real)
    ensures r >= 0.0
    ensures r == v || r == -v
  {
    if v < 0.0 then -v else v
  }

  /** `Math.abs` on an integer value. */
  function IntAbs(v: int): (r: nat)
    ensures r == v || r == -v
  {
    if v < 0 then -v else v
  }

  /** Math.floor leaves integers unchanged. */
  lemma FloorOfInteger(n: int)
    ensures Floor(n as real) == n
  {
  }

  /** `Number.isInteger` on a finite number. */
  predicate IsInteger(v: real)
  {
    v.Floor as real == v
  }

  /** A value equal to an integer passes Number.isInteger. */
  lemma IntegerIsInteger(v: real, n: int)
    requires v == n as real
    ensures IsInteger(v)
  {
  }

  /** Math.round leaves integers unchanged. */
  lemma RoundOfInteger(v: real, n: int)
    requires v == n as real
    ensures Round(v) == n
  {
  }

  /** Math.round is monotone. */
  lemma RoundMonotone(a: real, b: real)
    requires a <= b
    ensures Round(a) <= Round(b)
  {
  }

  /** `Math.max(0, Math.min(255, n))`: the clamp into the byte range. */
  function ClampByte(n: int): (r: int)
    ensures 0 <= r <= 255
    ensures 0 <= n <= 255 ==> r == n
    ensures n < 0 ==> r == 0
    ensures n > 255 ==> r == 255
  {
    if n > 255 then 255 else if n < 0 then 0 else n
  }
}
