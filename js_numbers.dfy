/**
 * The few JavaScript number semantics the widgets depend on: `NaN`, addition
 * and comparison with it, and the clamping of `Array.prototype.slice`.
 */
module JsNumbers {

  /** A JavaScript number, as far as these options need one. */
  datatype JsNumber = Num(value: int) | NaN

  /** `a + n` for an integer `a`. */
  function JsAdd(a: int, n: JsNumber): JsNumber {
    match n
    case NaN => NaN
    case Num(v) => Num(a + v)
  }

  /** `a < n` for an integer `a`: every comparison with `NaN` is false. */
  predicate JsLess(a: int, n: JsNumber) {
    n.Num? && a < n.value
  }

  /** The length of `arr.slice(start, end)` for an array of `len` elements (a `NaN` end reads as 0). */
  function SliceLength(len: nat, start: nat, end: JsNumber): nat
    requires start <= len
  {
    var e := match end
      case NaN => 0
      case Num(v) => if v < 0 then (if len + v < 0 then 0 else len + v) else if v < len then v else len;
    if e <= start then 0 else e - start
  }
}
