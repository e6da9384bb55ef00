/** Optional values, standing in for JavaScript's `undefined`/`null` results. */
module Wrappers {

  datatype Option<+T> = None | Some(value: T) {

    /** The value, or `default` when absent: JavaScript's `x ?? default`. */
    function GetOr(default: T): T {
      match this
      case Some(v) => v
      case None => default
    }
  }
}

/** Plain geometric records shared by the map view and the viewport (model/common.ts). */
module Common {

  datatype Point = Point(x: real, y: real)

  datatype PointWithHeight = PointWithHeight(x: real, y: real, height: real)

  datatype Dimensions = Dimensions(width: real, height: real)

  /** A measured, non-degenerate size: the only kind a division may use. */
  predicate Positive(d: Dimensions) {
    d.width > 0.0 && d.height > 0.0
  }

  /** JavaScript's `Math.round` on a number: the nearest integer, halves rounded up. */
  function Round(x: real): (r: int)
    ensures r as real <= x + 0.5 < r as real + 1.0
  {
    (x + 0.5).Floor
  }

  function Min(a: real, b: real): (r: real)
    ensures r <= a && r <= b && (r == a || r == b)
  {
    if a <= b then a else b
  }

  function Max(a: real, b: real): (r: real)
    ensures r >= a && r >= b && (r == a || r == b)
  {
    if a >= b then a else b
  }
}
