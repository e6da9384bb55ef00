/** Numeric helpers (util/math.ts). */
module MathUtil {
  import opened Common

  /**
   `bounded(value, min, max)`: `Math.min(Math.max(value, min), max)`. When the
   bounds cross, the upper one wins.
   */
  function Bounded(v: real, lo: real, hi: real): (r: real)
    ensures lo <= hi ==> lo <= r <= hi
    ensures lo <= hi ==> r == (if v < lo then lo else if v > hi then hi else v)
    ensures lo > hi ==> r == hi
  {
    Min(Max(v, lo), hi)
  }

  /** Clamping an already clamped value changes nothing. */
  lemma BoundedIdempotent(v: real, lo: real, hi: real)
    ensures Bounded(Bounded(v, lo, hi), lo, hi) == Bounded(v, lo, hi)
  {
  }

  /** `centerBetweenPoints`: the point halfway between the two. */
  function Center(x1: real, y1: real, x2: real, y2: real): (p: Point)
    ensures p.x - x1 == x2 - p.x && p.y - y1 == y2 - p.y
  {
    Point((x1 + x2) / 2.0, (y1 + y2) / 2.0)
  }

  /** The midpoint does not depend on the order of the points, and of a point with itself is that point. */
  lemma CenterSymmetric(x1: real, y1: real, x2: real, y2: real)
    ensures Center(x1, y1, x2, y2) == Center(x2, y2, x1, y1)
    ensures Center(x1, y1, x1, y1) == Point(x1, y1)
  {
  }
}
