/**
 * Rectangles `(x0, y0, x1, y1)` as PDF coordinates: `y` grows downwards, so
 * `y0` is the top edge and `y1` the bottom edge. Coordinates are exact reals.
 */
module Geometry {
  datatype Rect = Rect(x0: real, y0: real, x1: real, y1: real)

  function Min(a: real, b: real): real { if a <= b then a else b }
  function Max(a: real, b: real): real { if a >= b then a else b }

  /** Coordinate-wise min/max of two boxes, as `_merge_related_blocks` updates `bbox`. */
  function Union(a: Rect, b: Rect): (u: Rect)
    ensures Contains(u, a) && Contains(u, b)
    ensures u.x0 in {a.x0, b.x0} && u.y0 in {a.y0, b.y0}
    ensures u.x1 in {a.x1, b.x1} && u.y1 in {a.y1, b.y1}
  {
    Rect(Min(a.x0, b.x0), Min(a.y0, b.y0), Max(a.x1, b.x1), Max(a.y1, b.y1))
  }

  /** `outer` covers `inner`. */
  predicate Contains(outer: Rect, inner: Rect) {
    outer.x0 <= inner.x0 && outer.y0 <= inner.y0 && inner.x1 <= outer.x1 && inner.y1 <= outer.y1
  }

  /** The width of a rectangle, which is never negative. */
  function Width(r: Rect): (w: real)
    ensures w >= 0.0
    ensures w == r.x1 - r.x0 || (w == 0.0 && r.x1 < r.x0)
  {
    Max(r.x1 - r.x0, 0.0)
  }

  /** The height of a rectangle, which is never negative. */
  function Height(r: Rect): (h: real)
    ensures h >= 0.0
    ensures h == r.y1 - r.y0 || (h == 0.0 && r.y1 < r.y0)
  {
    Max(r.y1 - r.y0, 0.0)
  }
}
