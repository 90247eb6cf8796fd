/** Axis-aligned rectangles and the inclusive point test the slider uses to
    decide whether a touch lands on its thumb (src/Slider.js, `Rect`). */
module Geometry {

  /** A width/height pair, as the host layout system reports it. */
  datatype Size = Size(width: real, height: real)

  datatype Rect = Rect(x: real, y: real, width: real, height: real)

  /** Inclusive on all four edges. */
  predicate ContainsPoint(r: Rect, px: real, py: real)
  {
    px >= r.x && py >= r.y && px <= r.x + r.width && py <= r.y + r.height
  }

  /** The same rectangle moved by `(dx, dy)`. */
  function Translate(r: Rect, dx: real, dy: real): Rect
  {
    Rect(r.x + dx, r.y + dy, r.width, r.height)
  }

  /** Every point of the boundary of a rectangle with non-negative size,
      corners included, counts as inside. */
  lemma BoundaryIsInside(r: Rect, t: real)
    requires r.width >= 0.0 && r.height >= 0.0
    requires 0.0 <= t <= 1.0
    ensures ContainsPoint(r, r.x + t * r.width, r.y)
    ensures ContainsPoint(r, r.x + t * r.width, r.y + r.height)
    ensures ContainsPoint(r, r.x, r.y + t * r.height)
    ensures ContainsPoint(r, r.x + r.width, r.y + t * r.height)
  {
  }

  /** A rectangle with a negative width or height contains no point. */
  lemma NegativeSizeContainsNothing(r: Rect, px: real, py: real)
    requires r.width < 0.0 || r.height < 0.0
    ensures !ContainsPoint(r, px, py)
  {
  }

  /** Moving the rectangle and the point by the same offset does not change
      the answer. */
  lemma ContainsPointTranslationInvariant(r: Rect, px: real, py: real, dx: real, dy: real)
    ensures ContainsPoint(Translate(r, dx, dy), px + dx, py + dy) == ContainsPoint(r, px, py)
  {
  }
}
