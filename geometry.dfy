/**
 * Pixel geometry shared by the parking-lot components: the rectangles that
 * delimit parking spots, the blob keypoints a detector reports for each
 * frame, the truncation that turns a keypoint position into whole pixels,
 * and the inclusive containment test that ties keypoints to spots.
 *
 * Coordinates, sizes and times are exact reals; the floating-point rounding
 * of the original program is not modelled.
 */
module Geometry {

  /** An axis-aligned box (x, y, w, h) in frame pixels, as a bounding-rectangle call returns it. */
  datatype Rect = Rect(x: int, y: int, w: int, h: int)

  /** One blob observation: a position in fractional pixels and a size scalar. */
  datatype Keypoint = Keypoint(x: real, y: real, size: real)

  /** What the frame loop hands to the core for one frame: its keypoints and the clock reading. */
  datatype Observation = Observation(keypoints: seq<Keypoint>, now: real)

  function AbsReal(r: real): real {
    if r < 0.0 then -r else r
  }

  function AbsInt(n: int): int {
    if n < 0 then -n else n
  }

  /** Python's `int()` applied to a float: truncation toward zero. */
  function Trunc(r: real): (n: int)
    ensures 0.0 <= r ==> 0 <= n && n as real <= r < n as real + 1.0
    ensures r < 0.0 ==> n <= 0 && n as real - 1.0 < r <= n as real
  {
    if r >= 0.0 then r.Floor else -((-r).Floor)
  }

  /** The containment test of a point in a spot: inclusive on all four edges. */
  predicate IsInside(r: Rect, px: int, py: int) {
    r.x <= px <= r.x + r.w && r.y <= py <= r.y + r.h
  }

  /** Both corners (x, y) and (x + w, y + h) belong to a box with non-negative extent; one pixel further does not. */
  lemma CornersInside(r: Rect)
    requires r.w >= 0 && r.h >= 0
    ensures IsInside(r, r.x, r.y) && IsInside(r, r.x + r.w, r.y + r.h)
    ensures !IsInside(r, r.x - 1, r.y) && !IsInside(r, r.x, r.y - 1)
    ensures !IsInside(r, r.x + r.w + 1, r.y) && !IsInside(r, r.x, r.y + r.h + 1)
  {
  }
}
