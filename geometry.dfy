/**
 * Face-centre arithmetic (`calculate_face_center_distance` in utils.py, the same
 * expressions inline in the detection loop of friend_detector.py).
 *
 * The source computes `sqrt(dx**2 + dy**2)` and only ever compares it against a
 * threshold. The model keeps the integer squared distance and compares it against
 * the squared threshold; `SqrtFreeThreshold` shows the two comparisons agree.
 */
module Geometry {

  /** A face location as the face detector reports it: (top, right, bottom, left). */
  datatype Box = Box(top: int, right: int, bottom: int, left: int)

  /** The two leading entries of a frame's shape: shape[0] is the height, shape[1] the width. */
  datatype Shape = Shape(height: int, width: int)

  datatype Point = Point(x: int, y: int)

  /** Python's `x // 2`, which rounds toward negative infinity, also for negative `x`. */
  function FloorHalf(x: int): (q: int)
    ensures 2 * q <= x < 2 * q + 2
  {
    x / 2
  }

  /** `((left + right) // 2, (top + bottom) // 2)`: the x coordinate comes from left/right. */
  function FaceCenter(b: Box): (c: Point)
    ensures b.left <= b.right ==> b.left <= c.x <= b.right
    ensures b.top <= b.bottom ==> b.top <= c.y <= b.bottom
  {
    Point(FloorHalf(b.left + b.right), FloorHalf(b.top + b.bottom))
  }

  /** `(frame_shape[1] // 2, frame_shape[0] // 2)`: x is half the width, y half the height. */
  function FrameCenter(s: Shape): (c: Point)
    ensures 2 * c.x <= s.width < 2 * c.x + 2
    ensures 2 * c.y <= s.height < 2 * c.y + 2
  {
    Point(FloorHalf(s.width), FloorHalf(s.height))
  }

  /** The square of the pixel distance between the face centre and the frame centre. */
  function SquaredCenterDistance(b: Box, s: Shape): (d: int)
    ensures d >= 0
    ensures d == 0 <==> FaceCenter(b) == FrameCenter(s)
  {
    var f, c := FaceCenter(b), FrameCenter(s);
    SumOfSquaresZero(f.x - c.x, f.y - c.y);
    (f.x - c.x) * (f.x - c.x) + (f.y - c.y) * (f.y - c.y)
  }

  lemma SumOfSquaresZero(dx: int, dy: int)
    ensures dx * dx + dy * dy >= 0
    ensures dx * dx + dy * dy == 0 <==> dx == 0 && dy == 0
  {
  }

  /** Whether the face centre lies strictly closer than `t` pixels to the frame centre. */
  predicate CloserThan(b: Box, s: Shape, t: nat)
    ensures t == 0 ==> !CloserThan(b, s, t)
    ensures t > 0 && FaceCenter(b) == FrameCenter(s) ==> CloserThan(b, s, t)
  {
    SquaredCenterDistance(b, s) < t * t
  }

  /**
   * For a non-negative threshold, comparing the (non-negative) square root `r` of a
   * squared distance `d2` against `t` is the same as comparing `d2` against `t * t`.
   */
  lemma SqrtFreeThreshold(d2: int, r: real, t: real)
    requires r >= 0.0 && t >= 0.0
    requires r * r == d2 as real
    ensures r < t <==> d2 as real < t * t
  {
    if r < t {
      calc {
        d2 as real;
      ==
        r * r;
      <=  { MulLeftMono(r, r, t); }
        r * t;
      <   { MulRightStrict(r, t, t); }
        t * t;
      }
    } else {
      calc {
        t * t;
      <=  { MulRightMono(t, r, t); }
        r * t;
      <=  { MulLeftMono(r, t, r); }
        r * r;
      ==
        d2 as real;
      }
    }
  }

  lemma MulLeftMono(k: real, a: real, b: real)
    requires k >= 0.0 && a <= b
    ensures k * a <= k * b
  {
  }

  lemma MulRightMono(a: real, b: real, k: real)
    requires k >= 0.0 && a <= b
    ensures a * k <= b * k
  {
  }

  lemma MulRightStrict(a: real, b: real, k: real)
    requires k > 0.0 && a < b
    ensures a * k < b * k
  {
  }

  /** `CloserThan` agrees with the source's `sqrt(...) < t` for every root of the squared distance. */
  lemma CloserThanIsDistanceBelow(b: Box, s: Shape, t: nat, r: real)
    requires r >= 0.0 && r * r == SquaredCenterDistance(b, s) as real
    ensures CloserThan(b, s, t) <==> r < t as real
  {
    SqrtFreeThreshold(SquaredCenterDistance(b, s), r, t as real);
  }
}
