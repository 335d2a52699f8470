/**
 * The lane-tolerant collision test used between poops and cars and between
 * two cars (static/js/game.js, checkCollision).
 */
module Collision {

  /** Vertical distance under which two rectangles count as being in the same lane. */
  const LaneTolerance: real := 5.0

  /** The part of a rectangle the test reads: left edge, top edge and width. */
  datatype Box = Box(x: real, y: real, width: real)

  function Abs(v: real): (r: real)
    ensures r >= 0.0 && (r == v || r == -v)
  {
    if v < 0.0 then -v else v
  }

  /** Same lane (|dy| <= 5) and the horizontal spans [x, x + width) intersect. */
  predicate Overlaps(a: Box, b: Box)
  {
    if Abs(a.y - b.y) > LaneTolerance then false
    else a.x < b.x + b.width && a.x + a.width > b.x
  }

  /** The test does not depend on the order of its arguments. */
  lemma OverlapsSymmetric(a: Box, b: Box)
    ensures Overlaps(a, b) == Overlaps(b, a)
  {
    assert Abs(a.y - b.y) == Abs(b.y - a.y);
  }

  /** Rectangles more than the lane tolerance apart vertically never collide. */
  lemma DifferentLanesNeverOverlap(a: Box, b: Box)
    requires a.y - b.y > LaneTolerance || b.y - a.y > LaneTolerance
    ensures !Overlaps(a, b)
  {
  }

  /** Within the lane tolerance the test is exactly open-interval intersection. */
  lemma SameLaneOverlapIsIntervalIntersection(a: Box, b: Box)
    requires -LaneTolerance <= a.y - b.y <= LaneTolerance
    ensures Overlaps(a, b) <==> (a.x < b.x + b.width && b.x < a.x + a.width)
  {
  }
}
