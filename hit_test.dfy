/**
 The hit test `isMouseNearBody`: the cursor is near a body when it lies in
 the body's bounding box grown by the detection radius on every side.
 The source reads the cursor from module state; here it is a parameter.
 */
module HitTest {
  import opened Geometry

  /** The detection radius around the cursor. */
  const MouseRadius: real := 5.0

  /** The source's four inclusive comparisons, each written with the radius on the cursor's side. */
  function IsMouseNearBody(mousePos: Vec, bounds: Bounds): (near: bool)
    ensures near <==> Contains(Expand(bounds, MouseRadius), mousePos)
  {
    mousePos.x + MouseRadius >= bounds.min.x &&
    mousePos.x - MouseRadius <= bounds.max.x &&
    mousePos.y + MouseRadius >= bounds.min.y &&
    mousePos.y - MouseRadius <= bounds.max.y
  }

  /** A cursor inside the bounds, edges included, is always near. */
  lemma InsideBoundsIsNear(mousePos: Vec, bounds: Bounds)
    requires Contains(bounds, mousePos)
    ensures IsMouseNearBody(mousePos, bounds)
  {
  }

  /**
   A box of zero area around `c` is still hit by every cursor within the
   radius of `c` on both axes, and only by those.
   */
  lemma ZeroAreaBoundsAreHit(mousePos: Vec, c: Vec)
    ensures IsMouseNearBody(mousePos, Bounds(c, c)) <==>
              Abs(mousePos.x - c.x) <= MouseRadius && Abs(mousePos.y - c.y) <= MouseRadius
  {
  }
}
