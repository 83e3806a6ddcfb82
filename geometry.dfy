/**
 Screen-space vectors and axis-aligned bounding boxes, over exact reals.
 These are the `{x, y}` records and the `bounds.min` / `bounds.max` corners
 that the interaction layer reads from the physics engine's bodies.
 */
module Geometry {

  /** A point or a displacement in screen space. */
  datatype Vec = Vec(x: real, y: real)

  const Origin: Vec := Vec(0.0, 0.0)

  function Add(a: Vec, b: Vec): Vec
  {
    Vec(a.x + b.x, a.y + b.y)
  }

  function Sub(a: Vec, b: Vec): Vec
  {
    Vec(a.x - b.x, a.y - b.y)
  }

  function Scale(a: Vec, k: real): Vec
  {
    Vec(a.x * k, a.y * k)
  }

  /** The z-component of the 2D cross product, as used for torque. */
  function Cross(a: Vec, b: Vec): real
  {
    a.x * b.y - a.y * b.x
  }

  /** An axis-aligned bounding box given by its two corners. */
  datatype Bounds = Bounds(min: Vec, max: Vec)

  /** Does the box contain the point, edges included? */
  predicate Contains(box: Bounds, p: Vec)
  {
    box.min.x <= p.x <= box.max.x && box.min.y <= p.y <= box.max.y
  }

  /** The box grown by `margin` on every side. */
  function Expand(box: Bounds, margin: real): Bounds
  {
    Bounds(Vec(box.min.x - margin, box.min.y - margin), Vec(box.max.x + margin, box.max.y + margin))
  }

  /** `Math.min` and `Math.max` on two numbers (no NaN here). */
  function Min(a: real, b: real): real
  {
    if a <= b then a else b
  }

  function Max(a: real, b: real): real
  {
    if a >= b then a else b
  }

  function Abs(a: real): real
  {
    if a < 0.0 then -a else a
  }
}
