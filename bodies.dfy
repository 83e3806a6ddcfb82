/**
 The engine's bodies as far as the interaction layer sees them, and the
 three engine calls it makes on them (`Body.setVelocity`,
 `Body.setPosition`, `Body.applyForce`), modelled as direct updates of the
 body's own fields.
 */
module Bodies {
  import opened Geometry

  /** A snapshot of one body's fields. */
  datatype BodyState = BodyState(
    position: Vec,
    velocity: Vec,
    bounds: Bounds,
    isStatic: bool,
    force: Vec,   // the force accumulated for the coming engine update
    torque: real  // the torque accumulated for the coming engine update
  )

  /**
   What `Body.applyForce(body, at, f)` does: the force accumulates, and so
   does the torque of `f` about the body's centre.
   */
  function ApplyForceTo(b: BodyState, at: Vec, f: Vec): (r: BodyState)
    ensures r.force == Add(b.force, f)
    ensures at == b.position ==> r.torque == b.torque
    ensures r.(force := b.force, torque := b.torque) == b
  {
    b.(force := Add(b.force, f), torque := b.torque + Cross(Sub(at, b.position), f))
  }

  /** A body object owned by the engine and mutated in place. */
  class Body {
    var position: Vec
    var velocity: Vec
    var bounds: Bounds
    var isStatic: bool
    var force: Vec
    var torque: real

    function State(): BodyState
      reads this
    {
      BodyState(position, velocity, bounds, isStatic, force, torque)
    }

    constructor (s: BodyState)
      ensures State() == s
    {
      position, velocity, bounds := s.position, s.velocity, s.bounds;
      isStatic, force, torque := s.isStatic, s.force, s.torque;
    }

    /** `Body.setVelocity(body, v)`: only the velocity changes. */
    method SetVelocity(v: Vec)
      modifies this
      ensures State() == old(State()).(velocity := v)
    {
      velocity := v;
    }

    /** `Body.setPosition(body, p)`: only the position changes. */
    method SetPosition(p: Vec)
      modifies this
      ensures State() == old(State()).(position := p)
    {
      position := p;
    }

    /** `Body.applyForce(body, at, f)`. */
    method ApplyForce(at: Vec, f: Vec)
      modifies this
      ensures State() == ApplyForceTo(old(State()), at, f)
    {
      torque := torque + Cross(Sub(at, position), f);
      force := Add(force, f);
    }
  }

  /** The engine's body list holds each body once. */
  predicate Distinct(bodies: seq<Body>)
  {
    forall i, j :: 0 <= i < j < |bodies| ==> bodies[i] != bodies[j]
  }

  /** The current snapshot of every body in the list, in list order. */
  function States(bodies: seq<Body>): seq<BodyState>
    reads set b | b in bodies
  {
    seq(|bodies|, i requires 0 <= i < |bodies| reads bodies => bodies[i].State())
  }
}
