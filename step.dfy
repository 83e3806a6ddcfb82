/**
 The `beforeUpdate` callback that the engine runs before every update:
 first every non-static body the cursor is near receives a force
 proportional to the cursor velocity, applied at the body's own position;
 then `keepShapesInBounds` runs.  The step reads the cursor tracker and
 never writes it, so a velocity left from the last `mousemove` goes on
 being applied until the next one.
 */
module Step {
  import opened Geometry
  import opened Cursor
  import opened HitTest
  import opened Bodies
  import opened BoundsKeeper

  /** Scales the cursor velocity into a force. */
  const ForceMultiplier: real := 0.05

  /** The force the cursor exerts in the tracker state `c`. */
  function MouseForce(c: CursorState): Vec
  {
    Vec(c.mouseVelocity.x * ForceMultiplier, c.mouseVelocity.y * ForceMultiplier)
  }

  /** Does the body receive the cursor's force in this step? */
  predicate Receives(b: BodyState, c: CursorState)
  {
    !b.isStatic && IsMouseNearBody(c.mousePos, b.bounds)
  }

  /**
   One body's share of the force loop (lines 124-129): a receiving body
   gets the full force at its own centre, which adds no torque; any other
   body is untouched.
   */
  function Push(b: BodyState, c: CursorState): (r: BodyState)
    ensures Receives(b, c) ==>
              r.force == Vec(b.force.x + ForceMultiplier * c.mouseVelocity.x,
                             b.force.y + ForceMultiplier * c.mouseVelocity.y)
    ensures !Receives(b, c) ==> r == b
    ensures r.torque == b.torque
    ensures r.(force := b.force) == b
  {
    if Receives(b, c) then ApplyForceTo(b, b.position, MouseForce(c)) else b
  }

  /** The force loop over the whole body list. */
  function Pushed(world: seq<BodyState>, c: CursorState): (r: seq<BodyState>)
    ensures |r| == |world|
  {
    if world == [] then [] else [Push(world[0], c)] + Pushed(world[1..], c)
  }

  /** One whole step: every force application, then the bounds pass. */
  function StepPass(world: seq<BodyState>, c: CursorState, width: real, height: real): (r: seq<BodyState>)
    ensures |r| == |world|
  {
    Kept(Pushed(world, c), width, height)
  }

  /** Body `i` after the force loop is `Push` of body `i`, independently of every other body. */
  lemma {:induction false} PushedAt(world: seq<BodyState>, c: CursorState, i: nat)
    requires i < |world|
    ensures Pushed(world, c)[i] == Push(world[i], c)
  {
    if i > 0 {
      PushedAt(world[1..], c, i - 1);
    }
  }

  /**
   Each receiving body gets exactly the full force, however many others
   are near the cursor too: the force is not split.
   */
  lemma {:induction false} FullForceForEveryReceiver(world: seq<BodyState>, c: CursorState)
    ensures forall i :: 0 <= i < |world| && Receives(world[i], c) ==>
              Sub(Pushed(world, c)[i].force, world[i].force) == MouseForce(c)
    ensures forall i :: 0 <= i < |world| && !Receives(world[i], c) ==>
              Pushed(world, c)[i] == world[i]
  {
    forall i | 0 <= i < |world|
      ensures Receives(world[i], c) ==> Sub(Pushed(world, c)[i].force, world[i].force) == MouseForce(c)
      ensures !Receives(world[i], c) ==> Pushed(world, c)[i] == world[i]
    {
      PushedAt(world, c, i);
    }
  }

  /**
   Body `i` after a step: the force loop changes only the force, the
   bounds pass only position and velocity, and the hit test sees the
   bounds as they were when the step began.
   */
  lemma StepAt(world: seq<BodyState>, c: CursorState, width: real, height: real, i: nat)
    requires i < |world|
    ensures StepPass(world, c, width, height)[i].force ==
              (if Receives(world[i], c) then Add(world[i].force, MouseForce(c)) else world[i].force)
    ensures StepPass(world, c, width, height)[i].(force := world[i].force) ==
              CorrectIfDynamic(world[i], width, height)
  {
    PushedAt(world, c, i);
    KeptAt(Pushed(world, c), width, height, i);
  }

  /** Static bodies come out of a step exactly as they went in. */
  lemma {:induction false} StepLeavesStaticBodies(world: seq<BodyState>, c: CursorState, width: real, height: real)
    ensures forall i :: 0 <= i < |world| && world[i].isStatic ==> StepPass(world, c, width, height)[i] == world[i]
  {
    forall i | 0 <= i < |world| && world[i].isStatic
      ensures StepPass(world, c, width, height)[i] == world[i]
    {
      StepAt(world, c, width, height, i);
    }
  }

  /**
   Stale velocity.  `BeforeUpdate` leaves the tracker unchanged, so after
   the events `samples` every later step pushes with the tracker state
   `Replay(samples)`, whatever the engine has made of the bodies in between
   (`next`): a receiving body gets 0.05 times the difference of the last
   two samples, however many steps ago they arrived.
   */
  lemma StaleVelocityKeepsPushing(next: seq<BodyState>, samples: seq<Vec>, width: real, height: real, i: nat)
    requires i < |next| && Receives(next[i], Replay(samples))
    ensures StepPass(next, Replay(samples), width, height)[i].force ==
              Add(next[i].force, Scale(Sub(Latest(samples), Previous(samples)), ForceMultiplier))
  {
    StepAt(next, Replay(samples), width, height, i);
    ReplayKeepsLastTwoSamples(samples);
  }

  // ---------------------------------------------------------------------
  // The source's code, on the engine's mutable bodies

  /** The force loop (lines 121-130), reading the cursor from the tracker. */
  method ApplyMouseForces(bodies: seq<Body>, cursor: CursorTracker)
    requires Distinct(bodies)
    modifies set b | b in bodies
    ensures States(bodies) == Pushed(old(States(bodies)), cursor.State())
  {
    ghost var before := States(bodies);
    var i := 0;
    while i < |bodies|
      invariant 0 <= i <= |bodies|
      invariant forall j :: 0 <= j < i ==> bodies[j].State() == Push(before[j], cursor.State())
      invariant forall j :: i <= j < |bodies| ==> bodies[j].State() == before[j]
    {
      var body := bodies[i];
      if !body.isStatic && IsMouseNearBody(cursor.mousePos, body.bounds) {
        body.ApplyForce(body.position, Vec(cursor.mouseVelocity.x * ForceMultiplier,
                                           cursor.mouseVelocity.y * ForceMultiplier));
      }
      i := i + 1;
    }
    forall j | 0 <= j < |bodies|
      ensures States(bodies)[j] == Pushed(before, cursor.State())[j]
    {
      PushedAt(before, cursor.State(), j);
    }
  }

  /** The `beforeUpdate` callback (lines 120-133). */
  method BeforeUpdate(bodies: seq<Body>, cursor: CursorTracker, width: real, height: real)
    requires Distinct(bodies)
    modifies set b | b in bodies
    ensures States(bodies) == StepPass(old(States(bodies)), cursor.State(), width, height)
    ensures cursor.State() == old(cursor.State())
  {
    ApplyMouseForces(bodies, cursor);
    KeepShapesInBounds(bodies, width, height);
  }
}
