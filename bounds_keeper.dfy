/**
 The bounds corrector `keepShapesInBounds`.  For every non-static body and
 each axis on its own: when the centre lies outside
 `[Padding, dimension - Padding]`, that velocity component is negated and
 halved and that position component is clamped into the range.

 Aliasing.  In the source, `pos` and `vel` are the body's own position and
 velocity objects, which `Body.setVelocity` and `Body.setPosition` update
 in place.  So the y-branch reads `vel.x` and `pos.x` AFTER the x-branch
 may have written them, and a body outside a corner keeps its x correction
 instead of having it overwritten by stale values.  The model reads the
 body's fields afresh in the y-branch (`KeepInBounds`), and its
 specification `Correct` is the y-correction applied to the result of the
 x-correction.
 */
module BoundsKeeper {
  import opened Geometry
  import opened Bodies

  /** Distance from each viewport edge to the safe range. */
  const Padding: real := 20.0

  /** The factor the offending velocity component is scaled by after being negated. */
  const Damping: real := 0.5

  /** The trigger of one axis' correction. */
  predicate Outside(p: real, dimension: real)
  {
    p < Padding || p > dimension - Padding
  }

  /** `Math.max(padding, Math.min(dimension - padding, p))`. */
  function ClampToRange(p: real, dimension: real): real
  {
    Max(Padding, Min(dimension - Padding, p))
  }

  /** The body's centre lies in the padded rectangle. */
  predicate InSafeZone(b: BodyState, width: real, height: real)
  {
    Padding <= b.position.x <= width - Padding && Padding <= b.position.y <= height - Padding
  }

  /** The x-branch (lines 101-107): it can change only the x components. */
  function CorrectX(b: BodyState, width: real): (r: BodyState)
    ensures r == b.(position := Vec(r.position.x, b.position.y), velocity := Vec(r.velocity.x, b.velocity.y))
    ensures !Outside(b.position.x, width) ==> r == b
  {
    if Outside(b.position.x, width) then
      b.(velocity := Vec(-b.velocity.x * Damping, b.velocity.y))
       .(position := Vec(ClampToRange(b.position.x, width), b.position.y))
    else
      b
  }

  /** The y-branch (lines 109-115): it can change only the y components. */
  function CorrectY(b: BodyState, height: real): (r: BodyState)
    ensures r == b.(position := Vec(b.position.x, r.position.y), velocity := Vec(b.velocity.x, r.velocity.y))
    ensures !Outside(b.position.y, height) ==> r == b
  {
    if Outside(b.position.y, height) then
      b.(velocity := Vec(b.velocity.x, -b.velocity.y * Damping))
       .(position := Vec(b.position.x, ClampToRange(b.position.y, height)))
    else
      b
  }

  /**
   The whole correction of one body (the callback of lines 97-116): the
   y-branch sees the x-branch's writes.  Only position and velocity change.
   */
  function Correct(b: BodyState, width: real, height: real): (r: BodyState)
    ensures r.(position := b.position, velocity := b.velocity) == b
  {
    CorrectY(CorrectX(b, width), height)
  }

  /** The filter of line 94: static bodies are skipped. */
  function CorrectIfDynamic(b: BodyState, width: real, height: real): (r: BodyState)
    ensures b.isStatic ==> r == b
    ensures r.(position := b.position, velocity := b.velocity) == b
  {
    if b.isStatic then b else Correct(b, width, height)
  }

  /** One pass of `keepShapesInBounds` over the engine's body list. */
  function Kept(world: seq<BodyState>, width: real, height: real): (r: seq<BodyState>)
    ensures |r| == |world|
  {
    if world == [] then [] else [CorrectIfDynamic(world[0], width, height)] + Kept(world[1..], width, height)
  }

  // ---------------------------------------------------------------------
  // Properties of one body's correction

  /**
   The x-axis: when the centre is outside the x range the x velocity is
   negated and halved and the x position clamped; otherwise both x
   components stay.  Whatever the y-branch does afterwards, it keeps them.
   */
  lemma CorrectXAxis(b: BodyState, width: real, height: real)
    ensures Outside(b.position.x, width) ==>
              Correct(b, width, height).velocity.x == -Damping * b.velocity.x &&
              Correct(b, width, height).position.x == Max(Padding, Min(width - Padding, b.position.x))
    ensures !Outside(b.position.x, width) ==>
              Correct(b, width, height).velocity.x == b.velocity.x &&
              Correct(b, width, height).position.x == b.position.x
  {
  }

  /**
   The y-axis: the same for height and the y components, whether or not
   the x-branch fired before it.
   */
  lemma CorrectYAxis(b: BodyState, width: real, height: real)
    ensures Outside(b.position.y, height) ==>
              Correct(b, width, height).velocity.y == -Damping * b.velocity.y &&
              Correct(b, width, height).position.y == Max(Padding, Min(height - Padding, b.position.y))
    ensures !Outside(b.position.y, height) ==>
              Correct(b, width, height).velocity.y == b.velocity.y &&
              Correct(b, width, height).position.y == b.position.y
  {
  }

  /** A body whose centre is already in the padded rectangle is left completely unchanged. */
  lemma InSafeZoneUntouched(b: BodyState, width: real, height: real)
    requires InSafeZone(b, width, height)
    ensures Correct(b, width, height) == b
  {
  }

  /** When the viewport is at least twice the padding in both directions, the corrected centre is in the padded rectangle. */
  lemma CorrectLandsInSafeZone(b: BodyState, width: real, height: real)
    requires width >= 2.0 * Padding && height >= 2.0 * Padding
    ensures InSafeZone(Correct(b, width, height), width, height)
  {
    CorrectXAxis(b, width, height);
    CorrectYAxis(b, width, height);
  }

  /** Under the same condition, a body is a fixed point of the correction exactly when it is in the padded rectangle. */
  lemma FixedPointIffInSafeZone(b: BodyState, width: real, height: real)
    requires width >= 2.0 * Padding && height >= 2.0 * Padding
    ensures Correct(b, width, height) == b <==> InSafeZone(b, width, height)
  {
    if Correct(b, width, height) == b {
      CorrectLandsInSafeZone(b, width, height);
    }
  }

  /** Under the same condition, correcting twice is correcting once. */
  lemma CorrectIdempotent(b: BodyState, width: real, height: real)
    requires width >= 2.0 * Padding && height >= 2.0 * Padding
    ensures Correct(Correct(b, width, height), width, height) == Correct(b, width, height)
  {
    CorrectLandsInSafeZone(b, width, height);
    InSafeZoneUntouched(Correct(b, width, height), width, height);
  }

  /**
   The condition is needed: in a viewport narrower than twice the padding
   the clamp yields `Padding > width - Padding`, so the x-branch fires again
   on the next pass and halves a non-zero x velocity once more.
   */
  lemma NarrowViewportNotIdempotent(b: BodyState, width: real, height: real)
    requires width < 2.0 * Padding && b.velocity.x != 0.0
    ensures Correct(Correct(b, width, height), width, height) != Correct(b, width, height)
  {
    var once := Correct(b, width, height);
    CorrectXAxis(b, width, height);
    CorrectXAxis(once, width, height);
    assert Correct(once, width, height).velocity.x == Damping * Damping * b.velocity.x;
  }

  /** The same for the height: a viewport lower than twice the padding halves a non-zero y velocity again. */
  lemma ShortViewportNotIdempotent(b: BodyState, width: real, height: real)
    requires height < 2.0 * Padding && b.velocity.y != 0.0
    ensures Correct(Correct(b, width, height), width, height) != Correct(b, width, height)
  {
    var once := Correct(b, width, height);
    CorrectYAxis(b, width, height);
    CorrectYAxis(once, width, height);
    assert Correct(once, width, height).velocity.y == Damping * Damping * b.velocity.y;
  }

  /**
   So idempotence fails only through the velocity: in a viewport of any
   size, a body at rest is left alone by a second pass, because the clamp
   always yields the same position.
   */
  lemma AtRestCorrectIdempotent(b: BodyState, width: real, height: real)
    requires b.velocity == Origin
    ensures Correct(Correct(b, width, height), width, height) == Correct(b, width, height)
  {
    var once := Correct(b, width, height);
    CorrectXAxis(b, width, height);
    CorrectYAxis(b, width, height);
    CorrectXAxis(once, width, height);
    CorrectYAxis(once, width, height);
  }

  // ---------------------------------------------------------------------
  // Properties of one pass over the body list

  /** Body `i` after a pass: corrected when dynamic, untouched when static. */
  lemma {:induction false} KeptAt(world: seq<BodyState>, width: real, height: real, i: nat)
    requires i < |world|
    ensures Kept(world, width, height)[i] == CorrectIfDynamic(world[i], width, height)
  {
    if i > 0 {
      KeptAt(world[1..], width, height, i - 1);
    }
  }

  /** A pass never modifies a static body, wherever it is. */
  lemma {:induction false} KeptLeavesStaticBodies(world: seq<BodyState>, width: real, height: real)
    ensures forall i :: 0 <= i < |world| && world[i].isStatic ==> Kept(world, width, height)[i] == world[i]
  {
    forall i | 0 <= i < |world| && world[i].isStatic
      ensures Kept(world, width, height)[i] == world[i]
    {
      KeptAt(world, width, height, i);
    }
  }

  /** After a pass in a large enough viewport, every dynamic body is in the padded rectangle. */
  lemma {:induction false} KeptLandsInSafeZone(world: seq<BodyState>, width: real, height: real)
    requires width >= 2.0 * Padding && height >= 2.0 * Padding
    ensures forall i :: 0 <= i < |world| && !world[i].isStatic ==>
              InSafeZone(Kept(world, width, height)[i], width, height)
  {
    forall i | 0 <= i < |world| && !world[i].isStatic
      ensures InSafeZone(Kept(world, width, height)[i], width, height)
    {
      KeptAt(world, width, height, i);
      CorrectLandsInSafeZone(world[i], width, height);
    }
  }

  /** A second pass with no change in between leaves every body as the first pass left it. */
  lemma {:induction false} KeptIdempotent(world: seq<BodyState>, width: real, height: real)
    requires width >= 2.0 * Padding && height >= 2.0 * Padding
    ensures Kept(Kept(world, width, height), width, height) == Kept(world, width, height)
  {
    var once := Kept(world, width, height);
    forall i | 0 <= i < |world|
      ensures Kept(once, width, height)[i] == once[i]
    {
      KeptAt(world, width, height, i);
      KeptAt(once, width, height, i);
      CorrectIdempotent(world[i], width, height);
    }
  }

  // ---------------------------------------------------------------------
  // The source's code, on the engine's mutable bodies

  /** The body of the `forEach` callback (lines 98-115) for one body. */
  method KeepInBounds(body: Body, width: real, height: real)
    modifies body
    ensures body.State() == Correct(old(body.State()), width, height)
  {
    // `pos` and `vel` alias the body's own fields: each read below sees every earlier write.
    if body.position.x < Padding || body.position.x > width - Padding {
      body.SetVelocity(Vec(-body.velocity.x * Damping, body.velocity.y));
      body.SetPosition(Vec(Max(Padding, Min(width - Padding, body.position.x)), body.position.y));
    }
    if body.position.y < Padding || body.position.y > height - Padding {
      body.SetVelocity(Vec(body.velocity.x, -body.velocity.y * Damping));
      body.SetPosition(Vec(body.position.x, Max(Padding, Min(height - Padding, body.position.y))));
    }
  }

  /**
   `keepShapesInBounds()`: the filter on `!isStatic` followed by `forEach`
   is a loop that skips static bodies (nothing in the loop changes
   `isStatic`).  The viewport size is read when the pass runs.
   */
  method KeepShapesInBounds(bodies: seq<Body>, width: real, height: real)
    requires Distinct(bodies)
    modifies set b | b in bodies
    ensures States(bodies) == Kept(old(States(bodies)), width, height)
  {
    ghost var before := States(bodies);
    var i := 0;
    while i < |bodies|
      invariant 0 <= i <= |bodies|
      invariant forall j :: 0 <= j < i ==> bodies[j].State() == CorrectIfDynamic(before[j], width, height)
      invariant forall j :: i <= j < |bodies| ==> bodies[j].State() == before[j]
    {
      var body := bodies[i];
      if !body.isStatic {
        KeepInBounds(body, width, height);
      }
      i := i + 1;
    }
    forall j | 0 <= j < |bodies|
      ensures States(bodies)[j] == Kept(before, width, height)[j]
    {
      KeptAt(before, width, height, j);
    }
  }
}
