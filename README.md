# Thrower interaction layer, in Dafny

Thrower is a browser physics playground: the user spawns 2D shapes that fall
under gravity inside four static walls, and pushes them around with the mouse.
The physics itself is Matter.js. The project's own logic is a small interaction
layer in `script.js`, and that layer is what this project models and proves
things about:

- **Cursor tracker** (`cursor.dfy`, module `Cursor`). It holds three records:
  `mousePos`, `lastMousePos` and `mouseVelocity`. Each `mousemove` event shifts
  the current sample into the previous one, stores the event's coordinates and
  sets the velocity to their difference. The class `CursorTracker` has those
  three fields. A ghost history of samples ties them to `Replay`, the same
  events folded over the value-level `Move` from the all-zero start state.
- **Hit test** (`hit_test.dfy`, module `HitTest`). `isMouseNearBody` checks
  whether the cursor lies in the body's bounding box grown by 5 on every side,
  edges included.
- **Bodies** (`bodies.dfy`, module `Bodies`). An engine body is a class with
  mutable fields: position, velocity, bounds, static flag, accumulated force
  and accumulated torque. Matter's `Body.setVelocity`, `Body.setPosition` and
  `Body.applyForce` are modelled as direct field updates. `applyForce` adds the
  force, and adds the torque of that force about the body's centre.
- **Bounds corrector** (`bounds_keeper.dfy`, module `BoundsKeeper`). For each
  non-static body, and for each axis on its own: if the centre is outside
  `[20, dimension - 20]`, that velocity component is negated and halved, and
  that position component is clamped with `max(20, min(dimension - 20, p))`.
  The body's own position and velocity objects are updated in place, so the
  y-branch reads the x-branch's writes. The model does the same, so a body
  outside a corner keeps both corrections.
- **Step** (`step.dfy`, module `Step`). This is the `beforeUpdate` callback.
  Every non-static body the cursor is near gets force
  `0.05 * mouseVelocity` at its own centre. Then the bounds pass runs. The
  step reads the cursor tracker and never writes it.

Each imperative operation is a method proved against a pure specification on
body snapshots (`BodyState`): `Correct`, `CorrectIfDynamic` and `Kept` for the
bounds pass, and `Push`, `Pushed` and `StepPass` for the step. The lemmas are
stated about those specifications. The viewport width and height are
parameters, because the source reads `window.innerWidth` and
`window.innerHeight` fresh on every pass. Mouse coordinates arrive as
parameters of `OnMouseMove`. All arithmetic is on exact `real`s.

Two consequences of the code are worth stating, because they are easy to
get wrong:
- A body with zero-area bounds can still be hit. The box is grown by the
  radius first, so a zero-area box is hit by every cursor within 5 of it on
  both axes (`HitTest.ZeroAreaBoundsAreHit`).
- The bounds pass is idempotent for every body only when the viewport is at
  least 40 wide and 40 high (`BoundsKeeper.CorrectIdempotent`). In a narrower
  or lower viewport, a second pass halves a non-zero velocity component again
  (`BoundsKeeper.NarrowViewportNotIdempotent`,
  `BoundsKeeper.ShortViewportNotIdempotent`). A body at rest is left alone by
  a second pass in a viewport of any size (`BoundsKeeper.AtRestCorrectIdempotent`).

## Model

| member | source | states |
|---|---|---|
| `Cursor.Move` | script.js:39-44 | one event stores the new sample, keeps the old one as the previous sample, and leaves velocity equal to their difference, whatever the state was before |
| `Cursor.Replay` | script.js:32-45 | the tracker state after a history of events, folded over `Move` from the all-zero start; it always satisfies the velocity invariant and holds the newest sample |
| `Cursor.ReplayKeepsLastTwoSamples` | script.js:32-45 | after any sequence of events from the all-zero start, the tracker holds the newest sample, the one before it (zero when missing) and their difference |
| `Cursor.ReplayDependsOnlyOnLastTwo` | script.js:38-45 | two event histories that end in the same two samples leave identical tracker states, so no older sample takes part |
| `Cursor.CursorTracker.constructor` | script.js:32-34 | all three records start at (0, 0), with an empty history |
| `Cursor.CursorTracker.OnMouseMove` | script.js:38-45 | `mousePos` becomes the event's coordinates and `lastMousePos` the old `mousePos`; `mouseVelocity == mousePos - lastMousePos`; the invariant tying the fields to the whole history is kept |
| `HitTest.IsMouseNearBody` | script.js:83-90 | holds exactly when the cursor lies in the bounds grown by 5 on every side, edges inclusive |
| `HitTest.InsideBoundsIsNear` | script.js:83-90 | any cursor inside the bounds, edges included, counts as near |
| `HitTest.ZeroAreaBoundsAreHit` | script.js:83-90 | a zero-area box at c is hit exactly by cursors within 5 of c on both axes |
| `Bodies.Body.constructor` | script.js:61-79 | stands in for the library's body constructors: the new body's fields are exactly the given snapshot |
| `Bodies.ApplyForceTo` | script.js:125-128 | `applyForce` adds the force to the accumulated force; when applied at the body's own position it adds no torque; no other field changes |
| `Bodies.Body.SetVelocity` | script.js:102 | `setVelocity` replaces the velocity and nothing else |
| `Bodies.Body.SetPosition` | script.js:103-106 | `setPosition` replaces the position and nothing else |
| `Bodies.Body.ApplyForce` | script.js:125-128 | the body's new state is `ApplyForceTo` of its old state |
| `BoundsKeeper.CorrectX` | script.js:101-107 | the x-branch changes only the x components of position and velocity; a body inside the x range is untouched |
| `BoundsKeeper.CorrectY` | script.js:109-115 | the y-branch changes only the y components; a body inside the y range is untouched |
| `BoundsKeeper.Correct` | script.js:97-116 | one body's correction, the y-branch applied to the x-branch's result; it changes only position and velocity (its per-axis content is in `CorrectXAxis` and `CorrectYAxis`) |
| `BoundsKeeper.CorrectIfDynamic` | script.js:94-116 | the filter on `!isStatic`: a static body is returned unchanged, and only position and velocity can change |
| `BoundsKeeper.CorrectXAxis` | script.js:101-107 | outside the x range: velocity x becomes `-0.5 *` the old value and position x becomes `max(20, min(W-20, old))`; inside it both stay; the y-branch run after it keeps them |
| `BoundsKeeper.CorrectYAxis` | script.js:109-115 | the same for y and H, whether or not the x-branch fired first (corner case) |
| `BoundsKeeper.InSafeZoneUntouched` | script.js:101-115 | a body whose centre is in `[20, W-20] x [20, H-20]` is left completely unchanged |
| `BoundsKeeper.CorrectLandsInSafeZone` | script.js:101-115 | if `W >= 40` and `H >= 40`, the corrected centre lies in the padded rectangle |
| `BoundsKeeper.FixedPointIffInSafeZone` | script.js:101-115 | if `W >= 40` and `H >= 40`, the correction leaves a body unchanged exactly when its centre is in the padded rectangle |
| `BoundsKeeper.CorrectIdempotent` | script.js:101-115 | if `W >= 40` and `H >= 40`, correcting twice gives the same as correcting once |
| `BoundsKeeper.NarrowViewportNotIdempotent` | script.js:101-104 | if `W < 40` and velocity x is non-zero, a second correction changes the body again, so the size condition is needed |
| `BoundsKeeper.ShortViewportNotIdempotent` | script.js:109-113 | if `H < 40` and velocity y is non-zero, a second correction changes the body again, so the height condition is needed too |
| `BoundsKeeper.AtRestCorrectIdempotent` | script.js:101-115 | in a viewport of any size, a body with zero velocity is unchanged by a second correction, since the clamp always yields the same position |
| `BoundsKeeper.Kept` | script.js:93-117 | one pass over the body list, as long as the list; its content, body by body, is stated by `KeptAt` |
| `BoundsKeeper.KeptAt` | script.js:93-117 | after a pass, body i is corrected if it is dynamic and unchanged if it is static, independently of the other bodies |
| `BoundsKeeper.KeptLeavesStaticBodies` | script.js:94 | a pass never modifies a static body, wherever it is |
| `BoundsKeeper.KeptLandsInSafeZone` | script.js:93-117 | if `W >= 40` and `H >= 40`, every dynamic body is in the padded rectangle after one pass |
| `BoundsKeeper.KeptIdempotent` | script.js:93-117 | if `W >= 40` and `H >= 40`, a second pass with no change in between leaves the whole body list unchanged |
| `BoundsKeeper.KeepInBounds` | script.js:97-116 | the in-place callback, where the y-branch reads the x-branch's writes, leaves the body in state `Correct` of its old state |
| `BoundsKeeper.KeepShapesInBounds` | script.js:93-117 | the loop over the mutable bodies leaves their snapshots equal to `Kept` of the old snapshots |
| `Step.Push` | script.js:124-129 | a non-static body the cursor is near gets force `+ (0.05 * vx, 0.05 * vy)` with no torque change; any other body is untouched; only the force changes |
| `Step.Pushed` | script.js:121-130 | the force loop over the body list, as long as the list; its content, body by body, is stated by `PushedAt` |
| `Step.PushedAt` | script.js:121-130 | after the force loop, body i is `Push` of body i, whatever the other bodies are |
| `Step.FullForceForEveryReceiver` | script.js:121-130 | every receiving body gets exactly the full force `0.05 * mouseVelocity`, unsplit; every other body is unchanged |
| `Step.StepPass` | script.js:120-133 | one step: the force loop, then the bounds pass on its result; as long as the list (its content is stated by `StepAt`) |
| `Step.StepAt` | script.js:120-133 | after a step, the force is the old force plus the mouse force if the body was near and dynamic, judged on its bounds at the start of the step; apart from the force, the body is exactly what the bounds pass makes of it |
| `Step.StepLeavesStaticBodies` | script.js:120-133 | static bodies come out of a step exactly as they went in |
| `Step.StaleVelocityKeepsPushing` | script.js:120-133 | after the events `samples`, any later step, on whatever bodies the engine update left, gives a receiving body the force 0.05 times the difference of the last two samples, however many steps ago they arrived |
| `Step.ApplyMouseForces` | script.js:121-130 | the in-place force loop leaves the bodies equal to `Pushed` of their old snapshots, under the tracker's current state |
| `Step.BeforeUpdate` | script.js:120-133 | the callback applies every force and then runs the bounds pass, so the result is `StepPass`; the cursor tracker is unchanged |

## Left out

- Matter.js itself: engine and world creation, the renderer, the four wall
  bodies, `Engine.run` and `Render.run` (script.js:1-29, 160-161). These are
  library calls. The walls are only static bodies in the list.
- The library internals of `setVelocity`, `setPosition` and `applyForce`.
  This leaves out `positionPrev`, time scaling, and the fact that
  `setPosition` also moves the body's vertices and recomputes its bounds.
  In the model the bounds do not move when the position is clamped. So the
  order "all forces, then the bounds pass" appears only in how `StepPass`
  and `BeforeUpdate` are built: no observable effect of the order is proved.
  Nor does any lemma follow a body's bounds from one step to the next: a
  clamped body may leave the cursor's reach in the program, and the model
  does not say so.
- The engine update that runs between two steps: integration, collisions,
  and the reset of accumulated forces. `StaleVelocityKeepsPushing` therefore
  takes the bodies after that update as an arbitrary input.
- `createShape` (script.js:48-80). It is a switch over library constructors
  with fixed sizes.
- The menu listeners (script.js:136-149) and the resize handler
  (script.js:152-157). These are DOM glue. The effect of a resize shows up as
  the width and height parameters of the next pass.
- JavaScript floating point: rounding, NaN and infinities. Coordinates are
  exact reals, so `* 0.5` and `* 0.05` are exact.
- Asynchronous event delivery. Each mouse event and each step is one
  sequential method call.
- The list that `world.bodies` returns is assumed to hold each body once
  (`Distinct`). All bodies come from separate constructor calls.
