/**
 The cursor tracker: the three module-level records `mousePos`,
 `lastMousePos` and `mouseVelocity`, all zero at start, that every
 `mousemove` event shifts by one sample.  The velocity is the plain
 event-to-event displacement; it is not divided by time and it is not
 reset between events.
 */
module Cursor {
  import opened Geometry

  /** A snapshot of the tracker's three records. */
  datatype CursorState = CursorState(mousePos: Vec, lastMousePos: Vec, mouseVelocity: Vec)

  /** The state before any event arrives. */
  const Initial: CursorState := CursorState(Origin, Origin, Origin)

  /** The tracker's invariant: the velocity is the difference of the two samples it holds. */
  predicate Consistent(c: CursorState)
  {
    c.mouseVelocity == Sub(c.mousePos, c.lastMousePos)
  }

  /** What one `mousemove` event with client coordinates `p` does to the state. */
  function Move(c: CursorState, p: Vec): (r: CursorState)
    ensures r.mousePos == p && r.lastMousePos == c.mousePos
    ensures Consistent(r)
  {
    CursorState(p, c.mousePos, Sub(p, c.mousePos))
  }

  /** The state after the events `samples`, oldest first, starting from `Initial`. */
  function Replay(samples: seq<Vec>): (r: CursorState)
    ensures Consistent(r) && r.mousePos == Latest(samples)
  {
    if samples == [] then Initial else Move(Replay(samples[..|samples| - 1]), samples[|samples| - 1])
  }

  /** The newest sample, or the origin when there is none. */
  function Latest(samples: seq<Vec>): Vec
  {
    if samples == [] then Origin else samples[|samples| - 1]
  }

  /** The sample before the newest, or the origin when there is none. */
  function Previous(samples: seq<Vec>): Vec
  {
    if |samples| < 2 then Origin else samples[|samples| - 2]
  }

  /**
   After any sequence of events the tracker holds exactly the last two
   samples (the origin standing in for missing ones) and their difference:
   no averaging over older samples.
   */
  lemma {:induction false} ReplayKeepsLastTwoSamples(samples: seq<Vec>)
    ensures Replay(samples).mousePos == Latest(samples)
    ensures Replay(samples).lastMousePos == Previous(samples)
    ensures Consistent(Replay(samples))
  {
    if samples != [] {
      var earlier := samples[..|samples| - 1];
      ReplayKeepsLastTwoSamples(earlier);
      assert Latest(earlier) == Previous(samples);
    }
  }

  /** Two histories that end in the same two samples leave the same state. */
  lemma ReplayDependsOnlyOnLastTwo(a: seq<Vec>, b: seq<Vec>)
    requires Latest(a) == Latest(b) && Previous(a) == Previous(b)
    ensures Replay(a) == Replay(b)
  {
    ReplayKeepsLastTwoSamples(a);
    ReplayKeepsLastTwoSamples(b);
  }

  /**
   The tracker as the mutable state it is.  The ghost field `samples`
   records every event received so far, so that `Valid` can tie the three
   records to the whole history.
   */
  class CursorTracker {
    var mousePos: Vec
    var lastMousePos: Vec
    var mouseVelocity: Vec
    ghost var samples: seq<Vec>

    function State(): CursorState
      reads this
    {
      CursorState(mousePos, lastMousePos, mouseVelocity)
    }

    ghost predicate Valid()
      reads this
    {
      State() == Replay(samples)
    }

    /** All three records start at `{x: 0, y: 0}`. */
    constructor ()
      ensures Valid() && samples == []
      ensures State() == Initial
    {
      mousePos := Origin;
      lastMousePos := Origin;
      mouseVelocity := Origin;
      samples := [];
    }

    /**
     The `mousemove` handler.  `lastMousePos` receives a copy of the old
     `mousePos` (a spread copy in the source, so no aliasing), then
     `mousePos` takes the event's client coordinates and the velocity is
     recomputed from the two.
     */
    method OnMouseMove(x: real, y: real)
      requires Valid()
      modifies this
      ensures Valid() && samples == old(samples) + [Vec(x, y)]
      ensures State() == Move(old(State()), Vec(x, y))
      ensures mousePos == Vec(x, y) && lastMousePos == old(mousePos)
      ensures mouseVelocity == Sub(mousePos, lastMousePos)
    {
      lastMousePos := mousePos;
      mousePos := Vec(x, y);
      mouseVelocity := Vec(mousePos.x - lastMousePos.x, mousePos.y - lastMousePos.y);
      samples := samples + [Vec(x, y)];
      assert samples[..|samples| - 1] == old(samples);
    }
  }
}
