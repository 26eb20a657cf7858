/** The swipe hook: it remembers where a touch began and, when the touch ends, names the
  * direction the finger travelled, provided it travelled far enough along the dominant axis. */
module Swipe {
  import opened Wrappers

  datatype Direction = Left | Right | Up | Down

  /** Travel of more than this many pixels along the dominant axis is a swipe. */
  const Threshold: real := 50.0

  function Abs(x: real): (a: real)
    ensures a >= 0.0 && (a == x || a == -x)
  {
    if x < 0.0 then -x else x
  }

  /** The callback `handleTouchEnd` fires for the differences `start - end` on each axis: the
    * horizontal axis decides only when it strictly dominates, ties go to the vertical one. */
  function Classify(diffX: real, diffY: real): Option<Direction> {
    if Abs(diffX) > Abs(diffY) then
      if diffX > Threshold then Some(Left)
      else if diffX < -Threshold then Some(Right)
      else None
    else
      if diffY > Threshold then Some(Up)
      else if diffY < -Threshold then Some(Down)
      else None
  }

  /** Each direction fires exactly under its own condition, and nothing fires when the
    * difference along the dominant axis lies within [-50, 50]. */
  lemma {:induction false} ClassifyConditions(diffX: real, diffY: real)
    ensures Classify(diffX, diffY) == Some(Left) <==> Abs(diffX) > Abs(diffY) && diffX > Threshold
    ensures Classify(diffX, diffY) == Some(Right) <==> Abs(diffX) > Abs(diffY) && diffX < -Threshold
    ensures Classify(diffX, diffY) == Some(Up) <==> Abs(diffX) <= Abs(diffY) && diffY > Threshold
    ensures Classify(diffX, diffY) == Some(Down) <==> Abs(diffX) <= Abs(diffY) && diffY < -Threshold
    ensures Classify(diffX, diffY) == None <==>
      if Abs(diffX) > Abs(diffY) then Abs(diffX) <= Threshold else Abs(diffY) <= Threshold
  {
  }

  /** A swipe is long: whatever fires, the finger moved more than the threshold on both the
    * dominant axis and in total Manhattan distance. */
  lemma {:induction false} FiredSwipeIsLong(diffX: real, diffY: real)
    requires Classify(diffX, diffY).Some?
    ensures Abs(diffX) > Threshold || Abs(diffY) > Threshold
    ensures Abs(diffX) + Abs(diffY) > Threshold
  {
  }

  function Opposite(d: Direction): (o: Direction)
    ensures o != d
  {
    match d
    case Left => Right
    case Right => Left
    case Up => Down
    case Down => Up
  }

  /** The same gesture run backwards fires the opposite callback, or again nothing. */
  lemma {:induction false} ReversedGesture(diffX: real, diffY: real)
    ensures Classify(-diffX, -diffY) ==
      match Classify(diffX, diffY)
      case None => None
      case Some(d) => Some(Opposite(d))
  {
  }

  /** The stored start point: `touchStartRef`. */
  class SwipeHandler {
    var startX: real
    var startY: real

    /** The ref starts at the origin. */
    constructor ()
      ensures startX == 0.0 && startY == 0.0
    {
      startX, startY := 0.0, 0.0;
    }

    /** `handleTouchStart`: overwrites the start point with the first touch. */
    method TouchStart(x: real, y: real)
      modifies this
      ensures startX == x && startY == y
    {
      startX, startY := x, y;
    }

    /** `handleTouchEnd`: the direction fired, if any, for a touch lifted at (x, y); the start
      * point stays as it was. */
    method TouchEnd(x: real, y: real) returns (fired: Option<Direction>)
      ensures fired == Classify(startX - x, startY - y)
    {
      var diffX := startX - x;
      var diffY := startY - y;
      if Abs(diffX) > Abs(diffY) {
        if diffX > Threshold {
          fired := Some(Left);
        } else if diffX < -Threshold {
          fired := Some(Right);
        } else {
          fired := None;
        }
      } else {
        if diffY > Threshold {
          fired := Some(Up);
        } else if diffY < -Threshold {
          fired := Some(Down);
        } else {
          fired := None;
        }
      }
    }
  }

  /** A finger dragged 80 pixels to the left and 30 down fires the left callback; a tap fires
    * nothing; a perfect diagonal of 60 pixels up and to the left fires up. */
  method Gestures() returns (drag: Option<Direction>, tap: Option<Direction>, diagonal: Option<Direction>)
    ensures drag == Some(Left) && tap == None && diagonal == Some(Up)
  {
    var h := new SwipeHandler();
    h.TouchStart(200.0, 100.0);
    drag := h.TouchEnd(120.0, 130.0);
    h.TouchStart(10.0, 10.0);
    tap := h.TouchEnd(10.0, 10.0);
    diagonal := h.TouchEnd(-50.0, -50.0);
  }
}
