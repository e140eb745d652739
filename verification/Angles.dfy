/** Angles modulo one turn: the wrapping functions of field-oriented/src/utils/math.rs. */
module Angles {
  const PI := 3.141592653589793
  const TAU := 2.0 * PI

  function WrapTo2Pi(angle: real): real {
    angle - TAU * (angle / TAU).Floor as real
  }

  /** The wrapped angle is in `[0, TAU)` and a whole number of turns away. */
  lemma WrapNear(angle: real)
    ensures 0.0 <= WrapTo2Pi(angle) < TAU
    ensures 0.0 <= angle < TAU ==> WrapTo2Pi(angle) == angle
    ensures TAU <= angle < 2.0 * TAU ==> WrapTo2Pi(angle) == angle - TAU
    ensures -TAU <= angle < 0.0 ==> WrapTo2Pi(angle) == angle + TAU
  {
    var turns := angle / TAU;
    assert turns * TAU == angle;
  }

  /** The way from one angle to another in the forward direction. */
  function Forward(a: real, b: real): real {
    if b - a < 0.0 then b - a + TAU else b - a
  }

  /** `theta` is on the closed arc that starts at `start` and is `span` long. */
  predicate OnArc(theta: real, start: real, span: real) {
    start <= theta <= start + span || theta + TAU <= start + span
  }

  /** Points of an arc of less than a turn are no further from its start than the arc is long. */
  lemma OnArcIsForward(theta: real, start: real, span: real)
    requires 0.0 <= theta < TAU && 0.0 <= start < TAU && 0.0 <= span < TAU
    ensures OnArc(theta, start, span) <==> Forward(start, theta) <= span
  {
  }
}
