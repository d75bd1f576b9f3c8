// The gesture decision of `hands.onResults` (magic.js:949-999). Landmark distances are
// computed by Math.hypot in the source; here they arrive already measured.
module Gesture {
  import opened States

  /** One tracked hand: average fingertip-to-wrist distance over landmarks 8, 12, 16, 20,
      thumb-to-index pinch distance (landmarks 4 and 8), and the x of landmark 9. */
  datatype HandMetrics = HandMetrics(avgDist: real, pinchDist: real, palmX: real)

  /** One processed video frame: the hands found (at most two are requested), and, between
      the first two hands, the distances of their index tips (landmark 8) and thumb tips
      (landmark 4). */
  datatype Detection = Detection(hands: seq<HandMetrics>, distIndex: real, distThumb: real)

  const HeartDistance: real := 0.15
  const FistDistance: real := 0.25
  const PinchDistance: real := 0.05

  /** Exactly two hands whose index tips and thumb tips are both close. */
  predicate IsHeartGesture(d: Detection)
  {
    |d.hands| == 2 && d.distIndex < HeartDistance && d.distThumb < HeartDistance
  }

  /** The state one hand selects: fist, then pinch, then open hand. */
  function OneHandState(h: HandMetrics): AppState
  {
    if h.avgDist < FistDistance then TREE
    else if h.pinchDist < PinchDistance then PHOTO
    else EXPLODE
  }

  /** The state a detection selects. */
  function Classify(d: Detection): (s: AppState)
    ensures s == HEART <==> IsHeartGesture(d)
    ensures s == TREE <==>
      !IsHeartGesture(d) && (|d.hands| == 0 || d.hands[0].avgDist < FistDistance)
    ensures s == PHOTO <==>
      !IsHeartGesture(d) && |d.hands| > 0
      && d.hands[0].avgDist >= FistDistance && d.hands[0].pinchDist < PinchDistance
    ensures s == EXPLODE <==>
      !IsHeartGesture(d) && |d.hands| > 0
      && d.hands[0].avgDist >= FistDistance && d.hands[0].pinchDist >= PinchDistance
  {
    if IsHeartGesture(d) then HEART
    else if |d.hands| > 0 then OneHandState(d.hands[0])
    else TREE
  }

  /** Two hands that do not make the heart fall back to the first hand's decision. */
  lemma TwoHandsWithoutHeart(d: Detection)
    requires |d.hands| == 2 && !(d.distIndex < HeartDistance && d.distThumb < HeartDistance)
    ensures Classify(d) == OneHandState(d.hands[0]) && Classify(d) != HEART
  {
  }
}
