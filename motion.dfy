// Per-frame exponential smoothing `position += (target - position) * speed`
// (magic.js:697, 775-777), over reals: Float32 rounding is not modelled.
module Motion {

  /** Smoothing factor of the static groups per frame (magic.js:804). */
  const GroupSpeed: real := 0.08
  /** Smoothing factor of the gallery pool per frame (magic.js:765). */
  const GallerySpeed: real := 0.09

  /** One frame of smoothing of one coordinate. */
  function Ease(p: real, t: real, speed: real): real
  {
    p + (t - p) * speed
  }

  /** x lies on the closed segment between a and b. */
  predicate Between(x: real, a: real, b: real)
  {
    (a <= x <= b) || (b <= x <= a)
  }

  /** `n` frames of smoothing toward a fixed target. */
  function EaseN(p: real, t: real, speed: real, n: nat): real
    decreases n
  {
    if n == 0 then p else EaseN(Ease(p, t, speed), t, speed, n - 1)
  }

  /** One step never overshoots: the new coordinate lies between the old one and the target,
      and the remaining gap shrinks by the factor 1 - speed. */
  lemma EaseStep(p: real, t: real, speed: real)
    requires 0.0 < speed <= 1.0
    ensures Between(Ease(p, t, speed), p, t)
    ensures t - Ease(p, t, speed) == (1.0 - speed) * (t - p)
  {
    var d := t - p;
    assert Ease(p, t, speed) == p + d * speed;
    EaseGap(p, t, speed);
    if d >= 0.0 {
      assert 0.0 <= d * speed <= d;
    } else {
      assert d <= d * speed <= 0.0;
    }
  }

  /** The gap left after one step is the factor 1 - speed of the gap before it. */
  lemma EaseGap(p: real, t: real, speed: real)
    ensures t - Ease(p, t, speed) == (1.0 - speed) * (t - p)
  {
    var d := t - p;
    assert t - Ease(p, t, speed) == d - d * speed;
    assert (1.0 - speed) * d == d - speed * d;
  }

  /** The worked example of the smoothing step: from 0 toward 10 at speed 0.1 gives 1. */
  lemma EaseExample()
    ensures Ease(0.0, 10.0, 0.1) == 1.0
  {
  }

  /** Repeated smoothing converges monotonically: every frame stays between the start and
      the target, and each frame lies between the previous frame and the target. */
  lemma {:induction false} EaseNMonotone(p: real, t: real, speed: real, n: nat)
    requires 0.0 < speed <= 1.0
    ensures Between(EaseN(p, t, speed, n), p, t)
    ensures Between(EaseN(p, t, speed, n + 1), EaseN(p, t, speed, n), t)
    decreases n
  {
    var q := Ease(p, t, speed);
    EaseStep(p, t, speed);
    if n > 0 {
      EaseNMonotone(q, t, speed, n - 1);
    } else {
      assert EaseN(p, t, speed, 1) == EaseN(q, t, speed, 0);
    }
  }
}
