/**
 * The arithmetic of the settle test: the time elapsed since the last scroll
 * that passed the 20 ms gate, the velocity threshold and the timeout of the
 * next check.
 */
module Velocity {
  import opened Optional
  import opened Geometry

  /** The rate gate and the nominal spacing of velocity checks, in milliseconds. */
  const CheckInterval: int := 20

  /** Below this vertical speed, in pixels per millisecond, the page has settled. */
  const SettleSpeed: real := 0.03

  /**
   * `now - lastTime || 0`: with no recorded scroll the difference is NaN,
   * which, like a difference of 0, is falsy and becomes 0.
   */
  function Delay(now: int, lastTime: Option<int>): int
  {
    match lastTime
    case None => 0
    case Some(t) => now - t
  }

  /**
   * The settle test as the handler writes it: a truthy delay and
   * `|(lastScrollTop - scrollTop) / delay| < 0.03`, in exact arithmetic.
   */
  predicate IsSlow(lastScrollTop: real, scrollTop: real, delay: int)
  {
    delay != 0 && Abs((lastScrollTop - scrollTop) / (delay as real)) < SettleSpeed
  }

  /**
   * A division-free reference for the same test: the distance covered,
   * scaled by 100, is strictly less than three times the elapsed time.
   */
  predicate SlowCross(distance: real, delay: int)
  {
    delay != 0 && 100.0 * Abs(distance) < 3.0 * Abs(delay as real)
  }

  lemma AbsMul(x: real, y: real)
    ensures Abs(x * y) == Abs(x) * Abs(y)
  {
  }

  /** Multiplying both sides by a positive factor keeps a strict comparison. */
  lemma ScaleStrict(a: real, b: real, c: real)
    requires c > 0.0
    ensures a < b <==> a * c < b * c
  {
  }

  /** The handler's velocity test and the cross-multiplied reference agree on every input. */
  lemma SlowIffCross(lastScrollTop: real, scrollTop: real, delay: int)
    ensures IsSlow(lastScrollTop, scrollTop, delay) <==> SlowCross(lastScrollTop - scrollTop, delay)
  {
    if delay != 0 {
      var d := lastScrollTop - scrollTop;
      var t := delay as real;
      var q := d / t;
      assert q * t == d;
      AbsMul(q, t);
      ScaleStrict(Abs(q), SettleSpeed, Abs(t));
      assert Abs(q) < SettleSpeed <==> Abs(d) < SettleSpeed * Abs(t);
      assert Abs(d) < SettleSpeed * Abs(t) <==> 100.0 * Abs(d) < 3.0 * Abs(t);
    }
  }

  /**
   * The timeout of the rescheduled check: `delay >= 20 ? 20 : 20 - delay`.
   * It is always positive; for a non-negative delay it lies in (0, 20], and
   * a check that came sooner than 20 ms after the last gated scroll schedules
   * the next one for exactly 20 ms after that scroll.
   */
  function RescheduleTimeout(delay: int): (t: int)
    ensures t > 0
    ensures delay >= 0 ==> t <= CheckInterval
    ensures delay < CheckInterval ==> delay + t == CheckInterval
    ensures delay >= CheckInterval ==> t == CheckInterval
  {
    if delay >= CheckInterval then CheckInterval else CheckInterval - delay
  }

  /**
   * The boundary case, in exact arithmetic: 0.5 px in 20 ms (0.025 px/ms)
   * settles; 1 px (0.05 px/ms) and 0.6 px (exactly 0.03 px/ms) do not.
   */
  lemma ThresholdBoundary()
    ensures IsSlow(100.0, 100.5, 20)
    ensures !IsSlow(100.0, 101.0, 20)
    ensures !IsSlow(0.0, 0.6, 20)
  {
  }
}
