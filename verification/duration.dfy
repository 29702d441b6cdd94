/**
  Go's `time.Duration`: a signed 64-bit count of nanoseconds. A product such as
  `time.Duration(m) * time.Minute` wraps around modulo 2^64 like every Go integer product, so a
  configured lifetime that is large enough lands in the past. The model's clock counts whole
  seconds; an offset is the wrapped nanosecond count rounded down to a whole second, as
  `jwt.NewNumericDate` truncates and as a cookie's `Expires` is written.
*/
module Durations {
  const TwoTo63: int := 0x8000_0000_0000_0000
  const TwoTo64: int := 0x1_0000_0000_0000_0000

  const Second: int := 1_000_000_000
  const Minute: int := 60 * Second
  const Hour: int := 60 * Minute
  const Day: int := 24 * Hour

  /** The largest minute count, and day count, whose duration fits in an int64. */
  const MaxMinutes: int := 153_722_867
  const MaxDays: int := 106_751

  /** The int64 two's-complement value of `x`: what a Go product of durations evaluates to. */
  function Wrap(x: int): (r: int)
    ensures -TwoTo63 <= r < TwoTo63
    ensures (r - x) % TwoTo64 == 0
    ensures -TwoTo63 <= x < TwoTo63 ==> r == x
  {
    (x + TwoTo63) % TwoTo64 - TwoTo63
  }

  /** A duration in whole seconds, rounded down. */
  function Seconds(d: int): int {
    d / Second
  }

  /**
    The seconds `time.Now().Add(time.Duration(m) * time.Minute)` moves the clock by. Wrapping
    `m * time.Minute` once is the same as wrapping the `int` product `2 * m` first and then the
    duration product (`WrapThenMultiply`), so a caller's doubled minute count goes through here
    unchanged.
  */
  function MinuteOffset(m: int): (s: int)
    ensures -MaxMinutes <= m <= MaxMinutes ==> s == m * 60
    ensures -TwoTo63 / Second <= s < TwoTo63 / Second + 1
  {
    Seconds(Wrap(m * Minute))
  }

  /** The seconds `time.Now().Add(time.Duration(d) * 24 * time.Hour)` moves the clock by. */
  function DayOffset(d: int): (s: int)
    ensures -MaxDays <= d <= MaxDays ==> s == d * 24 * 60 * 60
    ensures -TwoTo63 / Second <= s < TwoTo63 / Second + 1
  {
    Seconds(Wrap(d * Day))
  }

  /** Wrapping commutes with multiplication: wrapping an `int` product first changes nothing. */
  lemma {:induction false} WrapThenMultiply(x: int, k: int)
    ensures Wrap(Wrap(x) * k) == Wrap(x * k)
  {
    var j := (Wrap(x) - x) / TwoTo64;
    assert Wrap(x) == x + j * TwoTo64;
    assert Wrap(x) * k == x * k + (j * k) * TwoTo64;
    WrapPeriodic(x * k, j * k);
  }

  /** Adding a multiple of 2^64 does not change the wrapped value. */
  lemma {:induction false} WrapPeriodic(y: int, j: int)
    ensures Wrap(y + j * TwoTo64) == Wrap(y)
  {
    assert (y + TwoTo63 + j * TwoTo64) % TwoTo64 == (y + TwoTo63) % TwoTo64;
  }

  /** The bounds are exact: one more minute, or one more day, no longer fits in an int64. */
  lemma BoundsAreTight()
    ensures MaxMinutes * Minute < TwoTo63 <= (MaxMinutes + 1) * Minute
    ensures MaxDays * Day < TwoTo63 <= (MaxDays + 1) * Day
  {
  }

  /**
    Past the bounds a positive lifetime can land in the past: 200,000,000 minutes is about 204
    years before now, and 200,000 days about 37 years before now.
  */
  lemma LargeLifetimesWrapNegative()
    ensures MinuteOffset(200_000_000) < 0
    ensures DayOffset(200_000) < 0
  {
  }
}
