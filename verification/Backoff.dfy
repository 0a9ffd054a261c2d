/** The reconnection backoff: saturating 32-bit power, saturating duration product, cap, jitter. */
module Backoff {
  const U32_MAX := 0xFFFF_FFFF

  /** Durations in nanoseconds. */
  const DURATION_MAX: nat := 0x1_0000_0000_0000_0000 * 1_000_000_000 - 1
  type Duration = d: int | 0 <= d <= DURATION_MAX

  function Pow2(n: nat): nat {
    if n == 0 then 1 else 2 * Pow2(n - 1)
  }

  function Min(a: nat, b: nat): nat {
    if a < b then a else b
  }

  /** 2 to the n in 32 bits, saturating. */
  function SaturatingPow(n: nat): nat {
    Min(Pow2(n), U32_MAX)
  }

  /** The delay of the n-th attempt before jitter. */
  function Delay(base: Duration, max: Duration, n: nat): Duration
    requires n > 0
  {
    Min(Min(base * SaturatingPow(n - 1), DURATION_MAX), max)
  }

  lemma {:induction false} PowGrows(m: nat, n: nat)
    requires m <= n
    ensures Pow2(m) <= Pow2(n)
    decreases n
  {
    if m < n { PowGrows(m, n - 1); }
  }

  lemma Pow32()
    ensures Pow2(31) == 0x8000_0000 && Pow2(32) == 0x1_0000_0000
  {
    assert Pow2(8) == 256;
    assert Pow2(16) == 65536;
    assert Pow2(24) == 0x100_0000;
  }

  lemma Scale(c: nat, a: nat, b: nat)
    requires a <= b
    ensures c * a <= c * b
  { }

  /** Delays never shrink from one attempt to the next. */
  lemma DelayGrows(base: Duration, max: Duration, m: nat, n: nat)
    requires 0 < m <= n
    ensures Delay(base, max, m) <= Delay(base, max, n)
  {
    PowGrows(m - 1, n - 1);
    Scale(base, SaturatingPow(m - 1), SaturatingPow(n - 1));
  }

  /**
   * The delay is the documented base * 2^(n - 1) capped at max exactly when the 32-bit power has not saturated, or
   * saturates beyond the cap anyway, or the base is zero.
   */
  lemma DelayIsExact(base: Duration, max: Duration, n: nat)
    requires n > 0
    ensures Delay(base, max, n) == (if base * Pow2(n - 1) < max then base * Pow2(n - 1) else max) <==>
      n <= 32 || base * 0xFFFF_FFFF >= max || base == 0
  {
    Pow32();
    if n <= 32 {
      PowGrows(n - 1, 31);
    } else {
      PowGrows(32, n - 1);
      Scale(base, U32_MAX, Pow2(n - 1));
      if base > 0 {
        Scale(base, U32_MAX + 1, Pow2(n - 1));
        assert base * (U32_MAX + 1) == base * U32_MAX + base;
      }
    }
  }

  function Seconds(d: Duration): (r: real)
    ensures r >= 0.0
  {
    d as real / 1_000_000_000.0
  }

  function Jittered(d: real, jitter: real): real {
    d + d * jitter
  }

  lemma WithinATenth(d: real, jitter: real)
    requires d >= 0.0 && -0.1 <= jitter < 0.1
    ensures 0.9 * d <= Jittered(d, jitter) <= 1.1 * d
  {
    ProductIsPositive(d, jitter + 0.1);
    ProductIsPositive(d, 0.1 - jitter);
    assert d * (jitter + 0.1) == d * jitter + 0.1 * d;
    assert d * (0.1 - jitter) == 0.1 * d - d * jitter;
  }

  lemma ProductIsPositive(a: real, b: real)
    requires a >= 0.0 && b >= 0.0
    ensures a * b >= 0.0
  { }

  /** In nanoseconds, jitter adds its share of the delay. */
  lemma JitterShare(d: Duration, jitter: real)
    ensures Jittered(Seconds(d), jitter) * 1_000_000_000.0 == d as real + d as real * jitter
  {
    var s := Seconds(d);
    assert s * 1_000_000_000.0 == d as real;
    assert (s * jitter) * 1_000_000_000.0 == (s * 1_000_000_000.0) * jitter;
  }

  /** What the documented delay, jittered and raised to a second, is in nanoseconds. */
  ghost predicate IsJitteredWait(seconds: real, want: nat, jitter: real) {
    var nanos := want as real + want as real * jitter;
    if nanos < 1_000_000_000.0 then seconds == 1.0 else seconds * 1_000_000_000.0 == nanos
  }

  lemma WaitInNanoseconds(d: Duration, jitter: real, seconds: real)
    requires seconds == if Jittered(Seconds(d), jitter) < 1.0 then 1.0 else Jittered(Seconds(d), jitter)
    ensures IsJitteredWait(seconds, d, jitter)
  {
    JitterShare(d, jitter);
    hide Seconds, Jittered;
  }

  class ExponentialBackoff {
    const base: Duration
    const max: Duration
    var attempts: nat

    constructor (base: Duration, max: Duration)
      ensures this.base == base && this.max == max && attempts == 0
    {
      this.base, this.max, attempts := base, max, 0;
    }

    /** The n-th call since a reset waits the n-th delay, jittered by at most a tenth, and at least one second. */
    method NextBackoff(jitter: real) returns (seconds: real)
      requires attempts < U32_MAX && -0.1 <= jitter < 0.1
      modifies this
      ensures attempts == old(attempts) + 1
      ensures var d := Seconds(Delay(base, max, attempts));
        && seconds == (if Jittered(d, jitter) < 1.0 then 1.0 else Jittered(d, jitter))
        && 0.9 * d <= seconds && (seconds == 1.0 || seconds <= 1.1 * d)
      ensures attempts <= 32 || base * 0xFFFF_FFFF >= max || base == 0 ==>
        IsJitteredWait(seconds, if base * Pow2(attempts - 1) < max then base * Pow2(attempts - 1) else max, jitter)
    {
      hide Seconds, Jittered;
      attempts := attempts + 1;
      var factor := SaturatingPow(attempts - 1);
      var next := Min(base * factor, DURATION_MAX);
      if next > max {
        next := max;
      }
      assert next == Delay(base, max, attempts);
      hide Delay, SaturatingPow, Min;
      var d := Seconds(next);
      var jittered := Jittered(d, jitter);
      WithinATenth(d, jitter);
      seconds := if jittered < 1.0 then 1.0 else jittered;
      WaitInNanoseconds(next, jitter, seconds);
      DelayIsExact(base, max, attempts);
      hide IsJitteredWait, Pow2;
    }

    method Reset()
      modifies this
      ensures attempts == 0
    {
      attempts := 0;
    }
  }
}
