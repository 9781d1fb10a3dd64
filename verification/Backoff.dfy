/** Restart delays (supervisor/src/pool.rs, calculate_restart_delay_static).
    Durations are counted in nanoseconds, as std::time::Duration does; the
    computation itself is in whole milliseconds held in a u64. */
module Backoff {
  import opened Prelude

  type Duration = nat

  const NANOS_PER_MILLI: nat := 1_000_000
  const U64_RANGE: nat := 0x1_0000_0000_0000_0000

  function Pow2(n: nat): (p: nat)
    ensures p >= 1
  {
    if n == 0 then 1 else 2 * Pow2(n - 1)
  }

  /** `d.as_millis() as u64`: whole milliseconds, reduced modulo 2^64. */
  function AsMillisU64(d: Duration): nat {
    (d / NANOS_PER_MILLI) % U64_RANGE
  }

  /** A u64 result, or None where the checked operation overflows. */
  function CheckedU64(n: nat): Option<nat> {
    if n < U64_RANGE then Some(n) else None
  }

  function SaturatingSub(a: nat, b: nat): nat {
    if a >= b then a - b else 0
  }

  function RestartDelay(restartDelay: Duration, maxRestartDelay: Duration, failures: nat): Duration {
    var baseMs := AsMillisU64(restartDelay);
    var maxMs := AsMillisU64(maxRestartDelay);
    var delayMs :=
      match CheckedU64(Pow2(SaturatingSub(failures, 1)))
      case None => maxMs
      case Some(multiplier) =>
        match CheckedU64(baseMs * multiplier)
        case None => maxMs
        case Some(product) => product;
    Min(delayMs, maxMs) * NANOS_PER_MILLI
  }

  lemma {:induction false} Pow2Monotone(a: nat, b: nat)
    requires a <= b
    ensures Pow2(a) <= Pow2(b)
  {
    if a < b {
      Pow2Monotone(a, b - 1);
    }
  }

  lemma Pow2At64()
    ensures Pow2(63) < U64_RANGE == Pow2(64)
  {
    assert Pow2(8) == 256;
    assert Pow2(16) == 0x1_0000;
    assert Pow2(24) == 0x100_0000;
    assert Pow2(32) == 0x1_0000_0000;
    assert Pow2(40) == 0x100_0000_0000;
    assert Pow2(48) == 0x1_0000_0000_0000;
    assert Pow2(56) == 0x100_0000_0000_0000;
  }

  /** The power overflows a u64 exactly from the 65th failure on. */
  lemma PowerFits(failures: nat)
    ensures CheckedU64(Pow2(SaturatingSub(failures, 1))).Some? <==> failures <= 64
  {
    Pow2At64();
    if failures <= 64 {
      Pow2Monotone(SaturatingSub(failures, 1), 63);
    } else {
      Pow2Monotone(64, failures - 1);
    }
  }

  /** base * 2^(failures-1) capped at the maximum, over unbounded integers. */
  function IdealDelay(baseMs: nat, maxMs: nat, failures: nat): nat
    requires failures >= 1
  {
    Min(baseMs * Pow2(failures - 1), maxMs)
  }

  /** The overflow-checked u64 computation is the ideal capped doubling for
      every input but one family: a base below one millisecond that has failed
      65 times or more jumps from 0 to the cap. */
  lemma DelayIsIdealExactly(restartDelay: Duration, maxRestartDelay: Duration, failures: nat)
    requires failures >= 1
    ensures RestartDelay(restartDelay, maxRestartDelay, failures)
            == IdealDelay(AsMillisU64(restartDelay), AsMillisU64(maxRestartDelay), failures) * NANOS_PER_MILLI
            <==> !(AsMillisU64(restartDelay) == 0 && AsMillisU64(maxRestartDelay) > 0 && failures >= 65)
  {
    PowerFits(failures);
    var base, p := AsMillisU64(restartDelay), Pow2(failures - 1);
    if base >= 1 {
      assert base * p >= p by { MulAtLeast(base, p); }
    }
  }

  /** In whole milliseconds: the base doubled with every failure after the
      first, up to the cap. */
  lemma DelayInMillis(baseMs: nat, maxMs: nat, failures: nat)
    requires 1 <= baseMs < U64_RANGE && maxMs < U64_RANGE && failures >= 1
    ensures RestartDelay(baseMs * 1_000_000, maxMs * 1_000_000, failures)
            == Min(baseMs * Pow2(failures - 1), maxMs) * 1_000_000
  {
    assert AsMillisU64(baseMs * 1_000_000) == baseMs;
    assert AsMillisU64(maxMs * 1_000_000) == maxMs;
    DelayIsIdealExactly(baseMs * 1_000_000, maxMs * 1_000_000, failures);
  }

  lemma MulAtLeast(a: nat, b: nat)
    requires a >= 1
    ensures a * b >= b
  {
    assert a * b == (a - 1) * b + b;
  }

  lemma MulMonotone(a: nat, b: nat, c: nat)
    requires b <= c
    ensures a * b <= a * c
  {
  }

  /** For all configurations: a later failure never waits less, and no wait
      exceeds the configured maximum. */
  lemma DelayMonotoneAndCapped(restartDelay: Duration, maxRestartDelay: Duration, f: nat, g: nat)
    requires f <= g
    ensures RestartDelay(restartDelay, maxRestartDelay, f) <= RestartDelay(restartDelay, maxRestartDelay, g)
    ensures RestartDelay(restartDelay, maxRestartDelay, g) <= maxRestartDelay
  {
    PowerFits(f);
    PowerFits(g);
    var base := AsMillisU64(restartDelay);
    var p, q := Pow2(SaturatingSub(f, 1)), Pow2(SaturatingSub(g, 1));
    Pow2Monotone(SaturatingSub(f, 1), SaturatingSub(g, 1));
    MulMonotone(base, p, q);
    assert AsMillisU64(maxRestartDelay) <= maxRestartDelay / NANOS_PER_MILLI;
  }

  /** Total wait over the first `n` failures. */
  function TotalDelay(restartDelay: Duration, maxRestartDelay: Duration, n: nat): nat {
    if n == 0 then 0
    else TotalDelay(restartDelay, maxRestartDelay, n - 1) + RestartDelay(restartDelay, maxRestartDelay, n)
  }

  /** How many of the first `n` waits are still below the cap's reach. */
  function UncappedWaits(baseMs: nat, maxMs: nat, n: nat): (k: nat)
    ensures k <= n
  {
    if n == 0 || baseMs * Pow2(n - 1) <= maxMs then n else UncappedWaits(baseMs, maxMs, n - 1)
  }

  /** The waits before giving up add up to a geometric series over the uncapped
      ones plus the cap for each other; with a base under 1 ms, to the cap for
      each wait from the 65th failure on. */
  lemma {:induction false} TotalDelayIsGeometric(restartDelay: Duration, maxRestartDelay: Duration, n: nat)
    ensures var base, cap := AsMillisU64(restartDelay), AsMillisU64(maxRestartDelay);
            var k := UncappedWaits(base, cap, n);
            TotalDelay(restartDelay, maxRestartDelay, n)
            == (if base >= 1 then base * (Pow2(k) - 1) + (n - k) * cap else SaturatingSub(n, 64) * cap)
               * NANOS_PER_MILLI
  {
    var base, cap := AsMillisU64(restartDelay), AsMillisU64(maxRestartDelay);
    if n > 0 {
      TotalDelayIsGeometric(restartDelay, maxRestartDelay, n - 1);
      if base >= 1 {
        DelayIsIdealExactly(restartDelay, maxRestartDelay, n);
        UncappedStep(base, cap, n);
        var k' := UncappedWaits(base, cap, n - 1);
        Scale(base * (Pow2(k') - 1) + (n - 1 - k') * cap, IdealDelay(base, cap, n), NANOS_PER_MILLI);
      } else {
        SubMilliDelay(restartDelay, maxRestartDelay, n);
        var j := SaturatingSub(n - 1, 64);
        Scale(j * cap, if n <= 64 then 0 else cap, NANOS_PER_MILLI);
        Scale(j, 1, cap);
      }
    }
  }

  lemma SubMilliDelay(restartDelay: Duration, maxRestartDelay: Duration, failures: nat)
    requires AsMillisU64(restartDelay) == 0
    ensures RestartDelay(restartDelay, maxRestartDelay, failures)
            == if failures <= 64 then 0 else AsMillisU64(maxRestartDelay) * NANOS_PER_MILLI
  {
    PowerFits(failures);
  }

  lemma Scale(a: int, b: int, c: int)
    ensures (a + b) * c == a * c + b * c
  {
  }

  /** One more wait adds one more term to the closed form. */
  lemma UncappedStep(base: nat, cap: nat, n: nat)
    requires n > 0
    ensures var k, k' := UncappedWaits(base, cap, n), UncappedWaits(base, cap, n - 1);
            base * (Pow2(k) - 1) + (n - k) * cap
            == base * (Pow2(k') - 1) + (n - 1 - k') * cap + IdealDelay(base, cap, n)
  {
    var k, k' := UncappedWaits(base, cap, n), UncappedWaits(base, cap, n - 1);
    if base * Pow2(n - 1) <= cap {
      if n > 1 {
        Pow2Monotone(n - 2, n - 1);
        MulMonotone(base, Pow2(n - 2), Pow2(n - 1));
      }
      assert k == n && k' == n - 1;
      assert Pow2(n) == 2 * Pow2(n - 1);
      Scale(Pow2(n - 1) - 1, Pow2(n - 1), base);
    } else {
      assert k == k';
      Scale(n - 1 - k, 1, cap);
    }
  }
}
