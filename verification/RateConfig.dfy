/** Limiter configuration (crates/summer-common/src/rate_limit/config.rs). */
module RateConfig {
  import opened I64

  datatype RateLimitPer = Second | Minute | Hour | Day

  datatype RateLimitAlgorithm =
    | TokenBucket
    | Gcra
    | LeakyBucket
    | ThrottleQueue
    | FixedWindow
    | SlidingWindow

  datatype RateLimitConfig = RateLimitConfig(
    rate: UInt32,
    per: RateLimitPer,
    burst: UInt32,
    algorithm: RateLimitAlgorithm,
    maxWaitMs: UInt64)

  // The cache key keeps every field of the signature next to the user key; module CacheKeys has its text.
  datatype CacheKey = CacheKey(
    algorithm: RateLimitAlgorithm,
    rate: UInt32,
    windowSeconds: int,
    burst: UInt32,
    maxWaitMs: UInt64,
    userKey: string)

  const MAX_WINDOW_MILLIS := 86_400_000

  function WindowSeconds(per: RateLimitPer): int {
    match per
    case Second => 1
    case Minute => 60
    case Hour => 3600
    case Day => 86400
  }

  function WindowMillis(per: RateLimitPer): Int64 {
    WindowSeconds(per) * 1000
  }

  function WindowLimit(cfg: RateLimitConfig): UInt32 {
    Max(cfg.rate, 1)
  }

  function EmissionIntervalMillis(cfg: RateLimitConfig): Int64 {
    var windowMs := Max(WindowMillis(cfg.per), 1);
    var rate := Max(cfg.rate, 1);
    TruncDiv(SatAdd(windowMs, rate - 1), rate)
  }

  function EffectiveBurst(cfg: RateLimitConfig): UInt32 {
    if cfg.algorithm == LeakyBucket then 1 else Max(cfg.burst, 1)
  }

  predicate UsesGcra(algorithm: RateLimitAlgorithm) {
    algorithm == TokenBucket || algorithm == Gcra
  }

  predicate SupportsCost(algorithm: RateLimitAlgorithm) {
    UsesGcra(algorithm)
  }

  function CacheKeyFor(cfg: RateLimitConfig, userKey: string): CacheKey {
    CacheKey(cfg.algorithm, cfg.rate, WindowSeconds(cfg.per), EffectiveBurst(cfg), cfg.maxWaitMs, userKey)
  }

  // w / r, rounded up.
  ghost function CeilingQuotient(w: int, r: int): int
    requires 1 <= r
  {
    (w + r - 1) / r
  }

  // Dividing with a round-up gives the least multiple of r that covers w.
  lemma CeilingDivision(w: int, r: int)
    requires 1 <= w && 1 <= r
    ensures var e := CeilingQuotient(w, r); 1 <= e <= w && w <= r * e
    ensures forall shorter :: w <= r * shorter ==> CeilingQuotient(w, r) <= shorter
  {
    var e := CeilingQuotient(w, r);
    assert r * e <= w + r - 1 < r * e + r;
    forall shorter | w <= r * shorter
      ensures e <= shorter
    {
      if shorter < e {
        MulMonotone(shorter, e - 1, r);
      }
    }
    assert w <= r * w by { MulMonotone(1, r, w); }
  }

  // ----- the configuration's own numbers -----

  // Milliseconds of a second, a minute, an hour and a day.
  ghost function UnitMillis(per: RateLimitPer): int {
    match per
    case Second => 1_000
    case Minute => 60_000
    case Hour => 3_600_000
    case Day => 86_400_000
  }

  // A rate or burst of 0 counts as 1.
  ghost function AtLeastOne(n: UInt32): UInt32 {
    if n == 0 then 1 else n
  }

  // The interval is the window divided by the rate, rounded up: `rate` units
  // always span a whole window, and no shorter interval would do.
  lemma EmissionIsCeiling(cfg: RateLimitConfig)
    ensures var e, window, rate := EmissionIntervalMillis(cfg), UnitMillis(cfg.per), AtLeastOne(cfg.rate);
            && 1 <= e <= MAX_WINDOW_MILLIS && e == CeilingQuotient(window, rate)
            && window <= rate * e
            && forall shorter :: window <= rate * shorter ==> e <= shorter
  {
    CeilingDivision(UnitMillis(cfg.per), AtLeastOne(cfg.rate));
  }
}
