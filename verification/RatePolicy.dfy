/**
 What a configuration lets through, in its own numbers: the burst, the rate and
 the window (crates/summer-common/src/rate_limit/config.rs:132-161).
 */
module RatePolicy {
  import opened Wrappers
  import opened I64
  import opened RateConfig
  import opened Gcra
  import opened GcraRuns

  // ----- one bucket under a configuration -----

  // One check on the bucket, as the memory backend makes it.
  function ConfiguredCheck(cfg: RateLimitConfig, tat: Int64, now: Int64, cost: UInt32): CheckOutcome {
    GcraCheck(EmissionIntervalMillis(cfg), EffectiveBurst(cfg), tat, now, cost)
  }

  // The TAT after the first k operations.
  function ConfiguredTat(cfg: RateLimitConfig, born: Int64, ops: seq<BucketOp>, k: nat): Int64
    requires k <= |ops|
  {
    Tat(EmissionIntervalMillis(cfg), EffectiveBurst(cfg), born, ops, k)
  }

  // Clocks are in range and no more was refunded than charged.
  ghost predicate ConfiguredHistory(cfg: RateLimitConfig, born: Int64, ops: seq<BucketOp>) {
    ValidHistory(EmissionIntervalMillis(cfg), EffectiveBurst(cfg), born, ops)
  }

  predicate AcceptedUnder(cfg: RateLimitConfig, born: Int64, ops: seq<BucketOp>, k: nat)
    requires k < |ops|
  {
    Accepted(EmissionIntervalMillis(cfg), EffectiveBurst(cfg), born, ops, k)
  }

  // Accepted minus refunded cost of the operations first..last.
  function NetAdmittedUnder(cfg: RateLimitConfig, born: Int64, ops: seq<BucketOp>, first: nat, last: nat): int
    requires first <= last < |ops|
  {
    NetAdmitted(EmissionIntervalMillis(cfg), EffectiveBurst(cfg), born, ops, first, last)
  }

  // Within one window that is at most the burst plus the rate.
  lemma AdmissionPerWindow(cfg: RateLimitConfig, born: Int64, ops: seq<BucketOp>, first: nat, last: nat)
    requires ConfiguredHistory(cfg, born, ops) && first <= last < |ops|
    requires AcceptedUnder(cfg, born, ops, first) && AcceptedUnder(cfg, born, ops, last)
    requires ops[last].now - ops[first].now <= UnitMillis(cfg.per)
    ensures NetAdmittedUnder(cfg, born, ops, first, last)
            <= (if cfg.algorithm == LeakyBucket then 1 else AtLeastOne(cfg.burst)) + AtLeastOne(cfg.rate)
  {
    var e, b := EmissionIntervalMillis(cfg), EffectiveBurst(cfg);
    EmissionIsCeiling(cfg);
    AdmissionBound(e, b, born, ops, first, last);
    IntervalsInWindow(ops[last].now - ops[first].now, UnitMillis(cfg.per), AtLeastOne(cfg.rate), e);
  }

  lemma IntervalsInWindow(gap: int, window: int, rate: int, e: int)
    requires 0 < e && gap <= window <= rate * e
    ensures gap / e <= rate
  {
    DivFits(gap, e, gap / e);
    MulCompare(gap / e, rate, e);
  }

  // ----- checks at one clock -----

  // What a budget of `burst` units has paid for after the first k costs, each
  // paid in full or not at all.
  ghost function Spent(burst: int, costs: seq<UInt32>, k: nat): int
    requires k <= |costs|
  {
    if k == 0 then 0
    else
      var before, cost := Spent(burst, costs, k - 1), AtLeastOne(costs[k - 1]);
      if before + cost <= burst then before + cost else before
  }

  function ChecksAt(now: Int64, costs: seq<UInt32>): (ops: seq<BucketOp>)
    ensures |ops| == |costs|
    ensures forall k :: 0 <= k < |ops| ==> ops[k] == Check(now, costs[k])
  {
    seq(|costs|, k requires 0 <= k < |costs| => Check(now, costs[k]))
  }

  // The answer to a check after which `after` units would be spent at one clock:
  // what is left of the burst, and the spans of what is spent and of what is lacking.
  ghost function Answer(burst: int, interval: int, after: int): Decision {
    if after <= burst then Allowed(Metadata(burst, burst - after, after * interval, None))
    else Rejected(Metadata(burst, 0, (after - burst) * interval, Some((after - burst) * interval)))
  }

  lemma SpanOfUnits(units: int, more: int, e: int)
    ensures (units + more) * e == units * e + more * e
  {
  }

  lemma SpanOfRest(b: int, after: int, e: int)
    requires 0 < e
    ensures (after - b) * e == after * e - b * e
    ensures after <= b <==> after * e <= b * e
    ensures (b * e - after * e) / e == b - after
  {
    SpanOfUnits(b, -after, e);
    MulCompare(after, b, e);
    MultipleDivides(b - after, e);
  }

  // One check on a bucket that is `lag` ahead of the clock.
  lemma CheckOnLag(e: Int64, b: UInt32, now: Int64, lag: int, cost: UInt32, span: int, over: int)
    requires ValidParams(e, b) && ValidClock(now) && 0 <= lag && ValidTat(now + lag)
    requires span == AtLeastOne(cost) * e && over == lag + span - b * e
    ensures var out := GcraCheck(e, b, now + lag, now, cost);
            && out.tat == (if over <= 0 then now + lag + span else now + lag)
            && out.decision == if over <= 0 then Allowed(Metadata(b, (-over) / e, lag + span, None))
                               else Rejected(Metadata(b, 0, over, Some(over)))
  {
    CheckIsExact(e, b, now + lag, now, cost);
    assert Units(cost) == AtLeastOne(cost);
  }

  // One check on a bucket that has `spent` units on its books at this very clock.
  lemma CheckOnSpent(e: Int64, b: UInt32, now: Int64, spent: int, cost: UInt32)
    requires ValidParams(e, b) && ValidClock(now) && 0 <= spent <= b
    ensures ValidTat(now + spent * e)
    ensures var out := GcraCheck(e, b, now + spent * e, now, cost); var after := spent + AtLeastOne(cost);
            && out.tat == now + (if after <= b then after else spent) * e
            && out.decision == Answer(b, e, after)
  {
    SpanBound(spent, e);
    var units := AtLeastOne(cost);
    var after := spent + units;
    CheckOnLag(e, b, now, spent * e, cost, units * e, spent * e + units * e - b * e);
    hide *;
    assert 0 <= units && ValidTat(now + spent * e);
    SpanOfUnits(spent, units, e);
    SpanOfRest(b, after, e);
  }

  lemma ParamsAreValid(cfg: RateLimitConfig)
    ensures ValidParams(EmissionIntervalMillis(cfg), EffectiveBurst(cfg))
    ensures EmissionIntervalMillis(cfg) == CeilingQuotient(UnitMillis(cfg.per), AtLeastOne(cfg.rate))
    ensures EffectiveBurst(cfg) == (if cfg.algorithm == LeakyBucket then 1 else AtLeastOne(cfg.burst))
  {
    EmissionIsCeiling(cfg);
  }

  lemma {:induction false} BurstIsSpentBy(e: Int64, b: UInt32, now: Int64, costs: seq<UInt32>, k: nat)
    requires ValidParams(e, b) && ValidClock(now) && k <= |costs|
    ensures 0 <= Spent(b, costs, k) <= b
    ensures Tat(e, b, now, ChecksAt(now, costs), k) == now + Spent(b, costs, k) * e
  {
    hide GcraCheck, Max;
    if k > 0 {
      BurstIsSpentBy(e, b, now, costs, k - 1);
      CheckOnSpent(e, b, now, Spent(b, costs, k - 1), costs[k - 1]);
    }
  }

  lemma AnswerTo(e: Int64, b: UInt32, now: Int64, costs: seq<UInt32>, k: nat)
    requires ValidParams(e, b) && ValidClock(now) && k < |costs|
    ensures 0 <= Spent(b, costs, k) <= b
    ensures GcraCheck(e, b, Tat(e, b, now, ChecksAt(now, costs), k), now, costs[k]).decision
            == Answer(b, e, Spent(b, costs, k) + AtLeastOne(costs[k]))
  {
    hide GcraCheck, Tat, Spent, Answer, ValidParams, ValidClock, ValidTat;
    BurstIsSpentBy(e, b, now, costs, k);
    CheckOnSpent(e, b, now, Spent(b, costs, k), costs[k]);
  }

  // On a fresh bucket the checks at one clock spend the configured burst and no more.
  lemma BurstIsSpent(cfg: RateLimitConfig, now: Int64, costs: seq<UInt32>, k: nat)
    requires ValidClock(now) && k < |costs|
    ensures var burst := if cfg.algorithm == LeakyBucket then 1 else AtLeastOne(cfg.burst);
            var interval := CeilingQuotient(UnitMillis(cfg.per), AtLeastOne(cfg.rate));
            var before := ConfiguredTat(cfg, now, ChecksAt(now, costs), k);
            && 0 <= Spent(burst, costs, k) <= burst
            && ConfiguredCheck(cfg, before, now, costs[k]).decision
               == Answer(burst, interval, Spent(burst, costs, k) + AtLeastOne(costs[k]))
  {
    var e, b := EmissionIntervalMillis(cfg), EffectiveBurst(cfg);
    hide GcraCheck, Tat, Spent, Answer, EmissionIntervalMillis, EffectiveBurst, ValidParams, ValidClock;
    ParamsAreValid(cfg);
    AnswerTo(e, b, now, costs, k);
  }

  lemma {:induction false} UnitsSpent(burst: int, costs: seq<UInt32>, k: nat)
    requires 0 <= burst && k <= |costs| && forall i :: 0 <= i < |costs| ==> costs[i] <= 1
    ensures Spent(burst, costs, k) == Min(k, burst)
  {
    if k > 0 {
      UnitsSpent(burst, costs, k - 1);
    }
  }

  // With unit costs: exactly the first `burst` checks pass, and the next one is
  // told to wait one interval.
  lemma FirstBurstPasses(cfg: RateLimitConfig, now: Int64, costs: seq<UInt32>, k: nat)
    requires ValidClock(now) && k < |costs| && forall i :: 0 <= i < |costs| ==> costs[i] <= 1
    ensures var burst := if cfg.algorithm == LeakyBucket then 1 else AtLeastOne(cfg.burst);
            var d := ConfiguredCheck(cfg, ConfiguredTat(cfg, now, ChecksAt(now, costs), k), now, costs[k]).decision;
            && (d.Allowed? <==> k < burst)
            && d.meta.limit == burst
            && (d.Allowed? ==> d.meta.remaining == burst - 1 - k)
            && (!d.Allowed? ==>
                  d.meta.retryAfterMs == Some(CeilingQuotient(UnitMillis(cfg.per), AtLeastOne(cfg.rate))))
  {
    hide ConfiguredCheck, ConfiguredTat, UnitMillis, CeilingQuotient;
    BurstIsSpent(cfg, now, costs, k);
    UnitsSpent(if cfg.algorithm == LeakyBucket then 1 else AtLeastOne(cfg.burst), costs, k);
  }
}
