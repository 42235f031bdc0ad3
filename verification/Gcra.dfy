/**
 One GCRA bucket is a single i64, the theoretical arrival time (TAT). This
 module gives the atomic effect of one check and of one refund on it
 (crates/summer-common/src/rate_limit/algorithms.rs:87-148, engine.rs:191-205),
 in the source's own i64 arithmetic, and relates it to plain integers.
 */
module Gcra {
  import opened Wrappers
  import opened I64

  datatype Metadata = Metadata(
    limit: int,
    remaining: int,
    resetAfterMs: int,
    retryAfterMs: Option<int>)

  datatype Decision =
    | Allowed(meta: Metadata)
    | Rejected(meta: Metadata)
    | Delayed(delayMs: int, meta: Metadata)

  datatype CheckOutcome = CheckOutcome(tat: Int64, decision: Decision)

  datatype BucketOp = Check(now: Int64, cost: UInt32) | Refund(units: UInt32)

  function RejectedMetadata(limit: int, retryAfterMs: int): Metadata {
    Metadata(limit, 0, retryAfterMs, Some(retryAfterMs))
  }

  // ----- the source's arithmetic -----

  function GcraCheck(emission: Int64, burst: UInt32, tat: Int64, now: Int64, cost: UInt32): CheckOutcome {
    GcraDecide(emission, burst, SatMul(burst, emission), SatMul(Max(cost, 1), emission), tat, now)
  }

  function GcraDecide(
      emission: Int64, burst: UInt32, capacity: Int64, costEmission: Int64, tat: Int64, now: Int64): CheckOutcome
  {
    var arrival := Max(tat, now);
    var diff := SatSub(arrival, now);
    if SatAdd(diff, costEmission) > capacity then
      var retryAfterMs := AsU64(Max(SatSub(SatAdd(diff, costEmission), capacity), 0));
      CheckOutcome(tat, Rejected(RejectedMetadata(burst, retryAfterMs)))
    else
      var newTat := SatAdd(arrival, costEmission);
      var remaining :=
        if emission > 0 then
          AsU32(Max(TruncDiv(SatSub(SatSub(capacity, diff), costEmission), emission), 0))
        else 0;
      var resetAfterMs := AsU64(Max(SatSub(newTat, now), 0));
      CheckOutcome(newTat, Allowed(Metadata(burst, remaining, resetAfterMs, None)))
  }

  function GcraRefund(emission: Int64, tat: Int64, units: UInt32): Int64 {
    if units == 0 then tat else Wrap(tat - SatMul(units, emission))
  }

  // ----- the same step over unbounded integers -----

  function Units(cost: int): int { Max(cost, 1) }

  function Lag(tat: int, now: int): int { Max(tat - now, 0) }

  // How far the lag plus the span of `units` exceeds the span of the burst.
  function Excess(e: int, b: int, tat: int, now: int, units: int): int {
    Lag(tat, now) + units * e - b * e
  }

  predicate Fits(e: int, b: int, tat: int, now: int, units: int) {
    Excess(e, b, tat, now, units) <= 0
  }

  function ExactStep(e: int, b: int, tat: int, op: BucketOp): int {
    match op
    case Check(now, cost) => if Fits(e, b, tat, now, Units(cost)) then Max(tat, now) + Units(cost) * e else tat
    case Refund(units) => tat - units * e
  }

  // ----- ranges -----

  const CLOCK_LIMIT: int := 0x4000_0000_0000_0000
  const SPAN_LIMIT: int := 0x1_0000_0000 * 86_400_000

  predicate ValidClock(now: int) { 0 <= now < CLOCK_LIMIT }

  predicate ValidParams(e: int, b: int) {
    1 <= e <= 86_400_000 && 1 <= b < U32_COUNT
  }

  lemma SpanBound(units: int, e: int)
    requires 0 <= units < U32_COUNT && 0 <= e <= 86_400_000
    ensures 0 <= units * e < SPAN_LIMIT
  {
    MulMonotone(units, U32_COUNT - 1, e);
  }

  // The TAT of a bucket created at `born` stays in this range.
  predicate ValidTat(tat: int) { 0 <= tat < CLOCK_LIMIT + SPAN_LIMIT }

  lemma DecideIsExact(e: Int64, b: UInt32, capacity: Int64, costEmission: Int64, tat: Int64, now: Int64)
    requires ValidClock(now) && ValidTat(tat)
    requires 0 < e && 0 <= capacity < SPAN_LIMIT && 0 <= costEmission < SPAN_LIMIT
    ensures var out := GcraDecide(e, b, capacity, costEmission, tat, now);
            var over := Lag(tat, now) + costEmission - capacity;
            if over <= 0 then
              && out.tat == Max(tat, now) + costEmission
              && ValidTat(out.tat)
              && out.decision == Allowed(Metadata(b, AsU32(Max((-over) / e, 0)), out.tat - now, None))
            else
              && out.tat == tat
              && out.decision == Rejected(Metadata(b, 0, over, Some(over)))
  {
  }

  // For a clock in [0, 2^62) and a TAT in range, no saturating operation and
  // no cast changes a value: the source's check is the exact step, its
  // metadata are the exact quotients and differences, and the TAT stays in range.
  lemma CheckIsExact(e: Int64, b: UInt32, tat: Int64, now: Int64, cost: UInt32)
    requires ValidParams(e, b) && ValidClock(now) && ValidTat(tat)
    ensures var out := GcraCheck(e, b, tat, now, cost);
            var over := Excess(e, b, tat, now, Units(cost));
            && out.tat == ExactStep(e, b, tat, Check(now, cost))
            && ValidTat(out.tat)
            && out.decision == (
                if over <= 0
                then Allowed(Metadata(b, (-over) / e, out.tat - now, None))
                else Rejected(Metadata(b, 0, over, Some(over))))
  {
    SpanBound(Units(cost), e);
    SpanBound(b, e);
    var capacity, costEmission := b * e, Units(cost) * e;
    DecideIsExact(e, b, capacity, costEmission, tat, now);
    var over := Excess(e, b, tat, now, Units(cost));
    if over <= 0 {
      DivBounded(-over, e, b);
    }
  }
}
