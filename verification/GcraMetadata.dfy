/** What the metadata of a GCRA decision promise about the next check. */
module GcraMetadata {
  import opened I64
  import opened Gcra

  predicate Accepts(e: Int64, b: UInt32, tat: Int64, now: Int64, cost: UInt32) {
    GcraCheck(e, b, tat, now, cost).decision.Allowed?
  }

  // `remaining` is the largest cost a next check at the same clock may have.
  lemma RemainingIsExact(e: Int64, b: UInt32, tat: Int64, now: Int64, cost: UInt32, next: UInt32)
    requires ValidParams(e, b) && ValidClock(now) && ValidTat(tat) && 1 <= next
    requires Accepts(e, b, tat, now, cost)
    ensures var out := GcraCheck(e, b, tat, now, cost);
            Accepts(e, b, out.tat, now, next) <==> next <= out.decision.meta.remaining
  {
    CheckIsExact(e, b, tat, now, cost);
    var out := GcraCheck(e, b, tat, now, cost);
    CheckIsExact(e, b, out.tat, now, next);
    var room := -Excess(e, b, tat, now, Units(cost));
    assert Units(cost) * e >= 0 by { MulMonotone(0, Units(cost), e); }
    assert Excess(e, b, out.tat, now, next) == next * e - room;
    DivFits(room, e, next);
  }

  // After a refusal the same cost stays refused for every wait shorter than
  // `retry_after` and is accepted from then on, as long as it fits the burst.
  lemma RetryAfterIsExact(e: Int64, b: UInt32, tat: Int64, now: Int64, cost: UInt32, wait: nat)
    requires ValidParams(e, b) && ValidClock(now) && ValidClock(now + wait) && ValidTat(tat)
    requires !Accepts(e, b, tat, now, cost) && Units(cost) <= b
    ensures var retry := GcraCheck(e, b, tat, now, cost).decision.meta.retryAfterMs;
            && retry.Some?
            && (Accepts(e, b, tat, now + wait, cost) <==> wait >= retry.value)
  {
    CheckIsExact(e, b, tat, now, cost);
    CheckIsExact(e, b, tat, now + wait, cost);
    MulMonotone(Units(cost), b, e);
  }

  // `reset_after` is the least wait after which the whole burst is available again.
  lemma ResetAfterIsExact(e: Int64, b: UInt32, tat: Int64, now: Int64, cost: UInt32, wait: nat)
    requires ValidParams(e, b) && ValidClock(now) && ValidClock(now + wait) && ValidTat(tat)
    requires Accepts(e, b, tat, now, cost)
    ensures var out := GcraCheck(e, b, tat, now, cost);
            Accepts(e, b, out.tat, now + wait, b) <==> wait >= out.decision.meta.resetAfterMs
  {
    CheckIsExact(e, b, tat, now, cost);
    var out := GcraCheck(e, b, tat, now, cost);
    CheckIsExact(e, b, out.tat, now + wait, b);
  }

  // A cost above the burst is refused in every state and at every clock the
  // machine can represent; any other cost passes an idle bucket.
  lemma AcceptedSomewhereIffWithinBurst(e: Int64, b: UInt32, cost: UInt32)
    requires ValidParams(e, b)
    ensures (exists tat: Int64, now: Int64 :: Accepts(e, b, tat, now, cost)) <==> Units(cost) <= b
  {
    SpanBound(b, e);
    SpanBound(Units(cost), e);
    MulCompare(Units(cost), b, e);
    if Units(cost) <= b {
      CheckIsExact(e, b, 0, 0, cost);
      assert Accepts(e, b, 0, 0, cost);
    } else {
      forall tat: Int64, now: Int64
        ensures !Accepts(e, b, tat, now, cost)
      {
        RefusedWhenOverCapacity(e, b, b * e, Units(cost) * e, tat, now);
      }
    }
  }

  lemma RefusedWhenOverCapacity(
      e: Int64, b: UInt32, capacity: Int64, costEmission: Int64, tat: Int64, now: Int64)
    requires 0 <= capacity < costEmission < SPAN_LIMIT
    ensures GcraDecide(e, b, capacity, costEmission, tat, now).decision.Rejected?
  {
  }
}
