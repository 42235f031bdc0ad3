/**
 What giving quota back does to a bucket: a charged reservation followed by
 other traffic and a refund, compared with a bucket that was charged less or
 not at all (crates/summer-common/src/rate_limit/reservation.rs:33-53).
 Runs are over unbounded integers; RunIsExact ties them to the source's i64.
 */
module Refunds {
  import opened I64
  import opened Gcra
  import opened GcraRuns

  function ExactTat(e: int, b: int, tat: int, ops: seq<BucketOp>, k: nat): int
    requires k <= |ops|
  {
    if k == 0 then tat else ExactStep(e, b, ExactTat(e, b, tat, ops, k - 1), ops[k - 1])
  }

  predicate FitsAt(e: int, b: int, tat: int, op: BucketOp) {
    op.Check? ==> Fits(e, b, tat, op.now, Units(op.cost))
  }

  // Every check among the operations is accepted when they start at `tat`.
  ghost predicate AllFit(e: int, b: int, tat: int, ops: seq<BucketOp>) {
    forall k :: 0 <= k < |ops| ==> FitsAt(e, b, ExactTat(e, b, tat, ops, k), ops[k])
  }

  ghost predicate ClocksFrom(n0: int, ops: seq<BucketOp>) {
    forall k :: 0 <= k < |ops| && ops[k].Check? ==> n0 <= ops[k].now
  }

  lemma {:induction false} RunIsExact(e: Int64, b: UInt32, born: Int64, ops: seq<BucketOp>, k: nat)
    requires ValidHistory(e, b, born, ops) && k <= |ops|
    ensures Tat(e, b, born, ops, k) == ExactTat(e, b, born, ops, k)
  {
    hide ExactStep, ApplyOp;
    if k > 0 {
      RunIsExact(e, b, born, ops, k - 1);
      HistoryInRange(e, b, born, ops, k);
    }
  }

  // One operation on two buckets: the one behind also accepts, stays behind,
  // and the gap shrinks unless it was busy.
  lemma StepBehind(e: int, b: int, ta: int, tb: int, op: BucketOp)
    requires tb <= ta && FitsAt(e, b, ta, op)
    ensures FitsAt(e, b, tb, op)
    ensures 0 <= ExactStep(e, b, ta, op) - ExactStep(e, b, tb, op) <= ta - tb
    ensures (ExactStep(e, b, ta, op) - ExactStep(e, b, tb, op) == ta - tb)
            <==> (ta == tb || op.Refund? || op.now <= tb)
  {
  }

  // A bucket that is behind stays behind, and accepts whatever the other accepts.
  lemma {:induction false} BehindStaysBehind(e: int, b: int, ta: int, tb: int, ops: seq<BucketOp>, k: nat)
    requires tb <= ta && AllFit(e, b, ta, ops) && k <= |ops|
    ensures 0 <= ExactTat(e, b, ta, ops, k) - ExactTat(e, b, tb, ops, k) <= ta - tb
    ensures forall j :: 0 <= j < k ==> FitsAt(e, b, ExactTat(e, b, tb, ops, j), ops[j])
  {
    hide ExactStep, FitsAt;
    if k > 0 {
      BehindStaysBehind(e, b, ta, tb, ops, k - 1);
      StepBehind(e, b, ExactTat(e, b, ta, ops, k - 1), ExactTat(e, b, tb, ops, k - 1), ops[k - 1]);
    }
  }

  // ----- commit -----

  lemma SplitSpan(kept: int, c: int, e: int)
    requires kept <= c && 0 < e
    ensures kept * e + (c - kept) * e == c * e && 0 <= (c - kept) * e
  {
    MulMonotone(kept, c, e);
  }

  lemma TakenBack(e: int, b: int, tb: int, d: int, traffic: seq<BucketOp>)
    requires 0 <= d && AllFit(e, b, tb + d, traffic)
    ensures AllFit(e, b, tb, traffic)
    ensures ExactTat(e, b, tb + d, traffic, |traffic|) - d <= ExactTat(e, b, tb, traffic, |traffic|)
  {
    hide ExactStep, ExactTat, FitsAt;
    BehindStaysBehind(e, b, tb + d, tb, traffic, |traffic|);
  }

  // A reservation of `c` accepted at clock n0, any accepted checks and refunds,
  // then commit(a): the same traffic is accepted had only min(a, c) been
  // charged, and the committed bucket is no later than that one.
  lemma CommitIsNoLater(e: int, b: int, t0: int, n0: int, c: nat, a: nat, traffic: seq<BucketOp>)
    requires 0 < e && AllFit(e, b, Max(t0, n0) + c * e, traffic)
    ensures var kept := if a < c then a else c; var cheap := Max(t0, n0) + kept * e;
            && AllFit(e, b, cheap, traffic)
            && ExactTat(e, b, Max(t0, n0) + c * e, traffic, |traffic|) - (c - kept) * e
               <= ExactTat(e, b, cheap, traffic, |traffic|)
  {
    var kept := Min(a, c);
    assert kept <= c;
    hide *;
    SplitSpan(kept, c, e);
    TakenBack(e, b, Max(t0, n0) + kept * e, (c - kept) * e, traffic);
  }

  // Whether no check found the bucket idle, its TAT already in the past.
  ghost predicate NeverIdle(e: int, b: int, tat: int, ops: seq<BucketOp>, k: nat)
    requires k <= |ops|
  {
    forall j :: 0 <= j < k && ops[j].Check? ==> ops[j].now <= ExactTat(e, b, tat, ops, j)
  }

  // The refund returns exactly what was overcharged if and only if no check in
  // between found the cheaper bucket idle; otherwise it gives back too much.
  lemma {:induction false} RefundIsExactIffBusy(
      e: int, b: int, ta: int, tb: int, d: int, ops: seq<BucketOp>, k: nat)
    requires 0 < d && ta - d == tb && AllFit(e, b, ta, ops) && k <= |ops|
    ensures ExactTat(e, b, ta, ops, k) - d == ExactTat(e, b, tb, ops, k) <==> NeverIdle(e, b, tb, ops, k)
  {
    hide ExactStep, FitsAt;
    if k > 0 {
      RefundIsExactIffBusy(e, b, ta, tb, d, ops, k - 1);
      BehindStaysBehind(e, b, ta, tb, ops, k - 1);
      StepBehind(e, b, ExactTat(e, b, ta, ops, k - 1), ExactTat(e, b, tb, ops, k - 1), ops[k - 1]);
    }
  }

  // ----- release -----

  lemma StepForgiven(e: int, b: int, ta: int, tb: int, d: int, n0: int, op: BucketOp)
    requires 0 < e && 0 <= d && tb <= ta && ta - d <= Max(tb, n0) && FitsAt(e, b, ta, op)
    requires op.Check? ==> n0 <= op.now
    ensures ExactStep(e, b, ta, op) - d <= Max(ExactStep(e, b, tb, op), n0)
  {
    if op.Refund? {
      MulMonotone(0, op.units, e);
    } else {
      MulMonotone(0, Units(op.cost), e);
      StepBehind(e, b, ta, tb, op);
    }
  }

  lemma {:induction false} LeadForgiven(
      e: int, b: int, ta: int, tb: int, d: int, n0: int, ops: seq<BucketOp>, k: nat)
    requires 0 < e && 0 <= d && tb <= ta && ta - d <= Max(tb, n0)
    requires AllFit(e, b, ta, ops) && ClocksFrom(n0, ops) && k <= |ops|
    ensures ExactTat(e, b, ta, ops, k) - d <= Max(ExactTat(e, b, tb, ops, k), n0)
  {
    hide ExactStep, FitsAt, I64.Max;
    if k > 0 {
      LeadForgiven(e, b, ta, tb, d, n0, ops, k - 1);
      BehindStaysBehind(e, b, ta, tb, ops, k - 1);
      StepForgiven(e, b, ExactTat(e, b, ta, ops, k - 1), ExactTat(e, b, tb, ops, k - 1), d, n0, ops[k - 1]);
    }
  }

  // After release, a later check is accepted whenever it would have been had
  // the reservation never been made; so is all the traffic in between.
  lemma ReleaseLeavesNoTrace(
      e: int, b: int, t0: int, n0: int, c: nat, traffic: seq<BucketOp>, now: int, units: nat)
    requires 0 < e && AllFit(e, b, Max(t0, n0) + c * e, traffic)
    requires ClocksFrom(n0, traffic) && n0 <= now
    requires Fits(e, b, ExactTat(e, b, t0, traffic, |traffic|), now, units)
    ensures AllFit(e, b, t0, traffic)
    ensures Fits(e, b, ExactTat(e, b, Max(t0, n0) + c * e, traffic, |traffic|) - c * e, now, units)
  {
    hide ExactStep, ExactTat, FitsAt;
    MulMonotone(0, c, e);
    BehindStaysBehind(e, b, Max(t0, n0) + c * e, t0, traffic, |traffic|);
    LeadForgiven(e, b, Max(t0, n0) + c * e, t0, c * e, n0, traffic, |traffic|);
  }

  // The converse fails: one check that found the bucket idle, and the released
  // bucket accepts a cost the untouched one refuses.
  lemma ReleaseMayOverpay()
    ensures var e, b, c := 1000, 10, 5; var traffic := [Check(60_000, 1)];
            && AllFit(e, b, 0 + c * e, traffic)
            && !Fits(e, b, ExactTat(e, b, 0, traffic, 1), 60_000, 10)
            && Fits(e, b, ExactTat(e, b, 0 + c * e, traffic, 1) - c * e, 60_000, 10)
  {
    var traffic := [Check(60_000, 1)];
    assert ExactTat(1000, 10, 5000, traffic, 0) == 5000;
    assert ExactTat(1000, 10, 5000, traffic, 1) == 61_000;
    assert ExactTat(1000, 10, 0, traffic, 1) == 61_000;
  }
}
