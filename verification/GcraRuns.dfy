/** Whole histories of one GCRA bucket: ranges, the admission bound, and threads. */
module GcraRuns {
  import opened I64
  import opened Gcra
  import opened GcraMetadata
  import opened CasLoop

  // ----- sequential histories -----

  function ApplyOp(e: Int64, b: UInt32, tat: Int64, op: BucketOp): Int64 {
    match op
    case Check(now, cost) => GcraCheck(e, b, tat, now, cost).tat
    case Refund(units) => GcraRefund(e, tat, units)
  }

  // The TAT after the first k operations on a bucket created at `born`.
  function Tat(e: Int64, b: UInt32, born: Int64, ops: seq<BucketOp>, k: nat): Int64
    requires k <= |ops|
  {
    if k == 0 then born else ApplyOp(e, b, Tat(e, b, born, ops, k - 1), ops[k - 1])
  }

  // Units an operation takes from the bucket; negative when it gives back.
  function Charge(e: Int64, b: UInt32, tat: Int64, op: BucketOp): int {
    match op
    case Check(now, cost) => if Accepts(e, b, tat, now, cost) then Units(cost) else 0
    case Refund(units) => 0 - units
  }

  // Accepted cost minus refunded cost of the first k operations.
  function Balance(e: Int64, b: UInt32, born: Int64, ops: seq<BucketOp>, k: nat): int
    requires k <= |ops|
  {
    if k == 0 then 0
    else Balance(e, b, born, ops, k - 1) + Charge(e, b, Tat(e, b, born, ops, k - 1), ops[k - 1])
  }

  // Clocks are in range and, at every point, no more was refunded than charged.
  ghost predicate ValidHistory(e: Int64, b: UInt32, born: Int64, ops: seq<BucketOp>) {
    && ValidParams(e, b) && ValidClock(born)
    && (forall k :: 0 <= k < |ops| && ops[k].Check? ==> ValidClock(ops[k].now))
    && (forall k :: 0 <= k <= |ops| ==> 0 <= Balance(e, b, born, ops, k))
  }

  // Whether the k-th operation of the history is an accepted check.
  predicate Accepted(e: Int64, b: UInt32, born: Int64, ops: seq<BucketOp>, k: nat)
    requires k < |ops|
  {
    ops[k].Check? && Accepts(e, b, Tat(e, b, born, ops, k), ops[k].now, ops[k].cost)
  }

  // Accepted minus refunded cost of the operations first..last, both included.
  function NetAdmitted(e: Int64, b: UInt32, born: Int64, ops: seq<BucketOp>, first: nat, last: nat): int
    requires first <= last < |ops|
  {
    Balance(e, b, born, ops, last + 1) - Balance(e, b, born, ops, first)
  }

  lemma CheckInRange(e: Int64, b: UInt32, tat: Int64, now: Int64, cost: UInt32)
    requires ValidParams(e, b) && ValidTat(tat) && ValidClock(now)
    ensures var op := Check(now, cost); var tat' := ApplyOp(e, b, tat, op);
            && ValidTat(tat') && tat' == ExactStep(e, b, tat, op)
            && tat + Charge(e, b, tat, op) * e <= tat'
  {
    CheckIsExact(e, b, tat, now, cost);
    hide Gcra.GcraCheck, I64.Max;
    var out := GcraCheck(e, b, tat, now, cost);
    if Accepts(e, b, tat, now, cost) {
      assert out.tat == I64.Max(tat, now) + Units(cost) * e;
      assert tat <= I64.Max(tat, now) by { MaxBounds(tat, now); }
    }
  }

  lemma MaxBounds(a: int, b: int)
    ensures a <= Max(a, b) && b <= Max(a, b)
  {
  }

  lemma RefundInRange(e: Int64, b: UInt32, tat: Int64, units: UInt32)
    requires ValidParams(e, b) && ValidTat(tat) && units * e <= tat
    ensures var op := Refund(units); var tat' := ApplyOp(e, b, tat, op);
            && ValidTat(tat') && tat' == ExactStep(e, b, tat, op)
            && tat' == tat + Charge(e, b, tat, op) * e
  {
    SpanBound(units, e);
    assert (0 - units) * e == 0 - units * e;
  }

  lemma StepInRange(e: Int64, b: UInt32, born: Int64, tat: Int64, bal: int, op: BucketOp)
    requires ValidParams(e, b) && ValidClock(born) && ValidTat(tat) && born + bal * e <= tat
    requires op.Check? ==> ValidClock(op.now)
    requires 0 <= bal + Charge(e, b, tat, op)
    ensures var tat' := ApplyOp(e, b, tat, op); var bal' := bal + Charge(e, b, tat, op);
            && ValidTat(tat') && tat' == ExactStep(e, b, tat, op)
            && 0 <= bal' * e && born + bal' * e <= tat'
            && tat - bal * e <= tat' - bal' * e
  {
    hide Gcra.GcraCheck, Gcra.GcraRefund, Gcra.ExactStep;
    var charge := Charge(e, b, tat, op);
    assert (bal + charge) * e == bal * e + charge * e;
    MulMonotone(0, bal + charge, e);
    match op
    case Check(now, cost) =>
      CheckInRange(e, b, tat, now, cost);
    case Refund(units) =>
      MulMonotone(units, bal, e);
      RefundInRange(e, b, tat, units);
  }

  lemma HistoryAt(e: Int64, b: UInt32, born: Int64, ops: seq<BucketOp>, k: nat)
    requires ValidHistory(e, b, born, ops) && k < |ops|
    ensures ops[k].Check? ==> ValidClock(ops[k].now)
    ensures 0 <= Balance(e, b, born, ops, k) + Charge(e, b, Tat(e, b, born, ops, k), ops[k])
  {
    assert 0 <= Balance(e, b, born, ops, k + 1);
  }

  // In a valid history the TAT never leaves its range and never falls below
  // the bucket's creation time, so fetch_sub never wraps and no step saturates.
  lemma {:induction false} HistoryInRange(e: Int64, b: UInt32, born: Int64, ops: seq<BucketOp>, k: nat)
    requires ValidHistory(e, b, born, ops) && k <= |ops|
    ensures ValidTat(Tat(e, b, born, ops, k))
    ensures born <= born + Balance(e, b, born, ops, k) * e <= Tat(e, b, born, ops, k)
    ensures k > 0 ==>
              Tat(e, b, born, ops, k) == ExactStep(e, b, Tat(e, b, born, ops, k - 1), ops[k - 1])
  {
    hide Gcra.GcraCheck, Gcra.GcraRefund, Gcra.ExactStep, I64.Max;
    if k > 0 {
      HistoryInRange(e, b, born, ops, k - 1);
      HistoryAt(e, b, born, ops, k - 1);
      StepInRange(e, b, born, Tat(e, b, born, ops, k - 1), Balance(e, b, born, ops, k - 1), ops[k - 1]);
    }
  }

  // TAT minus the span of the balance never decreases.
  lemma {:induction false} PotentialGrows(
      e: Int64, b: UInt32, born: Int64, ops: seq<BucketOp>, j: nat, k: nat)
    requires ValidHistory(e, b, born, ops) && j <= k <= |ops|
    ensures Tat(e, b, born, ops, j) - Balance(e, b, born, ops, j) * e
            <= Tat(e, b, born, ops, k) - Balance(e, b, born, ops, k) * e
  {
    hide Gcra.GcraCheck, Gcra.GcraRefund, Gcra.ExactStep, I64.Max;
    if j < k {
      PotentialGrows(e, b, born, ops, j, k - 1);
      HistoryInRange(e, b, born, ops, k - 1);
      HistoryAt(e, b, born, ops, k - 1);
      StepInRange(e, b, born, Tat(e, b, born, ops, k - 1), Balance(e, b, born, ops, k - 1), ops[k - 1]);
    }
  }

  lemma AcceptedStep(e: Int64, b: UInt32, born: Int64, ops: seq<BucketOp>, k: nat)
    requires ValidHistory(e, b, born, ops) && k < |ops| && Accepted(e, b, born, ops, k)
    ensures Balance(e, b, born, ops, k + 1) == Balance(e, b, born, ops, k) + Units(ops[k].cost)
    ensures ops[k].now + Units(ops[k].cost) * e <= Tat(e, b, born, ops, k + 1) <= ops[k].now + b * e
  {
    HistoryInRange(e, b, born, ops, k);
    CheckIsExact(e, b, Tat(e, b, born, ops, k), ops[k].now, ops[k].cost);
  }

  // Any stretch of a bucket's history that begins and ends with an accepted
  // check admits at most the burst plus one unit per interval between their
  // captured clocks. The clocks need not be monotone.
  lemma AdmissionBound(e: Int64, b: UInt32, born: Int64, ops: seq<BucketOp>, first: nat, last: nat)
    requires ValidHistory(e, b, born, ops) && first <= last < |ops|
    requires Accepted(e, b, born, ops, first) && Accepted(e, b, born, ops, last)
    ensures NetAdmitted(e, b, born, ops, first, last) <= b + (ops[last].now - ops[first].now) / e
  {
    hide Gcra.GcraCheck, Gcra.GcraRefund, Gcra.ExactStep, I64.Max;
    AcceptedStep(e, b, born, ops, first);
    AcceptedStep(e, b, born, ops, last);
    PotentialGrows(e, b, born, ops, first + 1, last + 1);
    BoundFromPotential(e, b,
      Balance(e, b, born, ops, first), Balance(e, b, born, ops, last + 1), Units(ops[first].cost),
      Tat(e, b, born, ops, first + 1), Tat(e, b, born, ops, last + 1), ops[first].now, ops[last].now);
  }

  lemma BoundFromPotential(
      e: int, b: int, bal0: int, bal1: int, c: int, tat0: int, tat1: int, n0: int, n1: int)
    requires 0 < e && n0 + c * e <= tat0 && tat1 <= n1 + b * e
    requires tat0 - (bal0 + c) * e <= tat1 - bal1 * e
    ensures bal1 - bal0 <= b + (n1 - n0) / e
  {
    assert (bal0 + c) * e == bal0 * e + c * e;
    assert (bal1 - bal0 - b) * e == bal1 * e - bal0 * e - b * e;
    DivFits(n1 - n0, e, bal1 - bal0 - b);
  }

  // ----- the bound is attained -----

  // A full burst at once, then one unit each time an interval has passed.
  function GreedyClock(e: Int64, b: UInt32, born: Int64, k: nat): int {
    born + Max(k - b + 1, 0) * e
  }

  ghost predicate Greedy(e: Int64, b: UInt32, born: Int64, ops: seq<BucketOp>) {
    forall k :: 0 <= k < |ops| ==> ops[k].Check? && ops[k].cost == 1 && ops[k].now == GreedyClock(e, b, born, k)
  }

  lemma GreedyStep(e: Int64, b: UInt32, born: Int64, k: nat)
    requires ValidParams(e, b) && ValidClock(born) && ValidClock(GreedyClock(e, b, born, k))
    requires ValidTat(born + k * e)
    ensures Accepts(e, b, born + k * e, GreedyClock(e, b, born, k), 1)
    ensures GcraCheck(e, b, born + k * e, GreedyClock(e, b, born, k), 1).tat == born + (k + 1) * e
  {
    CheckIsExact(e, b, born + k * e, GreedyClock(e, b, born, k), 1);
    assert (k + 1) * e == k * e + e;
    if k + 1 <= b {
      MulMonotone(k + 1, b, e);
      MulMonotone(0, k, e);
    } else {
      assert (k - b + 1) * e == k * e - b * e + e;
      MulMonotone(1, b, e);
    }
  }

  lemma {:induction false} GreedyRun(e: Int64, b: UInt32, born: Int64, ops: seq<BucketOp>, k: nat)
    requires ValidParams(e, b) && ValidClock(born) && Greedy(e, b, born, ops) && k <= |ops|
    requires forall i :: 0 <= i < |ops| ==> ValidClock(ops[i].now)
    ensures Tat(e, b, born, ops, k) == born + k * e && Balance(e, b, born, ops, k) == k
    ensures k > 0 ==> Accepted(e, b, born, ops, k - 1)
    ensures k > 0 ==> ValidTat(born + k * e)
  {
    hide Gcra.GcraCheck;
    if k > 0 {
      GreedyRun(e, b, born, ops, k - 1);
      assert ops[k - 1].now == GreedyClock(e, b, born, k - 1);
      GreedyStep(e, b, born, k - 1);
      CheckIsExact(e, b, born + (k - 1) * e, ops[k - 1].now, 1);
    }
  }

  // The greedy history of any length admits exactly the bound.
  lemma BoundIsAttained(e: Int64, b: UInt32, born: Int64, ops: seq<BucketOp>)
    requires ValidParams(e, b) && ValidClock(born) && Greedy(e, b, born, ops) && |ops| >= b
    requires forall i :: 0 <= i < |ops| ==> ValidClock(ops[i].now)
    ensures ValidHistory(e, b, born, ops)
    ensures Accepted(e, b, born, ops, 0) && Accepted(e, b, born, ops, |ops| - 1)
    ensures NetAdmitted(e, b, born, ops, 0, |ops| - 1) == b + (ops[|ops| - 1].now - ops[0].now) / e
  {
    hide Gcra.GcraCheck, Gcra.GcraRefund, Gcra.ExactStep;
    forall k | 0 <= k <= |ops|
      ensures Balance(e, b, born, ops, k) == k
    {
      GreedyRun(e, b, born, ops, k);
    }
    GreedyRun(e, b, born, ops, 1);
    GreedyRun(e, b, born, ops, |ops|);
    var later := |ops| - b;
    MultipleDivides(later, e);
    assert ops[0].now == GreedyClock(e, b, born, 0);
    assert ops[|ops| - 1].now == GreedyClock(e, b, born, |ops| - 1);
  }

  lemma MultipleDivides(k: int, e: int)
    requires 0 < e
    ensures k * e / e == k
  {
    DivFits(k * e, e, k);
    DivFits(k * e, e, k + 1);
    MulCompare(k + 1, k, e);
  }

  // ----- threads -----

  datatype Reply = Decided(decision: Decision) | Refunded

  // The atomic effect of a check or a refund. Checks run the load/swap loop and
  // return at once when refused; refunds are one fetch_sub.
  function BucketEffect(e: Int64, b: UInt32, tat: Int64, op: BucketOp): Effect<Reply> {
    match op
    case Check(now, cost) =>
      var out := GcraCheck(e, b, tat, now, cost);
      Effect(out.tat, Decided(out.decision), out.decision.Allowed?)
    case Refund(units) => Effect(GcraRefund(e, tat, units), Refunded, true)
  }

  function BucketOperation(e: Int64, b: UInt32): Operation<BucketOp, Reply> {
    Operation((op: BucketOp) => op.Check?, (tat: Int64, op: BucketOp) => BucketEffect(e, b, tat, op))
  }

  function Calls(history: seq<Done<BucketOp, Reply>>): (ops: seq<BucketOp>)
    ensures |ops| == |history|
    ensures forall k :: 0 <= k < |ops| ==> ops[k] == history[k].call
  {
    seq(|history|, k requires 0 <= k < |history| => history[k].call)
  }

  lemma {:induction false} ReplayIsTat(
      e: Int64, b: UInt32, born: Int64, history: seq<Done<BucketOp, Reply>>, k: nat)
    requires k <= |history|
    ensures Replay(BucketOperation(e, b), born, history[..k]) == Tat(e, b, born, Calls(history), k)
  {
    hide Gcra.GcraCheck, Gcra.GcraRefund;
    if k > 0 {
      ReplayIsTat(e, b, born, history, k - 1);
      assert history[..k][..k - 1] == history[..k - 1];
    }
  }

  // However the threads interleave, their checks and refunds are decided as in
  // one sequential history of the bucket, which also gives the final TAT.
  lemma ThreadsActInSomeOrder(e: Int64, b: UInt32, born: Int64, steps: seq<Step<BucketOp>>)
    requires Run(BucketOperation(e, b), born, steps).Some?
    ensures var op := BucketOperation(e, b); var s := Run(op, born, steps).value;
            var l := Linearization(op, born, steps);
            && s.cell == Tat(e, b, born, Calls(l), |l|)
            && (forall k :: 0 <= k < |l| ==>
                  l[k].result == BucketEffect(e, b, Tat(e, b, born, Calls(l), k), Calls(l)[k]).result)
            && DistinctCalls(l) && Accounts(s, l)
  {
    var op := BucketOperation(e, b);
    var l := Linearization(op, born, steps);
    assert ReadOnlyReturns(op);
    RunIsExplained(op, born, steps);
    ReplayIsTat(e, b, born, l, |l|);
    assert l[..|l|] == l;
    forall k | 0 <= k < |l|
      ensures l[k].result == BucketEffect(e, b, Tat(e, b, born, Calls(l), k), Calls(l)[k]).result
    {
      ReplayIsTat(e, b, born, l, k);
    }
  }

  predicate ToldAllowed(done: Done<BucketOp, Reply>) {
    done.result.Decided? && done.result.decision.Allowed?
  }
}
