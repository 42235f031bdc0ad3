/**
 The slot scheduler behind leaky_bucket and throttle_queue
 (crates/summer-common/src/rate_limit/algorithms.rs:243-296): one i64 per
 bucket, the next free release time, advanced by the same retry loop.
 */
module SlotScheduler {
  import opened Wrappers
  import opened I64
  import opened Gcra
  import opened GcraMetadata
  import opened GcraRuns
  import opened CasLoop

  function SlotCheck(interval: Int64, maxWaitMs: UInt64, next: Int64, now: Int64): CheckOutcome {
    var scheduled := Max(next, now);
    var delayMs := AsU64(Max(SatSub(scheduled, now), 0));
    if delayMs > maxWaitMs then
      CheckOutcome(next, Rejected(RejectedMetadata(1, delayMs)))
    else
      var newNext := SatAdd(scheduled, interval);
      var meta := Metadata(1, 0, AsU64(interval), None);
      CheckOutcome(newNext, if delayMs == 0 then Allowed(meta) else Delayed(delayMs, meta))
  }

  predicate Admits(interval: Int64, maxWaitMs: UInt64, next: Int64, now: Int64) {
    !SlotCheck(interval, maxWaitMs, next, now).decision.Rejected?
  }

  // The wait an accepted request is told; zero when it may go at once.
  function Wait(d: Decision): int {
    if d.Delayed? then d.delayMs else 0
  }

  const MAX_INTERVAL: int := 86_400_000

  predicate ValidInterval(interval: int) { 1 <= interval <= MAX_INTERVAL }

  // A time to which one more interval can be added.
  predicate ValidTime(t: int) { 0 <= t <= I64_MAX - MAX_INTERVAL }

  // For every `max_wait` the scheduler decides by the exact lag; refusals change nothing.
  lemma SlotIsExact(interval: Int64, maxWaitMs: UInt64, next: Int64, now: Int64)
    requires ValidInterval(interval) && ValidTime(now) && ValidTime(next)
    ensures var out := SlotCheck(interval, maxWaitMs, next, now);
            && (Admits(interval, maxWaitMs, next, now) <==> Lag(next, now) <= maxWaitMs)
            && (Admits(interval, maxWaitMs, next, now) ==>
                  && Wait(out.decision) == Lag(next, now)
                  && (out.decision.Allowed? <==> next <= now)
                  && out.decision.meta == Metadata(1, 0, interval, None)
                  && out.tat == Max(next, now) + interval)
            && (!Admits(interval, maxWaitMs, next, now) ==>
                  && out.tat == next
                  && out.decision.meta == Metadata(1, 0, Lag(next, now), Some(Lag(next, now))))
  {
  }

  // A refused request passes at a later time exactly when the wait and `max_wait` together reach the
  // reported retry_after. So retry_after is the least such wait exactly when `max_wait` is 0.
  lemma RetryIsLeastWaitIff(interval: Int64, maxWaitMs: UInt64, next: Int64, now: Int64)
    requires ValidInterval(interval) && ValidTime(now) && ValidTime(next)
    requires !Admits(interval, maxWaitMs, next, now)
    ensures var retry := SlotCheck(interval, maxWaitMs, next, now).decision.meta.retryAfterMs.value;
            && (forall later: Int64 :: now <= later && ValidTime(later) ==>
                  (Admits(interval, maxWaitMs, next, later) <==> retry <= later - now + maxWaitMs))
            && ((forall later: Int64 :: now <= later < now + retry && ValidTime(later) ==>
                   !Admits(interval, maxWaitMs, next, later))
                <==> maxWaitMs == 0)
  {
    SlotIsExact(interval, maxWaitMs, next, now);
    hide SlotCheck, Admits;
    forall later: Int64 | now <= later && ValidTime(later)
      ensures Admits(interval, maxWaitMs, next, later) <==> Lag(next, now) <= later - now + maxWaitMs
    {
      SlotIsExact(interval, maxWaitMs, next, later);
    }
    var least := next - maxWaitMs;
    assert now <= least <= next && ValidTime(least);
    assert Admits(interval, maxWaitMs, next, least);
  }

  // ----- equivalence with GCRA -----

  // With max_wait = (b - 1) * e the scheduler makes GCRA's choice for burst b
  // and cost 1, and changes its cell in the same way.
  lemma SlotIsGcra(e: Int64, b: UInt32, cell: Int64, now: Int64)
    requires ValidParams(e, b) && ValidClock(now) && ValidTat(cell)
    ensures 0 <= (b - 1) * e < SPAN_LIMIT
    ensures Admits(e, (b - 1) * e, cell, now) <==> Accepts(e, b, cell, now, 1)
    ensures SlotCheck(e, (b - 1) * e, cell, now).tat == GcraCheck(e, b, cell, now, 1).tat
  {
    SpanBound(b - 1, e);
    assert (b - 1) * e == b * e - e;
    SlotIsExact(e, (b - 1) * e, cell, now);
    CheckIsExact(e, b, cell, now, 1);
  }

  // A refused caller is also told the same retry time exactly when b = 1, the
  // documented leaky bucket.
  lemma SameRetryIffLeaky(e: Int64, b: UInt32, cell: Int64, now: Int64)
    requires ValidParams(e, b) && ValidClock(now) && ValidTat(cell)
    requires !Accepts(e, b, cell, now, 1)
    ensures 0 <= (b - 1) * e < SPAN_LIMIT
    ensures SlotCheck(e, (b - 1) * e, cell, now).decision.meta.retryAfterMs
              == GcraCheck(e, b, cell, now, 1).decision.meta.retryAfterMs
            <==> b == 1
  {
    SlotIsGcra(e, b, cell, now);
    SlotIsExact(e, (b - 1) * e, cell, now);
    CheckIsExact(e, b, cell, now, 1);
    assert (b - 1) * e == b * e - e;
    MulCompare(1, b, e);
    MulCompare(b, 1, e);
  }

  // For burst 2 and one unit a second, two seconds behind: GCRA says one second, the scheduler two.
  lemma RetryTimesDiffer()
    ensures GcraCheck(1000, 2, 2000, 0, 1).decision.meta.retryAfterMs == Some(1000)
    ensures SlotCheck(1000, 1000, 2000, 0).decision.meta.retryAfterMs == Some(2000)
    ensures Admits(1000, 1000, 2000, 1000)
  {
    SlotIsExact(1000, 1000, 2000, 0);
    SlotIsExact(1000, 1000, 2000, 1000);
  }

  // The scheduler's cell after the first k requests.
  function SlotNext(interval: Int64, maxWaitMs: UInt64, born: Int64, clocks: seq<Int64>, k: nat): Int64
    requires k <= |clocks|
  {
    if k == 0 then born
    else SlotCheck(interval, maxWaitMs, SlotNext(interval, maxWaitMs, born, clocks, k - 1), clocks[k - 1]).tat
  }

  function UnitChecks(clocks: seq<Int64>): (ops: seq<BucketOp>)
    ensures |ops| == |clocks|
    ensures forall k :: 0 <= k < |ops| ==> ops[k] == Check(clocks[k], 1)
  {
    seq(|clocks|, k requires 0 <= k < |clocks| => Check(clocks[k], 1))
  }

  lemma {:induction false} ChecksNeverOverdraw(e: Int64, b: UInt32, born: Int64, clocks: seq<Int64>, k: nat)
    requires k <= |clocks|
    ensures 0 <= Balance(e, b, born, UnitChecks(clocks), k)
  {
    hide Tat, GcraMetadata.Accepts;
    if k > 0 {
      ChecksNeverOverdraw(e, b, born, clocks, k - 1);
    }
  }

  lemma ChecksAreValid(e: Int64, b: UInt32, born: Int64, clocks: seq<Int64>)
    requires ValidParams(e, b) && ValidClock(born)
    requires forall k :: 0 <= k < |clocks| ==> ValidClock(clocks[k])
    ensures ValidHistory(e, b, born, UnitChecks(clocks))
  {
    forall k | 0 <= k <= |clocks|
      ensures 0 <= Balance(e, b, born, UnitChecks(clocks), k)
    {
      ChecksNeverOverdraw(e, b, born, clocks, k);
    }
  }

  // Fed the same clocks, a scheduler and a GCRA bucket stay in the same state
  // and accept the same requests for ever.
  lemma {:induction false} SameRuns(e: Int64, b: UInt32, born: Int64, clocks: seq<Int64>, k: nat)
    requires ValidParams(e, b) && ValidClock(born) && k <= |clocks|
    requires forall i :: 0 <= i < |clocks| ==> ValidClock(clocks[i])
    ensures 0 <= (b - 1) * e < SPAN_LIMIT
    ensures var ops := UnitChecks(clocks); var cell := SlotNext(e, (b - 1) * e, born, clocks, k);
            && cell == Tat(e, b, born, ops, k)
            && (k < |clocks| ==> (Admits(e, (b - 1) * e, cell, clocks[k]) <==> Accepted(e, b, born, ops, k)))
  {
    hide GcraCheck, SlotCheck, Admits, GcraMetadata.Accepts;
    ChecksAreValid(e, b, born, clocks);
    SpanBound(b - 1, e);
    HistoryInRange(e, b, born, UnitChecks(clocks), k);
    if k < |clocks| {
      SlotIsGcra(e, b, Tat(e, b, born, UnitChecks(clocks), k), clocks[k]);
    }
    if k > 0 {
      SameRuns(e, b, born, clocks, k - 1);
      HistoryInRange(e, b, born, UnitChecks(clocks), k - 1);
      SlotIsGcra(e, b, Tat(e, b, born, UnitChecks(clocks), k - 1), clocks[k - 1]);
    }
  }

  // ----- spacing, under every interleaving -----

  function SlotEffect(interval: Int64, maxWaitMs: UInt64, next: Int64, now: Int64): Effect<Decision> {
    var out := SlotCheck(interval, maxWaitMs, next, now);
    Effect(out.tat, out.decision, !out.decision.Rejected?)
  }

  // Every call runs the load/swap loop; its argument is the captured clock.
  function SlotOperation(interval: Int64, maxWaitMs: UInt64): Operation<Int64, Decision> {
    Operation((now: Int64) => true, (next: Int64, now: Int64) => SlotEffect(interval, maxWaitMs, next, now))
  }

  function Clocks(history: seq<Done<Int64, Decision>>): (clocks: seq<Int64>)
    ensures |clocks| == |history|
    ensures forall k :: 0 <= k < |clocks| ==> clocks[k] == history[k].call
  {
    seq(|history|, k requires 0 <= k < |history| => history[k].call)
  }

  lemma {:induction false} ReplayIsNext(
      interval: Int64, maxWaitMs: UInt64, born: Int64, history: seq<Done<Int64, Decision>>, k: nat)
    requires k <= |history|
    ensures Replay(SlotOperation(interval, maxWaitMs), born, history[..k])
            == SlotNext(interval, maxWaitMs, born, Clocks(history), k)
  {
    if k > 0 {
      ReplayIsNext(interval, maxWaitMs, born, history, k - 1);
      assert history[..k][..k - 1] == history[..k - 1];
    }
  }

  // How many of the requests i..j-1 were accepted.
  function AdmittedBetween(
      interval: Int64, maxWaitMs: UInt64, born: Int64, clocks: seq<Int64>, i: nat, j: nat): nat
    requires i <= j <= |clocks|
  {
    if i == j then 0
    else
      AdmittedBetween(interval, maxWaitMs, born, clocks, i, j - 1)
      + (if Admits(interval, maxWaitMs, SlotNext(interval, maxWaitMs, born, clocks, j - 1), clocks[j - 1])
         then 1 else 0)
  }

  const WAIT_LIMIT: int := 0x2000_0000_0000_0000
  const MANY_REQUESTS: int := 0x8_0000_0000

  // Nothing saturates while `max_wait` stays below 2^61 ms or at most 2^35 requests were made.
  predicate Headroom(maxWaitMs: int, requests: int) {
    maxWaitMs < WAIT_LIMIT || requests <= MANY_REQUESTS
  }

  function NextLimit(maxWaitMs: int, k: int): int {
    CLOCK_LIMIT + if maxWaitMs < WAIT_LIMIT then WAIT_LIMIT + MAX_INTERVAL else k * MAX_INTERVAL
  }

  lemma {:induction false} NextInRange(
      interval: Int64, maxWaitMs: UInt64, born: Int64, clocks: seq<Int64>, k: nat)
    requires ValidInterval(interval) && ValidClock(born) && k <= |clocks| && Headroom(maxWaitMs, |clocks|)
    requires forall i :: 0 <= i < |clocks| ==> ValidClock(clocks[i])
    ensures 0 <= SlotNext(interval, maxWaitMs, born, clocks, k) <= NextLimit(maxWaitMs, k)
    ensures ValidTime(SlotNext(interval, maxWaitMs, born, clocks, k))
  {
    hide SlotCheck, Admits;
    if k > 0 {
      NextInRange(interval, maxWaitMs, born, clocks, k - 1);
      SlotIsExact(interval, maxWaitMs, SlotNext(interval, maxWaitMs, born, clocks, k - 1), clocks[k - 1]);
    }
  }

  lemma {:induction false} NextAdvances(
      interval: Int64, maxWaitMs: UInt64, born: Int64, clocks: seq<Int64>, i: nat, j: nat)
    requires ValidInterval(interval) && ValidClock(born) && i <= j <= |clocks| && Headroom(maxWaitMs, |clocks|)
    requires forall k :: 0 <= k < |clocks| ==> ValidClock(clocks[k])
    ensures SlotNext(interval, maxWaitMs, born, clocks, i)
            + AdmittedBetween(interval, maxWaitMs, born, clocks, i, j) * interval
            <= SlotNext(interval, maxWaitMs, born, clocks, j)
  {
    hide SlotCheck, Admits;
    if i < j {
      NextAdvances(interval, maxWaitMs, born, clocks, i, j - 1);
      NextInRange(interval, maxWaitMs, born, clocks, j - 1);
      SlotIsExact(interval, maxWaitMs, SlotNext(interval, maxWaitMs, born, clocks, j - 1), clocks[j - 1]);
      OneMoreSpan(AdmittedBetween(interval, maxWaitMs, born, clocks, i, j - 1), interval);
    }
  }

  lemma NextAfter(interval: Int64, maxWaitMs: UInt64, born: Int64, clocks: seq<Int64>, k: nat)
    requires k < |clocks|
    ensures SlotNext(interval, maxWaitMs, born, clocks, k + 1)
            == SlotCheck(interval, maxWaitMs, SlotNext(interval, maxWaitMs, born, clocks, k), clocks[k]).tat
  {
    hide SlotCheck;
  }

  // The release time that an accepted request is told.
  function ReleaseOf(interval: Int64, maxWaitMs: UInt64, born: Int64, clocks: seq<Int64>, k: nat): int
    requires k < |clocks|
  {
    clocks[k] + Wait(SlotCheck(interval, maxWaitMs, SlotNext(interval, maxWaitMs, born, clocks, k), clocks[k]).decision)
  }

  lemma ReleaseIsNextSlot(interval: Int64, maxWaitMs: UInt64, born: Int64, clocks: seq<Int64>, k: nat)
    requires ValidInterval(interval) && ValidClock(born) && k < |clocks| && Headroom(maxWaitMs, |clocks|)
    requires forall i :: 0 <= i < |clocks| ==> ValidClock(clocks[i])
    requires Admits(interval, maxWaitMs, SlotNext(interval, maxWaitMs, born, clocks, k), clocks[k])
    ensures var release := ReleaseOf(interval, maxWaitMs, born, clocks, k);
            && SlotNext(interval, maxWaitMs, born, clocks, k) <= release
            && clocks[k] <= release <= clocks[k] + maxWaitMs
            && SlotNext(interval, maxWaitMs, born, clocks, k + 1) == release + interval
  {
    NextAfter(interval, maxWaitMs, born, clocks, k);
    hide SlotCheck, Admits, SlotNext, NextLimit, Headroom;
    NextInRange(interval, maxWaitMs, born, clocks, k);
    SlotIsExact(interval, maxWaitMs, SlotNext(interval, maxWaitMs, born, clocks, k), clocks[k]);
  }

  lemma SpanOfNothing(count: int, interval: int)
    requires count == 0
    ensures count * interval == 0
  {
  }

  // Every request accepted from the i-th on pushes the next slot by an interval.
  lemma AdvanceFromRelease(
      interval: Int64, maxWaitMs: UInt64, born: Int64, clocks: seq<Int64>, i: nat, j: nat, release: int)
    requires ValidInterval(interval) && ValidClock(born) && i < j < |clocks| && Headroom(maxWaitMs, |clocks|)
    requires forall k :: 0 <= k < |clocks| ==> ValidClock(clocks[k])
    requires Admits(interval, maxWaitMs, SlotNext(interval, maxWaitMs, born, clocks, i), clocks[i])
    requires SlotNext(interval, maxWaitMs, born, clocks, i + 1) == release + interval
    ensures release + AdmittedBetween(interval, maxWaitMs, born, clocks, i, j) * interval
            <= SlotNext(interval, maxWaitMs, born, clocks, j)
  {
    hide SlotCheck, Admits, SlotNext, AdmittedBetween, Headroom;
    NextAdvances(interval, maxWaitMs, born, clocks, i + 1, j);
    AdmittedSplit(interval, maxWaitMs, born, clocks, i, j);
    OneMoreSpan(AdmittedBetween(interval, maxWaitMs, born, clocks, i + 1, j), interval);
  }

  // For any two accepted requests of a sequential history, the later one is
  // released at least one interval per accepted request after the earlier one,
  // and nobody waits longer than max_wait.
  lemma ReleasesAreSpaced(
      interval: Int64, maxWaitMs: UInt64, born: Int64, clocks: seq<Int64>, i: nat, j: nat)
    requires ValidInterval(interval) && ValidClock(born) && i <= j < |clocks|
    requires maxWaitMs < 0x2000_0000_0000_0000 || |clocks| <= 0x8_0000_0000
    requires forall k :: 0 <= k < |clocks| ==> ValidClock(clocks[k])
    requires Admits(interval, maxWaitMs, SlotNext(interval, maxWaitMs, born, clocks, i), clocks[i])
    requires Admits(interval, maxWaitMs, SlotNext(interval, maxWaitMs, born, clocks, j), clocks[j])
    ensures ReleaseOf(interval, maxWaitMs, born, clocks, i)
            + AdmittedBetween(interval, maxWaitMs, born, clocks, i, j) * interval
            <= ReleaseOf(interval, maxWaitMs, born, clocks, j)
    ensures clocks[j] <= ReleaseOf(interval, maxWaitMs, born, clocks, j) <= clocks[j] + maxWaitMs
  {
    assert Headroom(maxWaitMs, |clocks|);
    assert AdmittedBetween(interval, maxWaitMs, born, clocks, i, i) == 0;
    hide *;
    ReleaseIsNextSlot(interval, maxWaitMs, born, clocks, i);
    ReleaseIsNextSlot(interval, maxWaitMs, born, clocks, j);
    if i < j {
      AdvanceFromRelease(
        interval, maxWaitMs, born, clocks, i, j, ReleaseOf(interval, maxWaitMs, born, clocks, i));
    } else {
      SpanOfNothing(AdmittedBetween(interval, maxWaitMs, born, clocks, i, j), interval);
    }
  }

  lemma {:induction false} AdmittedSplit(
      interval: Int64, maxWaitMs: UInt64, born: Int64, clocks: seq<Int64>, i: nat, j: nat)
    requires i < j <= |clocks|
    requires Admits(interval, maxWaitMs, SlotNext(interval, maxWaitMs, born, clocks, i), clocks[i])
    ensures AdmittedBetween(interval, maxWaitMs, born, clocks, i, j)
            == AdmittedBetween(interval, maxWaitMs, born, clocks, i + 1, j) + 1
  {
    hide SlotCheck, Admits, SlotNext;
    if i + 1 < j {
      AdmittedSplit(interval, maxWaitMs, born, clocks, i, j - 1);
    }
  }

  lemma RefusalsReadOnly(interval: Int64, maxWaitMs: UInt64)
    ensures ReadOnlyReturns(SlotOperation(interval, maxWaitMs))
  {
    hide SlotCheck;
    var op := SlotOperation(interval, maxWaitMs);
    forall next: Int64, now: Int64 | !op.run(next, now).writes
      ensures op.run(next, now).cell == next
    {
      RefusalKeepsCell(interval, maxWaitMs, next, now);
    }
  }

  lemma RefusalKeepsCell(interval: Int64, maxWaitMs: UInt64, next: Int64, now: Int64)
    requires !Admits(interval, maxWaitMs, next, now)
    ensures SlotCheck(interval, maxWaitMs, next, now).tat == next
  {
  }

  // However the threads interleave, their calls are decided as in one
  // sequential history of the bucket.
  lemma ThreadsActInSomeOrder(
      interval: Int64, maxWaitMs: UInt64, born: Int64, steps: seq<Step<Int64>>)
    requires Run(SlotOperation(interval, maxWaitMs), born, steps).Some?
    ensures var op := SlotOperation(interval, maxWaitMs);
            var l := Linearization(op, born, steps); var s := Run(op, born, steps).value;
            && s.cell == SlotNext(interval, maxWaitMs, born, Clocks(l), |l|)
            && (forall k :: 0 <= k < |l| ==>
                  l[k].result ==
                    SlotCheck(interval, maxWaitMs, SlotNext(interval, maxWaitMs, born, Clocks(l), k),
                        Clocks(l)[k]).decision)
            && DistinctCalls(l) && Accounts(s, l)
  {
    var op := SlotOperation(interval, maxWaitMs);
    var l := Linearization(op, born, steps);
    hide SlotCheck, Linearization, Run;
    RefusalsReadOnly(interval, maxWaitMs);
    RunIsExplained(op, born, steps);
    ReplayIsNext(interval, maxWaitMs, born, l, |l|);
    assert l[..|l|] == l;
    forall k | 0 <= k < |l|
      ensures l[k].result ==
        SlotCheck(interval, maxWaitMs, SlotNext(interval, maxWaitMs, born, Clocks(l), k), Clocks(l)[k]).decision
    {
      ReplayIsNext(interval, maxWaitMs, born, l, k);
    }
  }

  ghost predicate ClocksInRange(steps: seq<Step<Int64>>) {
    forall k :: 0 <= k < |steps| && steps[k].Invoke? ==> ValidClock(steps[k].call)
  }

  // Every call in the order was invoked, and no step adds more than one.
  lemma {:induction false} CallsWereInvoked(
      interval: Int64, maxWaitMs: UInt64, born: Int64, steps: seq<Step<Int64>>)
    requires ClocksInRange(steps) && Run(SlotOperation(interval, maxWaitMs), born, steps).Some?
    ensures var op := SlotOperation(interval, maxWaitMs);
            var l := Linearization(op, born, steps); var s := Run(op, born, steps).value;
            && |l| <= |steps|
            && (forall id :: id in s.threads ==> ValidClock(s.threads[id].call))
            && (forall k :: 0 <= k < |l| ==> ValidClock(l[k].call))
  {
    hide SlotOperation, ActOn;
    if steps != [] {
      var prefix := steps[..|steps| - 1];
      assert forall k :: 0 <= k < |prefix| ==> prefix[k] == steps[k];
      CallsWereInvoked(interval, maxWaitMs, born, prefix);
    }
  }

  // In the order in which concurrent calls take effect, accepted release times
  // are at least one interval apart and nobody waits longer than max_wait.
  lemma ConcurrentReleasesAreSpaced(
      interval: Int64, maxWaitMs: UInt64, born: Int64, steps: seq<Step<Int64>>, i: nat, j: nat)
    requires ValidInterval(interval) && ValidClock(born) && ClocksInRange(steps)
    requires maxWaitMs < 0x2000_0000_0000_0000 || |steps| <= 0x8_0000_0000
    requires Run(SlotOperation(interval, maxWaitMs), born, steps).Some?
    requires var l := Linearization(SlotOperation(interval, maxWaitMs), born, steps);
             && i < j < |l|
             && !l[i].result.Rejected? && !l[j].result.Rejected?
    ensures var l := Linearization(SlotOperation(interval, maxWaitMs), born, steps);
            && l[i].call + Wait(l[i].result) + interval <= l[j].call + Wait(l[j].result)
            && Wait(l[j].result) <= maxWaitMs
  {
    hide SlotCheck, Linearization, Run, SlotOperation, SlotNext, Wait;
    var l := Linearization(SlotOperation(interval, maxWaitMs), born, steps);
    ThreadsActInSomeOrder(interval, maxWaitMs, born, steps);
    CallsWereInvoked(interval, maxWaitMs, born, steps);
    var clocks := Clocks(l);
    ReleasesAreSpaced(interval, maxWaitMs, born, clocks, i, j);
    AdmittedSplit(interval, maxWaitMs, born, clocks, i, j);
    MulMonotone(1, AdmittedBetween(interval, maxWaitMs, born, clocks, i, j), interval);
  }
}
