/**
 Concurrent checks and refunds of one bucket, judged by what the callers do and are told: while the
 refunds asked for never exceed the cost of the checks already reported as allowed, every interleaving
 is a valid bucket history, whatever its internal order
 (crates/summer-common/src/rate_limit/algorithms.rs:93-147, engine.rs:191-205, reservation.rs:33-91).
 */
module ConcurrentRefunds {
  import opened Wrappers
  import opened I64
  import opened Gcra
  import opened GcraRuns
  import opened CasLoop

  type BucketStep = CasLoop.Step<BucketOp>
  type BucketState = State<BucketOp, Reply>
  type BucketThread = Thread<BucketOp, Reply>
  type BucketDone = Done<BucketOp, Reply>

  // ----- sums over threads -----

  function Sum(ids: seq<nat>, weight: nat -> int): int {
    if ids == [] then 0 else Sum(ids[..|ids| - 1], weight) + weight(ids[|ids| - 1])
  }

  ghost predicate DistinctIds(ids: seq<nat>) {
    forall i, j :: 0 <= i < j < |ids| ==> ids[i] != ids[j]
  }

  lemma {:induction false} SumSame(ids: seq<nat>, f: nat -> int, g: nat -> int)
    requires forall id :: id in ids ==> f(id) == g(id)
    ensures Sum(ids, f) == Sum(ids, g)
  {
    if ids != [] {
      SumSame(ids[..|ids| - 1], f, g);
    }
  }

  // Changing one thread's weight changes the sum by the difference.
  lemma {:induction false} SumChange(ids: seq<nat>, f: nat -> int, g: nat -> int, id: nat)
    requires DistinctIds(ids) && id in ids
    requires forall x :: x in ids && x != id ==> f(x) == g(x)
    ensures Sum(ids, g) == Sum(ids, f) - f(id) + g(id)
  {
    var front, last := ids[..|ids| - 1], ids[|ids| - 1];
    assert ids == front + [last];
    if last == id {
      SumSame(front, f, g);
    } else {
      SumChange(front, f, g, id);
    }
  }

  lemma {:induction false} SumNotNegative(ids: seq<nat>, f: nat -> int)
    requires forall id :: id in ids ==> 0 <= f(id)
    ensures 0 <= Sum(ids, f)
  {
    if ids != [] {
      SumNotNegative(ids[..|ids| - 1], f);
    }
  }

  lemma SumAppend(ids: seq<nat>, id: nat, f: nat -> int)
    ensures Sum(ids + [id], f) == Sum(ids, f) + f(id)
  {
    assert (ids + [id])[..|ids|] == ids;
  }

  // The threads of a run in the order of their invocation.
  function Ids(steps: seq<BucketStep>): seq<nat> {
    if steps == [] then []
    else
      var last := steps[|steps| - 1];
      Ids(steps[..|steps| - 1]) + if last.Invoke? then [last.id] else []
  }

  lemma {:induction false} IdsAreThreads(e: Int64, b: UInt32, born: Int64, steps: seq<BucketStep>)
    requires Run(BucketOperation(e, b), born, steps).Some?
    ensures DistinctIds(Ids(steps))
    ensures forall id :: id in Ids(steps) <==> id in Run(BucketOperation(e, b), born, steps).value.threads
  {
    hide BucketOperation;
    if steps != [] {
      IdsAreThreads(e, b, born, steps[..|steps| - 1]);
    }
  }

  // ----- what callers do and are told -----

  predicate Admitted(t: BucketThread, result: Reply) {
    t.call.Check? && result.Decided? && result.decision.Allowed?
  }

  // Units of the refunds invoked.
  function Asked(steps: seq<BucketStep>): int {
    if steps == [] then 0
    else
      var last := steps[|steps| - 1];
      Asked(steps[..|steps| - 1]) + if last.Invoke? && last.call.Refund? then last.call.units else 0
  }

  // The cost a step reports as allowed, when it is the return of an admitted check.
  function Reported(s: BucketState, step: BucketStep): int {
    if step.Return? && step.id in s.threads then
      var t := s.threads[step.id];
      if t.pc.Finished? && Admitted(t, t.pc.result) then Units(t.call.cost) else 0
    else 0
  }

  // Cost of the checks already returned as allowed.
  function Paid(e: Int64, b: UInt32, born: Int64, steps: seq<BucketStep>): int {
    if steps == [] then 0
    else
      var prefix := steps[..|steps| - 1];
      var before := Run(BucketOperation(e, b), born, prefix);
      Paid(e, b, born, prefix) + if before.Some? then Reported(before.value, steps[|steps| - 1]) else 0
  }

  // Whenever a refund is invoked, all refunds so far are paid for by checks already reported as allowed.
  ghost predicate Disciplined(e: Int64, b: UInt32, born: Int64, steps: seq<BucketStep>) {
    forall k :: 0 <= k < |steps| && steps[k].Invoke? && steps[k].call.Refund? ==>
      Asked(steps[..k + 1]) <= Paid(e, b, born, steps[..k])
  }

  ghost predicate ClocksInRange(steps: seq<BucketStep>) {
    forall k :: 0 <= k < |steps| && steps[k].Invoke? && steps[k].call.Check? ==> ValidClock(steps[k].call.now)
  }

  lemma {:induction false} AskedIsPaid(e: Int64, b: UInt32, born: Int64, steps: seq<BucketStep>)
    requires Disciplined(e, b, born, steps)
    ensures Asked(steps) <= Paid(e, b, born, steps)
  {
    hide Run;
    if steps != [] {
      var prefix, k := steps[..|steps| - 1], |steps| - 1;
      DisciplineOfPrefix(e, b, born, steps);
      AskedIsPaid(e, b, born, prefix);
      assert steps[..k + 1] == steps;
      if steps[k].Invoke? && steps[k].call.Refund? {
        assert Asked(steps[..k + 1]) <= Paid(e, b, born, steps[..k]);
      }
    }
  }

  lemma DisciplineOfPrefix(e: Int64, b: UInt32, born: Int64, steps: seq<BucketStep>)
    requires Disciplined(e, b, born, steps) && steps != []
    ensures Disciplined(e, b, born, steps[..|steps| - 1])
  {
    hide Asked, Paid;
    var prefix := steps[..|steps| - 1];
    forall k | 0 <= k < |prefix| && prefix[k].Invoke? && prefix[k].call.Refund?
      ensures Asked(prefix[..k + 1]) <= Paid(e, b, born, prefix[..k])
    {
      assert prefix[..k + 1] == steps[..k + 1] && prefix[..k] == steps[..k] && prefix[k] == steps[k];
    }
  }

  // ----- conservation -----

  // What a call that took effect charged.
  function Gain(done: BucketDone): int {
    match done.call
    case Check(_, cost) => if ToldAllowed(done) then Units(cost) else 0
    case Refund(units) => 0 - units
  }

  function TotalGain(history: seq<BucketDone>): int {
    if history == [] then 0 else TotalGain(history[..|history| - 1]) + Gain(history[|history| - 1])
  }

  // Charged but not yet reported, or asked for but not yet taken out.
  function InFlight(t: BucketThread): int {
    match t.call
    case Check(_, cost) => if t.pc.Finished? && Admitted(t, t.pc.result) then Units(cost) else 0
    case Refund(units) => if t.pc.AtUpdate? then units else 0
  }

  function InFlightOf(threads: map<nat, BucketThread>): nat -> int {
    id => if id in threads then InFlight(threads[id]) else 0
  }

  function Pending(steps: seq<BucketStep>, s: BucketState): int {
    Sum(Ids(steps), InFlightOf(s.threads))
  }

  // One thread moves: what is in flight changes by that thread's part.
  lemma PendingChange(ids: seq<nat>, threads: map<nat, BucketThread>, id: nat, t: BucketThread)
    requires DistinctIds(ids) && id in ids && id in threads
    ensures Sum(ids, InFlightOf(threads[id := t]))
            == Sum(ids, InFlightOf(threads)) - InFlight(threads[id]) + InFlight(t)
  {
    SumChange(ids, InFlightOf(threads), InFlightOf(threads[id := t]), id);
  }

  lemma PendingAppend(ids: seq<nat>, threads: map<nat, BucketThread>, id: nat, t: BucketThread)
    requires id !in ids
    ensures Sum(ids + [id], InFlightOf(threads[id := t])) == Sum(ids, InFlightOf(threads)) + InFlight(t)
  {
    SumAppend(ids, id, InFlightOf(threads[id := t]));
    SumSame(ids, InFlightOf(threads), InFlightOf(threads[id := t]));
  }

  // The gain of an action is what it puts in flight.
  lemma ActGain(e: Int64, b: UInt32, s: BucketState, id: nat)
    requires id in s.threads && WellPlaced(BucketOperation(e, b), s)
    requires ActOn(BucketOperation(e, b), s.cell, s.threads[id]).Some?
    ensures var t := s.threads[id]; var effect := TakesEffect(BucketOperation(e, b), s, Act(id));
            InFlight(t.(pc := ActOn(BucketOperation(e, b), s.cell, t).value.1)) - InFlight(t)
            == if effect == [] then 0 else Gain(effect[0])
    ensures |TakesEffect(BucketOperation(e, b), s, Act(id))| <= 1
  {
    hide Gcra.GcraCheck, Gcra.GcraRefund;
  }

  lemma GainAppend(l: seq<BucketDone>, effect: seq<BucketDone>)
    requires |effect| <= 1
    ensures TotalGain(l + effect) == TotalGain(l) + if effect == [] then 0 else Gain(effect[0])
  {
    if effect == [] {
      assert l + effect == l;
    } else {
      assert (l + effect)[..|l|] == l;
    }
  }

  function AskedBy(step: BucketStep): int {
    if step.Invoke? && step.call.Refund? then step.call.units else 0
  }

  function GainOf(effect: seq<BucketDone>): int {
    if effect == [] then 0 else Gain(effect[0])
  }

  // What one step moves in and out of flight.
  lemma PendingStep(e: Int64, b: UInt32, ids: seq<nat>, s: BucketState, step: BucketStep, s': BucketState)
    requires DistinctIds(ids) && (forall id :: id in ids <==> id in s.threads)
    requires WellPlaced(BucketOperation(e, b), s) && Next(BucketOperation(e, b), s, step) == Some(s')
    ensures var effect := TakesEffect(BucketOperation(e, b), s, step);
            && |effect| <= 1
            && Sum(ids + (if step.Invoke? then [step.id] else []), InFlightOf(s'.threads))
               == Sum(ids, InFlightOf(s.threads)) + GainOf(effect) + AskedBy(step) - Reported(s, step)
  {
    var op := BucketOperation(e, b);
    hide Sum, DistinctIds, Gcra.GcraCheck, Gcra.GcraRefund;
    match step
    case Invoke(id, call) =>
      PendingAppend(ids, s.threads, id, Thread(call, Entry(op, call)));
    case Act(id) =>
      assert ids + [] == ids;
      ActGain(e, b, s, id);
      PendingChange(ids, s.threads, id, s.threads[id].(pc := ActOn(op, s.cell, s.threads[id]).value.1));
      hide BucketOperation, ActOn, TakesEffect;
    case Return(id) =>
      assert ids + [] == ids;
      PendingChange(ids, s.threads, id, s.threads[id].(pc := Returned(s.threads[id].pc.result)));
  }

  // Cost charged minus units refunded is what was reported, minus what was asked back, plus what is in flight.
  lemma {:induction false} ChargesAreConserved(e: Int64, b: UInt32, born: Int64, steps: seq<BucketStep>)
    requires Run(BucketOperation(e, b), born, steps).Some?
    ensures var op := BucketOperation(e, b);
            TotalGain(Linearization(op, born, steps))
            == Paid(e, b, born, steps) - Asked(steps) + Pending(steps, Run(op, born, steps).value)
  {
    var op := BucketOperation(e, b);
    hide BucketOperation, Gain, Reported, DistinctIds, WellPlaced;
    if steps != [] {
      var prefix, step := steps[..|steps| - 1], steps[|steps| - 1];
      var s, l := Run(op, born, prefix).value, Linearization(op, born, prefix);
      ChargesAreConserved(e, b, born, prefix);
      IdsAreThreads(e, b, born, prefix);
      ThreadsAreWellPlaced(e, b, born, prefix);
      PendingStep(e, b, Ids(prefix), s, step, Run(op, born, steps).value);
      GainAppend(l, TakesEffect(op, s, step));
    }
  }

  lemma ThreadsAreWellPlaced(e: Int64, b: UInt32, born: Int64, steps: seq<BucketStep>)
    requires Run(BucketOperation(e, b), born, steps).Some?
    ensures WellPlaced(BucketOperation(e, b), Run(BucketOperation(e, b), born, steps).value)
  {
    var op := BucketOperation(e, b);
    assert ReadOnlyReturns(op);
    RunIsExplained(op, born, steps);
  }

  // ----- every interleaving is a valid history -----

  lemma NeverOverdrawn(e: Int64, b: UInt32, born: Int64, steps: seq<BucketStep>)
    requires Run(BucketOperation(e, b), born, steps).Some? && Disciplined(e, b, born, steps)
    ensures 0 <= TotalGain(Linearization(BucketOperation(e, b), born, steps))
  {
    hide Run, Linearization, BucketOperation, Asked, Paid, Disciplined, TotalGain;
    ChargesAreConserved(e, b, born, steps);
    AskedIsPaid(e, b, born, steps);
    SumNotNegative(Ids(steps), InFlightOf(Run(BucketOperation(e, b), born, steps).value.threads));
  }

  lemma {:induction false} PrefixesNeverOverdrawn(e: Int64, b: UInt32, born: Int64, steps: seq<BucketStep>, k: nat)
    requires Run(BucketOperation(e, b), born, steps).Some? && Disciplined(e, b, born, steps)
    requires k <= |Linearization(BucketOperation(e, b), born, steps)|
    ensures 0 <= TotalGain(Linearization(BucketOperation(e, b), born, steps)[..k])
  {
    hide BucketOperation, Disciplined, TotalGain;
    var l := Linearization(BucketOperation(e, b), born, steps);
    if k == |l| {
      assert l[..k] == l;
      NeverOverdrawn(e, b, born, steps);
    } else {
      var prefix := steps[..|steps| - 1];
      DisciplineOfPrefix(e, b, born, steps);
      PrefixesNeverOverdrawn(e, b, born, prefix, k);
      assert l[..k] == Linearization(BucketOperation(e, b), born, prefix)[..k];
    }
  }

  lemma ChargeIsGain(e: Int64, b: UInt32, tat: Int64, done: BucketDone)
    requires done.result == BucketEffect(e, b, tat, done.call).result
    ensures Charge(e, b, tat, done.call) == Gain(done)
  {
    hide Gcra.GcraCheck, Gcra.GcraRefund;
  }

  lemma {:induction false} BalanceIsGain(e: Int64, b: UInt32, born: Int64, steps: seq<BucketStep>, k: nat)
    requires Run(BucketOperation(e, b), born, steps).Some?
    requires k <= |Linearization(BucketOperation(e, b), born, steps)|
    ensures var l := Linearization(BucketOperation(e, b), born, steps);
            Balance(e, b, born, Calls(l), k) == TotalGain(l[..k])
  {
    hide Run, Linearization, BucketOperation, BucketEffect, Charge, Gain, Tat, DistinctCalls, Accounts;
    var l := Linearization(BucketOperation(e, b), born, steps);
    if k > 0 {
      BalanceIsGain(e, b, born, steps, k - 1);
      ThreadsActInSomeOrder(e, b, born, steps);
      ChargeIsGain(e, b, Tat(e, b, born, Calls(l), k - 1), l[k - 1]);
      assert l[..k][..k - 1] == l[..k - 1];
    }
  }

  ghost predicate CallsInRange(threads: map<nat, BucketThread>, l: seq<BucketDone>) {
    && (forall id :: id in threads && threads[id].call.Check? ==> ValidClock(threads[id].call.now))
    && (forall k :: 0 <= k < |l| && l[k].call.Check? ==> ValidClock(l[k].call.now))
  }

  lemma {:induction false} InvokedClocks(e: Int64, b: UInt32, born: Int64, steps: seq<BucketStep>)
    requires Run(BucketOperation(e, b), born, steps).Some? && ClocksInRange(steps)
    ensures CallsInRange(
              Run(BucketOperation(e, b), born, steps).value.threads, Linearization(BucketOperation(e, b), born, steps))
  {
    hide BucketOperation, ActOn;
    if steps != [] {
      var prefix := steps[..|steps| - 1];
      assert forall k :: 0 <= k < |prefix| ==> prefix[k] == steps[k];
      InvokedClocks(e, b, born, prefix);
    }
  }

  // While callers keep to what they were told, the order found for any interleaving is a valid bucket history.
  lemma ConcurrentHistoryIsValid(e: Int64, b: UInt32, born: Int64, steps: seq<BucketStep>)
    requires ValidParams(e, b) && ValidClock(born) && ClocksInRange(steps) && Disciplined(e, b, born, steps)
    requires Run(BucketOperation(e, b), born, steps).Some?
    ensures ValidHistory(e, b, born, Calls(Linearization(BucketOperation(e, b), born, steps)))
  {
    hide Run, Linearization, BucketOperation, Disciplined, ClocksInRange, Balance, TotalGain;
    var ops := Calls(Linearization(BucketOperation(e, b), born, steps));
    InvokedClocks(e, b, born, steps);
    forall k | 0 <= k <= |ops|
      ensures 0 <= Balance(e, b, born, ops, k)
    {
      BalanceIsGain(e, b, born, steps, k);
      PrefixesNeverOverdrawn(e, b, born, steps, k);
    }
  }

  // The admission bound for what concurrent callers are actually told; the cell never falls below the
  // bucket's creation time, so no `fetch_sub` wraps.
  lemma ConcurrentAdmissionBound(
      e: Int64, b: UInt32, born: Int64, steps: seq<BucketStep>, first: nat, last: nat)
    requires ValidParams(e, b) && ValidClock(born) && ClocksInRange(steps) && Disciplined(e, b, born, steps)
    requires Run(BucketOperation(e, b), born, steps).Some?
    requires var l := Linearization(BucketOperation(e, b), born, steps);
             first <= last < |l| && ToldAllowed(l[first]) && ToldAllowed(l[last])
    ensures var l := Linearization(BucketOperation(e, b), born, steps);
            && l[first].call.Check? && l[last].call.Check?
            && TotalGain(l[..last + 1]) - TotalGain(l[..first])
               <= b + (l[last].call.now - l[first].call.now) / e
    ensures born <= Run(BucketOperation(e, b), born, steps).value.cell
  {
    hide Gcra.GcraCheck, BucketOperation, Tat, Balance, TotalGain, Disciplined, ValidHistory, ClocksInRange;
    hide CasLoop.Linearization, CasLoop.Run;
    var l := Linearization(BucketOperation(e, b), born, steps);
    ConcurrentHistoryIsValid(e, b, born, steps);
    ThreadsActInSomeOrder(e, b, born, steps);
    AdmissionBound(e, b, born, Calls(l), first, last);
    BalanceIsGain(e, b, born, steps, first);
    BalanceIsGain(e, b, born, steps, last + 1);
    HistoryInRange(e, b, born, Calls(l), |l|);
  }

  // A check that had returned before another was invoked precedes it, so callers can apply the bound to
  // any two such checks without knowing the order of the rest.
  lemma BoundBetweenCalls(e: Int64, b: UInt32, born: Int64, steps: seq<BucketStep>, i: nat, j: nat, last: nat)
    returns (first: nat)
    requires ValidParams(e, b) && ValidClock(born) && ClocksInRange(steps) && Disciplined(e, b, born, steps)
    requires Run(BucketOperation(e, b), born, steps).Some?
    requires i < j < |steps| && steps[i].Return? && steps[j].Invoke?
    requires var l := Linearization(BucketOperation(e, b), born, steps); last < |l| && l[last].id == steps[j].id
    ensures var l := Linearization(BucketOperation(e, b), born, steps);
            && first < last && l[first].id == steps[i].id
            && (ToldAllowed(l[first]) && ToldAllowed(l[last]) ==>
                  && l[first].call.Check? && l[last].call.Check?
                  && TotalGain(l[..last + 1]) - TotalGain(l[..first])
                     <= b + (l[last].call.now - l[first].call.now) / e)
  {
    assert ReadOnlyReturns(BucketOperation(e, b));
    hide BucketOperation, TotalGain, Disciplined, ClocksInRange, CasLoop.Linearization, CasLoop.Run;
    RealTimeOrder(BucketOperation(e, b), born, steps, i, j, last);
    var l := Linearization(BucketOperation(e, b), born, steps);
    first :| 0 <= first < last && l[first].id == steps[i].id;
    if ToldAllowed(l[first]) && ToldAllowed(l[last]) {
      ConcurrentAdmissionBound(e, b, born, steps, first, last);
    }
  }

  // ----- concurrent reservations -----

  // The reservations already given back; `owner` names the check that made the reservation of a refund.
  function Spent(steps: seq<BucketStep>, owner: nat -> nat): set<nat> {
    if steps == [] then {}
    else
      var last := steps[|steps| - 1];
      Spent(steps[..|steps| - 1], owner) + if last.Invoke? && last.call.Refund? then {owner(last.id)} else {}
  }

  predicate HoldsReservation(t: BucketThread) {
    t.pc.Returned? && Admitted(t, t.pc.result)
  }

  predicate Backs(s: BucketState, spent: set<nat>, id: nat, units: UInt32) {
    id !in spent && id in s.threads && HoldsReservation(s.threads[id]) && units <= Units(s.threads[id].call.cost)
  }

  // Each refund gives back at most what one allowed check of its own charged, once.
  ghost predicate EachRefundIsBacked(e: Int64, b: UInt32, born: Int64, steps: seq<BucketStep>, owner: nat -> nat) {
    forall k :: 0 <= k < |steps| && steps[k].Invoke? && steps[k].call.Refund? ==>
      var before := Run(BucketOperation(e, b), born, steps[..k]);
      before.Some? && Backs(before.value, Spent(steps[..k], owner), owner(steps[k].id), steps[k].call.units)
  }

  function Held(threads: map<nat, BucketThread>, spent: set<nat>): nat -> int {
    id => if id in threads && id !in spent && HoldsReservation(threads[id]) then Units(threads[id].call.cost) else 0
  }

  // Giving a reservation back takes out at least what is asked for.
  lemma HeldRefund(
      ids: seq<nat>, s: BucketState, spent: set<nat>, owner: nat, id: nat, units: UInt32, t: BucketThread)
    requires DistinctIds(ids) && (forall x :: x in ids <==> x in s.threads) && id !in s.threads
    requires Backs(s, spent, owner, units) && !t.pc.Returned?
    ensures Sum(ids, Held(s.threads[id := t], spent + {owner})) <= Sum(ids, Held(s.threads, spent)) - units
  {
    hide Sum, DistinctIds, Admitted;
    SumChange(ids, Held(s.threads, spent), Held(s.threads[id := t], spent + {owner}), owner);
  }

  // A thread that holds no reservation before or after.
  lemma HeldElsewhere(ids: seq<nat>, threads: map<nat, BucketThread>, spent: set<nat>, id: nat, t: BucketThread)
    requires id in threads ==> !threads[id].pc.Returned?
    requires !t.pc.Returned?
    ensures Sum(ids, Held(threads[id := t], spent)) == Sum(ids, Held(threads, spent))
  {
    SumSame(ids, Held(threads, spent), Held(threads[id := t], spent));
  }

  lemma HeldReturn(ids: seq<nat>, s: BucketState, spent: set<nat>, id: nat)
    requires DistinctIds(ids) && id in ids && id in s.threads && s.threads[id].pc.Finished?
    ensures var t := s.threads[id];
            Sum(ids, Held(s.threads[id := t.(pc := Returned(t.pc.result))], spent))
            <= Sum(ids, Held(s.threads, spent)) + Reported(s, Return(id))
  {
    hide Sum, DistinctIds;
    var t := s.threads[id];
    SumChange(ids, Held(s.threads, spent), Held(s.threads[id := t.(pc := Returned(t.pc.result))], spent), id);
  }

  // A step moves what reservations hold by no more than what is reported and asked for.
  lemma HeldStep(
      e: Int64, b: UInt32, ids: seq<nat>, s: BucketState, step: BucketStep, s': BucketState, spent: set<nat>,
      owner: nat -> nat)
    requires DistinctIds(ids) && (forall id :: id in ids <==> id in s.threads)
    requires Next(BucketOperation(e, b), s, step) == Some(s')
    requires step.Invoke? && step.call.Refund? ==> Backs(s, spent, owner(step.id), step.call.units)
    ensures var spent' := spent + if step.Invoke? && step.call.Refund? then {owner(step.id)} else {};
            Sum(ids + (if step.Invoke? then [step.id] else []), Held(s'.threads, spent'))
            <= Sum(ids, Held(s.threads, spent)) + Reported(s, step) - AskedBy(step)
  {
    var spent' := spent + if step.Invoke? && step.call.Refund? then {owner(step.id)} else {};
    match step
    case Invoke(id, call) =>
      SumAppend(ids, id, Held(s'.threads, spent'));
      assert Held(s'.threads, spent')(id) == 0;
      hide Sum, DistinctIds, Held, Backs;
      if call.Refund? {
        HeldRefund(ids, s, spent, owner(id), id, call.units, s'.threads[id]);
      } else {
        assert spent' == spent;
        HeldElsewhere(ids, s.threads, spent, id, s'.threads[id]);
      }
    case Act(id) =>
      assert ids + [] == ids && spent' == spent;
      hide BucketOperation, Sum, DistinctIds, Held;
      HeldElsewhere(ids, s.threads, spent, id, s'.threads[id]);
    case Return(id) =>
      assert ids + [] == ids && spent' == spent;
      hide BucketOperation, Sum, DistinctIds, Held, Reported;
      HeldReturn(ids, s, spent, id);
  }

  lemma BackedPrefix(e: Int64, b: UInt32, born: Int64, steps: seq<BucketStep>, owner: nat -> nat)
    requires EachRefundIsBacked(e, b, born, steps, owner) && steps != []
    ensures EachRefundIsBacked(e, b, born, steps[..|steps| - 1], owner)
  {
    hide Run, Spent, Backs;
    var prefix := steps[..|steps| - 1];
    forall k | 0 <= k < |prefix| && prefix[k].Invoke? && prefix[k].call.Refund?
      ensures var before := Run(BucketOperation(e, b), born, prefix[..k]);
              before.Some? && Backs(before.value, Spent(prefix[..k], owner), owner(prefix[k].id), prefix[k].call.units)
    {
      assert prefix[..k] == steps[..k] && prefix[k] == steps[k];
    }
  }

  // What open reservations hold is always covered by what was reported and not yet asked back.
  lemma {:induction false} ReservationsAreCovered(
      e: Int64, b: UInt32, born: Int64, steps: seq<BucketStep>, owner: nat -> nat)
    requires Run(BucketOperation(e, b), born, steps).Some? && EachRefundIsBacked(e, b, born, steps, owner)
    ensures Sum(Ids(steps), Held(Run(BucketOperation(e, b), born, steps).value.threads, Spent(steps, owner)))
            <= Paid(e, b, born, steps) - Asked(steps)
    ensures 0 <= Paid(e, b, born, steps) - Asked(steps)
  {
    var op := BucketOperation(e, b);
    hide BucketOperation, Reported, DistinctIds, Backs;
    if steps != [] {
      var prefix, step := steps[..|steps| - 1], steps[|steps| - 1];
      var s := Run(op, born, prefix).value;
      assert steps[|prefix|] == step && steps[..|prefix|] == prefix;
      BackedPrefix(e, b, born, steps, owner);
      ReservationsAreCovered(e, b, born, prefix, owner);
      IdsAreThreads(e, b, born, prefix);
      HeldStep(e, b, Ids(prefix), s, step, Run(op, born, steps).value, Spent(prefix, owner), owner);
    }
    SumNotNegative(Ids(steps), Held(Run(op, born, steps).value.threads, Spent(steps, owner)));
  }

  // Reservations given back at most once and never beyond their charge keep the discipline, however
  // many of them are held and given back at the same time.
  lemma ReservationsAreDisciplined(
      e: Int64, b: UInt32, born: Int64, steps: seq<BucketStep>, owner: nat -> nat)
    requires Run(BucketOperation(e, b), born, steps).Some? && EachRefundIsBacked(e, b, born, steps, owner)
    ensures Disciplined(e, b, born, steps)
  {
    hide BucketOperation, Run, Linearization, Paid;
    forall k | 0 <= k < |steps| && steps[k].Invoke? && steps[k].call.Refund?
      ensures Asked(steps[..k + 1]) <= Paid(e, b, born, steps[..k])
    {
      RefundIsPaid(e, b, born, steps, owner, k);
    }
  }

  lemma {:induction false} BackedUpTo(
      e: Int64, b: UInt32, born: Int64, steps: seq<BucketStep>, owner: nat -> nat, k: nat)
    requires EachRefundIsBacked(e, b, born, steps, owner) && k <= |steps|
    ensures EachRefundIsBacked(e, b, born, steps[..k], owner)
    decreases |steps|
  {
    hide EachRefundIsBacked;
    if k == |steps| {
      assert steps[..k] == steps;
    } else {
      BackedPrefix(e, b, born, steps, owner);
      BackedUpTo(e, b, born, steps[..|steps| - 1], owner, k);
      assert steps[..|steps| - 1][..k] == steps[..k];
    }
  }

  lemma RefundIsPaid(e: Int64, b: UInt32, born: Int64, steps: seq<BucketStep>, owner: nat -> nat, k: nat)
    requires Run(BucketOperation(e, b), born, steps).Some? && EachRefundIsBacked(e, b, born, steps, owner)
    requires k < |steps| && steps[k].Invoke? && steps[k].call.Refund?
    ensures Asked(steps[..k + 1]) <= Paid(e, b, born, steps[..k])
  {
    hide BucketOperation, Run, EachRefundIsBacked;
    var upTo := steps[..k + 1];
    PrefixOfRun(BucketOperation(e, b), born, steps, k + 1);
    BackedUpTo(e, b, born, steps, owner, k + 1);
    ReservationsAreCovered(e, b, born, upTo, owner);
    assert upTo[..k] == steps[..k] && upTo[k] == steps[k];
    assert Paid(e, b, born, upTo) == Paid(e, b, born, steps[..k]);
  }
}
