/**
 A bucket used through plain checks and reservations. Whatever callers do with
 their reservations, the refunds that reach the bucket never exceed what was
 charged to it, so every such run is a valid bucket history.
 */
module ReservationLedger {
  import opened Wrappers
  import opened I64
  import opened Gcra
  import opened GcraMetadata
  import opened GcraRuns
  import opened RateLimitEngineModel

  datatype LedgerOp =
    | PlainCheck(now: Int64, cost: UInt32)
    | Reserve(now: Int64, estimated: UInt32)
    | Commit(id: nat, actual: UInt32)
    | Release(id: nat)
    | Drop(id: nat, refundRuns: bool)

  // `open[i]` is what the i-th accepted reservation still holds; None once it
  // was committed, released or dropped.
  datatype Ledger = Ledger(history: seq<BucketOp>, open: seq<Option<UInt32>>)

  function Held(open: seq<Option<UInt32>>): nat {
    if open == [] then 0
    else
      var last := open[|open| - 1];
      Held(open[..|open| - 1]) + (if last.Some? then last.value else 0)
  }

  // Consumes reservation `id`: `back` units go to the bucket.
  function Consume(l: Ledger, id: nat, back: UInt32): Ledger
    requires id < |l.open| && l.open[id].Some?
  {
    Ledger(if back == 0 then l.history else l.history + [Refund(back)], l.open[id := None])
  }

  predicate IsOpen(l: Ledger, id: nat) {
    id < |l.open| && l.open[id].Some?
  }

  function Step(e: Int64, b: UInt32, born: Int64, l: Ledger, op: LedgerOp): Ledger {
    match op
    case PlainCheck(now, cost) => l.(history := l.history + [Check(now, cost)])
    case Reserve(now, estimated) =>
      var c := Max(estimated, 1);
      var accepted := Accepts(e, b, After(e, b, born, l.history), now, c);
      Ledger(l.history + [Check(now, c)], if accepted then l.open + [Some(c)] else l.open)
    case Commit(id, actual) =>
      if IsOpen(l, id) then Consume(l, id, l.open[id].value - Min(actual, l.open[id].value)) else l
    case Release(id) =>
      if IsOpen(l, id) then Consume(l, id, l.open[id].value) else l
    case Drop(id, refundRuns) =>
      if IsOpen(l, id) then Consume(l, id, if refundRuns then l.open[id].value else 0) else l
  }

  function Run(e: Int64, b: UInt32, born: Int64, ops: seq<LedgerOp>): Ledger {
    if ops == [] then Ledger([], [])
    else Step(e, b, born, Run(e, b, born, ops[..|ops| - 1]), ops[|ops| - 1])
  }

  predicate ValidClocks(ops: seq<LedgerOp>) {
    forall k :: 0 <= k < |ops| ==>
      match ops[k]
      case PlainCheck(now, _) => ValidClock(now)
      case Reserve(now, _) => ValidClock(now)
      case _ => true
  }

  lemma {:induction false} HeldAfterConsume(open: seq<Option<UInt32>>, id: nat)
    requires id < |open| && open[id].Some?
    ensures Held(open[id := None]) == Held(open) - open[id].value
  {
    var prefix, closed := open[..|open| - 1], open[id := None];
    if id == |open| - 1 {
      assert closed[..|open| - 1] == prefix;
    } else {
      HeldAfterConsume(prefix, id);
      assert closed[..|open| - 1] == prefix[id := None];
    }
  }

  lemma {:induction false} BalanceOfPrefix(
      e: Int64, b: UInt32, born: Int64, ops: seq<BucketOp>, more: seq<BucketOp>, k: nat)
    requires k <= |ops|
    ensures Balance(e, b, born, ops + more, k) == Balance(e, b, born, ops, k)
  {
    hide Charge, Tat;
    if k > 0 {
      BalanceOfPrefix(e, b, born, ops, more, k - 1);
      TatOfPrefix(e, b, born, ops, more, k - 1);
    }
  }

  lemma BalanceAfter(e: Int64, b: UInt32, born: Int64, ops: seq<BucketOp>, op: BucketOp)
    ensures Balance(e, b, born, ops + [op], |ops| + 1)
            == Balance(e, b, born, ops, |ops|) + Charge(e, b, After(e, b, born, ops), op)
  {
    hide Charge, Tat;
    BalanceOfPrefix(e, b, born, ops, [op], |ops|);
    TatOfPrefix(e, b, born, ops, [op], |ops|);
  }

  // Appending one operation that does not overdraw keeps a history valid.
  lemma ExtendHistory(e: Int64, b: UInt32, born: Int64, ops: seq<BucketOp>, op: BucketOp)
    requires ValidHistory(e, b, born, ops)
    requires op.Check? ==> ValidClock(op.now)
    requires var bal := Balance(e, b, born, ops, |ops|) + Charge(e, b, After(e, b, born, ops), op); 0 <= bal
    ensures ValidHistory(e, b, born, ops + [op])
    ensures Balance(e, b, born, ops + [op], |ops| + 1)
            == Balance(e, b, born, ops, |ops|) + Charge(e, b, After(e, b, born, ops), op)
  {
    hide Charge, Tat;
    var longer := ops + [op];
    BalanceAfter(e, b, born, ops, op);
    forall k | 0 <= k <= |longer|
      ensures 0 <= Balance(e, b, born, longer, k)
    {
      if k <= |ops| {
        BalanceOfPrefix(e, b, born, ops, [op], k);
        assert 0 <= Balance(e, b, born, ops, k);
      }
    }
  }

  ghost predicate Covered(e: Int64, b: UInt32, born: Int64, l: Ledger) {
    && ValidHistory(e, b, born, l.history)
    && Held(l.open) <= Balance(e, b, born, l.history, |l.history|)
  }

  lemma ConsumeKeepsCover(e: Int64, b: UInt32, born: Int64, l: Ledger, id: nat, back: UInt32)
    requires Covered(e, b, born, l) && IsOpen(l, id) && back <= l.open[id].value
    ensures Covered(e, b, born, Consume(l, id, back))
  {
    hide Tat, Balance, ValidHistory;
    HeldAfterConsume(l.open, id);
    if back != 0 {
      ExtendHistory(e, b, born, l.history, Refund(back));
    }
  }

  // A check adds what it charges; an accepted reservation holds no more than that.
  lemma CheckKeepsCover(
      e: Int64, b: UInt32, born: Int64, l: Ledger, now: Int64, cost: UInt32, open: seq<Option<UInt32>>)
    requires Covered(e, b, born, l) && ValidClock(now)
    requires Held(open) <= Held(l.open) + Charge(e, b, After(e, b, born, l.history), Check(now, cost))
    ensures Covered(e, b, born, Ledger(l.history + [Check(now, cost)], open))
  {
    hide Tat, Balance, ValidHistory, Accepts, Held;
    ExtendHistory(e, b, born, l.history, Check(now, cost));
  }

  lemma HeldAfterReserve(open: seq<Option<UInt32>>, c: UInt32)
    ensures Held(open + [Some(c)]) == Held(open) + c
  {
    assert (open + [Some(c)])[..|open|] == open;
  }

  lemma ReserveKeepsCover(e: Int64, b: UInt32, born: Int64, l: Ledger, now: Int64, estimated: UInt32)
    requires Covered(e, b, born, l) && ValidClock(now)
    ensures Covered(e, b, born, Step(e, b, born, l, Reserve(now, estimated)))
  {
    hide Covered, Held, After, Accepts;
    var c := Max(estimated, 1);
    HeldAfterReserve(l.open, c);
    CheckKeepsCover(e, b, born, l, now, c, Step(e, b, born, l, Reserve(now, estimated)).open);
  }

  lemma StepKeepsCover(e: Int64, b: UInt32, born: Int64, l: Ledger, op: LedgerOp)
    requires Covered(e, b, born, l) && ValidClocks([op])
    ensures Covered(e, b, born, Step(e, b, born, l, op))
  {
    assert [op][0] == op;
    hide Covered, Accepts, Held, After, Consume;
    match op
    case PlainCheck(now, cost) =>
      CheckKeepsCover(e, b, born, l, now, cost, l.open);
    case Reserve(now, estimated) =>
      hide Step;
      ReserveKeepsCover(e, b, born, l, now, estimated);
    case Commit(id, actual) =>
      if IsOpen(l, id) {
        ConsumeKeepsCover(e, b, born, l, id, l.open[id].value - Min(actual, l.open[id].value));
      }
    case Release(id) =>
      if IsOpen(l, id) {
        ConsumeKeepsCover(e, b, born, l, id, l.open[id].value);
      }
    case Drop(id, refundRuns) =>
      if IsOpen(l, id) {
        ConsumeKeepsCover(e, b, born, l, id, if refundRuns then l.open[id].value else 0);
      }
  }

  // In every run the units held by open reservations are covered by charges
  // not yet refunded; the history stays valid, so the TAT stays above the
  // bucket's creation time by the span of everything still charged.
  lemma {:induction false} RefundsNeverExceedCharges(e: Int64, b: UInt32, born: Int64, ops: seq<LedgerOp>)
    requires ValidParams(e, b) && ValidClock(born) && ValidClocks(ops)
    ensures var l := Run(e, b, born, ops);
            && ValidHistory(e, b, born, l.history)
            && Held(l.open) <= Balance(e, b, born, l.history, |l.history|)
            && born + Held(l.open) * e <= After(e, b, born, l.history)
  {
    if ops != [] {
      var prefix, last := ops[..|ops| - 1], ops[|ops| - 1];
      RefundsNeverExceedCharges(e, b, born, prefix);
      hide Tat, Balance, ValidHistory, Accepts;
      StepKeepsCover(e, b, born, Run(e, b, born, prefix), last);
      var l := Run(e, b, born, ops);
      HistoryInRange(e, b, born, l.history, |l.history|);
      MulMonotone(Held(l.open), Balance(e, b, born, l.history, |l.history|), e);
    }
  }

  // ----- conservation -----

  // Units an operation leaves charged for good: a plain check that passes, the part of a
  // reservation that a commit uses, and a reservation dropped where no refund runs.
  ghost function Settles(e: Int64, b: UInt32, born: Int64, l: Ledger, op: LedgerOp): int {
    match op
    case PlainCheck(now, cost) =>
      if !Accepts(e, b, After(e, b, born, l.history), now, cost) then 0 else if cost == 0 then 1 else cost
    case Reserve(_, _) => 0
    case Commit(id, actual) =>
      if !IsOpen(l, id) then 0 else if actual < l.open[id].value then actual else l.open[id].value
    case Release(_) => 0
    case Drop(id, refundRuns) => if IsOpen(l, id) && !refundRuns then l.open[id].value else 0
  }

  ghost function Settled(e: Int64, b: UInt32, born: Int64, ops: seq<LedgerOp>): int {
    if ops == [] then 0
    else
      var prefix := ops[..|ops| - 1];
      Settled(e, b, born, prefix) + Settles(e, b, born, Run(e, b, born, prefix), ops[|ops| - 1])
  }

  lemma ConsumeConserves(e: Int64, b: UInt32, born: Int64, l: Ledger, id: nat, back: UInt32)
    requires IsOpen(l, id) && back <= l.open[id].value
    ensures var after := Consume(l, id, back);
            Balance(e, b, born, after.history, |after.history|) - Held(after.open)
            == Balance(e, b, born, l.history, |l.history|) - Held(l.open) + l.open[id].value - back
  {
    hide Tat, Balance;
    HeldAfterConsume(l.open, id);
    if back != 0 {
      BalanceAfter(e, b, born, l.history, Refund(back));
    }
  }

  lemma StepConserves(e: Int64, b: UInt32, born: Int64, l: Ledger, op: LedgerOp)
    ensures var after := Step(e, b, born, l, op);
            Balance(e, b, born, after.history, |after.history|) - Held(after.open)
            == Balance(e, b, born, l.history, |l.history|) - Held(l.open) + Settles(e, b, born, l, op)
  {
    hide Tat, Balance, Accepts, Held, After, Consume;
    match op
    case PlainCheck(now, cost) =>
      BalanceAfter(e, b, born, l.history, Check(now, cost));
    case Reserve(now, estimated) =>
      BalanceAfter(e, b, born, l.history, Check(now, Max(estimated, 1)));
      HeldAfterReserve(l.open, Max(estimated, 1));
    case Commit(id, actual) =>
      if IsOpen(l, id) {
        ConsumeConserves(e, b, born, l, id, l.open[id].value - Min(actual, l.open[id].value));
      }
    case Release(id) =>
      if IsOpen(l, id) {
        ConsumeConserves(e, b, born, l, id, l.open[id].value);
      }
    case Drop(id, refundRuns) =>
      if IsOpen(l, id) {
        ConsumeConserves(e, b, born, l, id, if refundRuns then l.open[id].value else 0);
      }
  }

  // What a bucket was charged and did not get back is what was settled plus
  // what open reservations hold, after every sequence of calls.
  lemma {:induction false} UnitsAreConserved(e: Int64, b: UInt32, born: Int64, ops: seq<LedgerOp>)
    ensures var l := Run(e, b, born, ops);
            Balance(e, b, born, l.history, |l.history|) == Settled(e, b, born, ops) + Held(l.open)
  {
    if ops != [] {
      UnitsAreConserved(e, b, born, ops[..|ops| - 1]);
      hide Balance, Held, Step, Settles;
      StepConserves(e, b, born, Run(e, b, born, ops[..|ops| - 1]), ops[|ops| - 1]);
    }
  }
}
