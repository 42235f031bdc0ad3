/**
 The in-memory limiter: bucket tables of shared atomic cells, the GCRA retry
 loop, refunds (crates/summer-common/src/rate_limit/engine.rs, algorithms.rs)
 and the reservation that is consumed once (reservation.rs, context.rs:134-162).

 `interference` stands for the other threads: the i-th entry holds the checks
 and refunds they complete on this bucket between this caller's i-th load and
 its i-th compare-and-swap.
 */
module RateLimitEngineModel {
  import opened Wrappers
  import opened I64
  import opened RateConfig
  import opened Gcra
  import opened GcraRuns
  import opened SlotScheduler
  import opened SlidingWindow
  import opened RatePolicy

  class AtomicI64 {
    var value: Int64

    constructor (v: Int64)
      ensures value == v
    {
      value := v;
    }

    method Load() returns (v: Int64)
      ensures v == value
    {
      v := value;
    }

    method CompareExchange(expected: Int64, replacement: Int64) returns (swapped: bool)
      modifies this
      ensures swapped == (old(value) == expected)
      ensures value == if swapped then replacement else old(value)
    {
      swapped := value == expected;
      if swapped {
        value := replacement;
      }
    }

    method FetchSub(amount: Int64)
      modifies this
      ensures value == Wrap(old(value) - amount)
    {
      value := Wrap(value - amount);
    }
  }

  // The cell after the operations, in order.
  function After(e: Int64, b: UInt32, tat: Int64, ops: seq<BucketOp>): Int64 {
    Tat(e, b, tat, ops, |ops|)
  }

  function Flatten(batches: seq<seq<BucketOp>>): seq<BucketOp> {
    if batches == [] then [] else Flatten(batches[..|batches| - 1]) + batches[|batches| - 1]
  }

  lemma {:induction false} TatOfPrefix(
      e: Int64, b: UInt32, tat: Int64, ops: seq<BucketOp>, more: seq<BucketOp>, k: nat)
    requires k <= |ops|
    ensures Tat(e, b, tat, ops + more, k) == Tat(e, b, tat, ops, k)
  {
    hide ApplyOp;
    if k > 0 {
      TatOfPrefix(e, b, tat, ops, more, k - 1);
    }
  }

  lemma AfterOne(e: Int64, b: UInt32, tat: Int64, ops: seq<BucketOp>, op: BucketOp)
    ensures After(e, b, tat, ops + [op]) == ApplyOp(e, b, After(e, b, tat, ops), op)
  {
    hide ApplyOp;
    TatOfPrefix(e, b, tat, ops, [op], |ops|);
  }

  lemma {:induction false} AfterConcat(
      e: Int64, b: UInt32, tat: Int64, ops: seq<BucketOp>, more: seq<BucketOp>)
    ensures After(e, b, tat, ops + more) == After(e, b, After(e, b, tat, ops), more)
  {
    hide ApplyOp, Tat;
    if more == [] {
      assert ops + more == ops;
      TatAtZero(e, b, After(e, b, tat, ops), more);
    } else {
      var front, last := more[..|more| - 1], more[|more| - 1];
      AfterConcat(e, b, tat, ops, front);
      AfterOne(e, b, tat, ops + front, last);
      AfterOne(e, b, After(e, b, tat, ops), front, last);
      assert ops + more == ops + front + [last];
      assert more == front + [last];
    }
  }

  lemma TatAtZero(e: Int64, b: UInt32, tat: Int64, ops: seq<BucketOp>)
    ensures Tat(e, b, tat, ops, 0) == tat
  {
  }

  lemma NothingYet(e: Int64, b: UInt32, tat: Int64, batches: seq<seq<BucketOp>>)
    ensures After(e, b, tat, Flatten(batches[..0])) == tat
  {
  }

  lemma OneMoreBatch(e: Int64, b: UInt32, tat: Int64, batches: seq<seq<BucketOp>>, k: nat)
    requires k < |batches|
    ensures After(e, b, tat, Flatten(batches[..k + 1]))
            == After(e, b, After(e, b, tat, Flatten(batches[..k])), batches[k])
  {
    assert batches[..k + 1][..k] == batches[..k];
    AfterConcat(e, b, tat, Flatten(batches[..k]), batches[k]);
  }

  // The scheduler's cell after the batches of requests, in order.
  function SlotsAfter(interval: Int64, maxWaitMs: UInt64, next: Int64, batches: seq<seq<Int64>>): Int64 {
    if batches == [] then next
    else
      var last := batches[|batches| - 1];
      SlotNext(interval, maxWaitMs, SlotsAfter(interval, maxWaitMs, next, batches[..|batches| - 1]), last, |last|)
  }

  lemma NoSlotsYet(interval: Int64, maxWaitMs: UInt64, next: Int64, batches: seq<seq<Int64>>)
    ensures SlotsAfter(interval, maxWaitMs, next, batches[..0]) == next
  {
  }

  lemma MoreSlots(interval: Int64, maxWaitMs: UInt64, next: Int64, batches: seq<seq<Int64>>, k: nat)
    requires k < |batches|
    ensures SlotsAfter(interval, maxWaitMs, next, batches[..k + 1])
            == SlotNext(
                 interval, maxWaitMs, SlotsAfter(interval, maxWaitMs, next, batches[..k]), batches[k], |batches[k]|)
  {
    assert batches[..k + 1][..k] == batches[..k];
  }

  class RateLimitEngine {
    var gcraStates: map<CacheKey, AtomicI64>
    var scheduledStates: map<CacheKey, AtomicI64>
    var slidingWindowStates: map<CacheKey, seq<int>>
    var costConsumed: nat
    var costRefunded: nat

    constructor ()
      ensures Valid()
      ensures gcraStates == scheduledStates == map[] && slidingWindowStates == map[]
      ensures costConsumed == costRefunded == 0
    {
      gcraStates := map[];
      scheduledStates := map[];
      slidingWindowStates := map[];
      costConsumed := 0;
      costRefunded := 0;
    }

    // Every bucket has a cell of its own.
    ghost predicate Valid()
      reads this
    {
      && (forall k1, k2 :: k1 in gcraStates && k2 in gcraStates && gcraStates[k1] == gcraStates[k2] ==> k1 == k2)
      && (forall k1, k2 ::
            k1 in scheduledStates && k2 in scheduledStates && scheduledStates[k1] == scheduledStates[k2] ==> k1 == k2)
      && (forall k1, k2 :: k1 in gcraStates && k2 in scheduledStates ==> gcraStates[k1] != scheduledStates[k2])
    }

    // The bucket's cell, and only it.
    function Cell(key: CacheKey): set<AtomicI64>
      reads this
    {
      if key in gcraStates then {gcraStates[key]} else {}
    }

    function SlotCell(key: CacheKey): set<AtomicI64>
      reads this
    {
      if key in scheduledStates then {scheduledStates[key]} else {}
    }

    // The other threads' operations, each one atomic.
    method PerformOthers(cell: AtomicI64, e: Int64, b: UInt32, ops: seq<BucketOp>)
      modifies cell
      ensures cell.value == After(e, b, old(cell.value), ops)
    {
      hide GcraCheck, GcraRefund, Tat;
      TatAtZero(e, b, cell.value, []);
      for i := 0 to |ops|
        invariant cell.value == After(e, b, old(cell.value), ops[..i])
      {
        AfterOne(e, b, old(cell.value), ops[..i], ops[i]);
        assert ops[..i + 1] == ops[..i] + [ops[i]];
        match ops[i]
        case Check(now, cost) =>
          cell.value := GcraCheck(e, b, cell.value, now, cost).tat;
        case Refund(units) =>
          cell.value := GcraRefund(e, cell.value, units);
      }
      assert ops[..|ops|] == ops;
    }

    // The decision and the new TAT are those of one atomic check placed after
    // the first `rounds` batches of the other threads' operations.
    method CheckMemoryGcra(
        userKey: string, cfg: RateLimitConfig, cost: UInt32, now: Int64, interference: seq<seq<BucketOp>>)
      returns (decision: Decision, rounds: nat)
      requires Valid()
      modifies this`gcraStates, Cell(CacheKeyFor(cfg, userKey))
      ensures Valid() && rounds <= |interference|
      ensures var key := CacheKeyFor(cfg, userKey);
              && key in gcraStates
              && (key in old(gcraStates) ==> gcraStates == old(gcraStates))
              && (key !in old(gcraStates) ==>
                    fresh(gcraStates[key]) && gcraStates == old(gcraStates)[key := gcraStates[key]])
      ensures var key := CacheKeyFor(cfg, userKey);
              var start := if key in old(gcraStates) then old(gcraStates[key].value) else now;
              var others := Flatten(interference[..rounds]);
              var out := ConfiguredCheck(cfg, ConfiguredTat(cfg, start, others, |others|), now, cost);
              decision == out.decision && gcraStates[key].value == out.tat
    {
      hide Tat, Flatten, EmissionIntervalMillis, EffectiveBurst, SatAdd, SatSub, SatMul, AsU32, AsU64, TruncDiv;
      var emission := EmissionIntervalMillis(cfg);
      var burst := EffectiveBurst(cfg);
      var capacity := SatMul(burst, emission);
      var costEmission := SatMul(Max(cost, 1), emission);
      var key := CacheKeyFor(cfg, userKey);
      var state: AtomicI64;
      if key in gcraStates {
        state := gcraStates[key];
      } else {
        state := new AtomicI64(now);
        gcraStates := gcraStates[key := state];
      }
      ghost var start, cells := state.value, gcraStates;
      NothingYet(emission, burst, start, interference);
      rounds := 0;
      while true
        invariant rounds <= |interference|
        invariant state.value == After(emission, burst, start, Flatten(interference[..rounds]))
        invariant gcraStates == cells
        decreases |interference| - rounds
      {
        var tat := state.Load();
        var arrival := Max(tat, now);
        var diff := SatSub(arrival, now);
        if SatAdd(diff, costEmission) > capacity {
          var retryAfterMs := AsU64(Max(SatSub(SatAdd(diff, costEmission), capacity), 0));
          return Rejected(RejectedMetadata(burst, retryAfterMs)), rounds;
        }
        var newTat := SatAdd(arrival, costEmission);
        if rounds < |interference| {
          PerformOthers(state, emission, burst, interference[rounds]);
          OneMoreBatch(emission, burst, start, interference, rounds);
          rounds := rounds + 1;
        }
        var swapped := state.CompareExchange(tat, newTat);
        if swapped {
          var remaining :=
            if emission > 0 then
              AsU32(Max(TruncDiv(SatSub(SatSub(capacity, diff), costEmission), emission), 0))
            else 0;
          var resetAfterMs := AsU64(Max(SatSub(newTat, now), 0));
          return Allowed(Metadata(burst, remaining, resetAfterMs, None)), rounds;
        }
      }
    }

    // The other threads' requests, each one atomic.
    method PerformOtherRequests(cell: AtomicI64, interval: Int64, maxWaitMs: UInt64, clocks: seq<Int64>)
      modifies cell
      ensures cell.value == SlotNext(interval, maxWaitMs, old(cell.value), clocks, |clocks|)
    {
      hide SlotCheck;
      for i := 0 to |clocks|
        invariant cell.value == SlotNext(interval, maxWaitMs, old(cell.value), clocks, i)
      {
        cell.value := SlotCheck(interval, maxWaitMs, cell.value, clocks[i]).tat;
      }
    }

    // The slot scheduler's retry loop: one atomic request placed after the
    // first `rounds` batches of the other threads' requests, given by their clocks.
    method CheckMemoryScheduledSlot(
        userKey: string, cfg: RateLimitConfig, maxWaitMs: UInt64, now: Int64, interference: seq<seq<Int64>>)
      returns (decision: Decision, rounds: nat)
      requires Valid()
      modifies this`scheduledStates, SlotCell(CacheKeyFor(cfg, userKey))
      ensures Valid() && rounds <= |interference|
      ensures var key := CacheKeyFor(cfg, userKey);
              && key in scheduledStates
              && (key in old(scheduledStates) ==> scheduledStates == old(scheduledStates))
              && (key !in old(scheduledStates) ==>
                    && fresh(scheduledStates[key])
                    && scheduledStates == old(scheduledStates)[key := scheduledStates[key]])
      ensures var key := CacheKeyFor(cfg, userKey);
              var interval := Max(EmissionIntervalMillis(cfg), 1);
              var start := if key in old(scheduledStates) then old(scheduledStates[key].value) else now;
              var seen := SlotsAfter(interval, maxWaitMs, start, interference[..rounds]);
              var out := SlotCheck(interval, maxWaitMs, seen, now);
              decision == out.decision && scheduledStates[key].value == out.tat
    {
      hide SlotNext, SlotsAfter, EmissionIntervalMillis, SatAdd, SatSub, AsU64;
      var intervalMs := Max(EmissionIntervalMillis(cfg), 1);
      var key := CacheKeyFor(cfg, userKey);
      var state: AtomicI64;
      if key in scheduledStates {
        state := scheduledStates[key];
      } else {
        state := new AtomicI64(now);
        scheduledStates := scheduledStates[key := state];
      }
      ghost var start, cells := state.value, scheduledStates;
      NoSlotsYet(intervalMs, maxWaitMs, start, interference);
      rounds := 0;
      while true
        invariant rounds <= |interference|
        invariant state.value == SlotsAfter(intervalMs, maxWaitMs, start, interference[..rounds])
        invariant scheduledStates == cells
        decreases |interference| - rounds
      {
        var nextAvailable := state.Load();
        var scheduled := Max(nextAvailable, now);
        var delayMs := AsU64(Max(SatSub(scheduled, now), 0));
        if delayMs > maxWaitMs {
          return Rejected(RejectedMetadata(1, delayMs)), rounds;
        }
        var newNext := SatAdd(scheduled, intervalMs);
        if rounds < |interference| {
          PerformOtherRequests(state, intervalMs, maxWaitMs, interference[rounds]);
          MoreSlots(intervalMs, maxWaitMs, start, interference, rounds);
          rounds := rounds + 1;
        }
        var swapped := state.CompareExchange(nextAvailable, newNext);
        if swapped {
          var meta := Metadata(1, 0, AsU64(intervalMs), None);
          if delayMs == 0 {
            return Allowed(meta), rounds;
          }
          return Delayed(delayMs, meta), rounds;
        }
      }
    }

    // The whole call runs under the bucket's lock.
    method CheckMemorySlidingWindow(userKey: string, cfg: RateLimitConfig, now: Int64) returns (decision: Decision)
      modifies this`slidingWindowStates
      ensures var key := CacheKeyFor(cfg, userKey);
              var entries := if key in old(slidingWindowStates) then old(slidingWindowStates[key]) else [];
              var out := SlidingCheck(UnitMillis(cfg.per), AtLeastOne(cfg.rate), entries, now);
              decision == out.decision && slidingWindowStates == old(slidingWindowStates)[key := out.entries]
    {
      var windowMs := Max(WindowMillis(cfg.per), 1);
      var limit := WindowLimit(cfg);
      var key := CacheKeyFor(cfg, userKey);
      var entries := if key in slidingWindowStates then slidingWindowStates[key] else [];
      ghost var start := entries;
      var cutoff := now - windowMs;
      while entries != [] && entries[0] <= cutoff
        invariant DropExpired(entries, cutoff) == DropExpired(start, cutoff)
        decreases |entries|
      {
        entries := entries[1..];
      }
      if AsU32(|entries|) >= limit {
        var retryAfterMs := ResetFromFront(entries, windowMs, now);
        slidingWindowStates := slidingWindowStates[key := entries];
        return Rejected(Metadata(limit, 0, retryAfterMs, Some(retryAfterMs)));
      }
      entries := entries + [now];
      slidingWindowStates := slidingWindowStates[key := entries];
      var resetAfterMs := ResetFromFront(entries, windowMs, now);
      return Allowed(Metadata(limit, Max(limit - AsU32(|entries|), 0), resetAfterMs, None));
    }

    // The units go back to this bucket's cell and to no other; algorithms
    // without cost, a zero refund and a missing bucket change no cell.
    method Refund(userKey: string, cfg: RateLimitConfig, units: UInt32)
      requires Valid()
      modifies this`costRefunded, Cell(CacheKeyFor(cfg, userKey))
      ensures Valid()
      ensures var key := CacheKeyFor(cfg, userKey);
              key in gcraStates ==>
                gcraStates[key].value ==
                  (if cfg.algorithm.TokenBucket? || cfg.algorithm.Gcra?
                   then GcraRefund(EmissionIntervalMillis(cfg), old(gcraStates[key].value), units)
                   else old(gcraStates[key].value))
      ensures costRefunded
              == old(costRefunded) + (if cfg.algorithm.TokenBucket? || cfg.algorithm.Gcra? then units else 0)
    {
      if !SupportsCost(cfg.algorithm) || units == 0 {
        return;
      }
      var emission := EmissionIntervalMillis(cfg);
      var refundMs := SatMul(units, emission);
      var key := CacheKeyFor(cfg, userKey);
      if key in gcraStates {
        var state := gcraStates[key];
        state.FetchSub(refundMs);
      }
      costRefunded := costRefunded + units;
    }
  }

  // ----- reservations -----

  datatype ReservationState = ReservationState(userKey: string, cfg: RateLimitConfig, reservedCost: UInt32)

  datatype ReserveError = CostNotSupported | TooManyRequests

  class Reservation {
    const engine: RateLimitEngine
    const hasHandle: bool
    var state: Option<ReservationState>

    constructor (engine: RateLimitEngine, state: ReservationState, hasHandle: bool)
      ensures this.engine == engine && this.state == Some(state) && this.hasHandle == hasHandle
    {
      this.engine := engine;
      this.state := Some(state);
      this.hasHandle := hasHandle;
    }

    function Cell(): set<AtomicI64>
      reads this, engine
    {
      if state.Some? then engine.Cell(CacheKeyFor(state.value.cfg, state.value.userKey)) else {}
    }

    // `back` units were given back to the reserved bucket, exactly.
    twostate predicate GaveBack(back: int)
      requires old(state).Some? && 0 <= back < U32_COUNT
      reads this, engine, engine.gcraStates.Values
    {
      var s := old(state).value; var key := CacheKeyFor(s.cfg, s.userKey);
      && engine.gcraStates == old(engine.gcraStates)
      && (key in engine.gcraStates ==>
            engine.gcraStates[key].value ==
              (if s.cfg.algorithm.TokenBucket? || s.cfg.algorithm.Gcra?
               then GcraRefund(EmissionIntervalMillis(s.cfg), old(engine.gcraStates[key].value), back)
               else old(engine.gcraStates[key].value)))
      && engine.costRefunded
         == old(engine.costRefunded)
            + (if s.cfg.algorithm.TokenBucket? || s.cfg.algorithm.Gcra? then back else 0)
    }

    method Take() returns (taken: Option<ReservationState>)
      modifies this`state
      ensures taken == old(state) && state == None
    {
      taken := state;
      state := None;
    }

    // Keeps what was used and gives the rest back; the value is consumed, so
    // its drop at the end of the scope finds nothing left.
    method Commit(actualCost: UInt32)
      requires engine.Valid()
      modifies this`state, engine`costRefunded, Cell()
      ensures engine.Valid() && state == None
      ensures old(state).Some? ==>
                GaveBack(
                  if actualCost < old(state).value.reservedCost then old(state).value.reservedCost - actualCost else 0)
      ensures old(state).None? ==> unchanged(this) && unchanged(engine)
    {
      var taken := Take();
      if taken.Some? {
        var s := taken.value;
        var actual := Min(actualCost, s.reservedCost);
        if actual < s.reservedCost {
          var refund := s.reservedCost - actual;
          engine.Refund(s.userKey, s.cfg, refund);
        }
      }
      Drop(false);
    }

    method Release()
      requires engine.Valid()
      modifies this`state, engine`costRefunded, Cell()
      ensures engine.Valid() && state == None
      ensures old(state).Some? ==> GaveBack(old(state).value.reservedCost)
      ensures old(state).None? ==> unchanged(this) && unchanged(engine)
    {
      var taken := Take();
      if taken.Some? {
        var s := taken.value;
        engine.Refund(s.userKey, s.cfg, s.reservedCost);
      }
      Drop(false);
    }

    // Dropping an unconsumed reservation gives everything back, unless no
    // runtime handle is left to run the refund on.
    method Drop(runtimeHere: bool)
      requires engine.Valid()
      modifies this`state, engine`costRefunded, Cell()
      ensures engine.Valid() && state == None
      ensures old(state).Some? ==>
                GaveBack(if hasHandle || runtimeHere then old(state).value.reservedCost else 0)
      ensures old(state).None? ==> unchanged(this) && unchanged(engine)
    {
      var taken := Take();
      if taken.Some? && (hasHandle || runtimeHere) {
        var s := taken.value;
        engine.Refund(s.userKey, s.cfg, s.reservedCost);
      }
    }
  }

  // Charges the estimate before the work starts; only an accepted charge
  // yields a reservation, and it records what was charged.
  method Reserve(
      engine: RateLimitEngine, userKey: string, cfg: RateLimitConfig, estimatedCost: UInt32, now: Int64,
      interference: seq<seq<BucketOp>>, hasHandle: bool)
    returns (result: Result<Reservation, ReserveError>, rounds: nat)
    requires engine.Valid()
    modifies engine`gcraStates, engine`costConsumed, engine.Cell(CacheKeyFor(cfg, userKey))
    ensures engine.Valid() && rounds <= |interference|
    ensures !(cfg.algorithm.TokenBucket? || cfg.algorithm.Gcra?) ==>
              result == Err(CostNotSupported) && unchanged(engine)
    ensures cfg.algorithm.TokenBucket? || cfg.algorithm.Gcra? ==>
              var key := CacheKeyFor(cfg, userKey);
              var start := if key in old(engine.gcraStates) then old(engine.gcraStates[key].value) else now;
              var others := Flatten(interference[..rounds]);
              var charge := AtLeastOne(estimatedCost);
              var out := ConfiguredCheck(cfg, ConfiguredTat(cfg, start, others, |others|), now, charge);
              && key in engine.gcraStates && engine.gcraStates[key].value == out.tat
              && result.Ok? == out.decision.Allowed?
              && (result.Err? ==> result.error == TooManyRequests)
              && engine.costConsumed ==
                   old(engine.costConsumed) + (if result.Ok? then charge else 0)
    ensures result.Ok? ==>
              && fresh(result.value) && result.value.engine == engine && result.value.hasHandle == hasHandle
              && result.value.state == Some(ReservationState(userKey, cfg, AtLeastOne(estimatedCost)))
  {
    hide ConfiguredCheck, ConfiguredTat, Flatten, CacheKeyFor;
    if !SupportsCost(cfg.algorithm) {
      return Err(CostNotSupported), 0;
    }
    var cost := Max(estimatedCost, 1);
    var decision;
    decision, rounds := engine.CheckMemoryGcra(userKey, cfg, cost, now, interference);
    if decision.Allowed? {
      engine.costConsumed := engine.costConsumed + cost;
      var reservation := new Reservation(engine, ReservationState(userKey, cfg, cost), hasHandle);
      return Ok(reservation), rounds;
    }
    return Err(TooManyRequests), rounds;
  }
}
