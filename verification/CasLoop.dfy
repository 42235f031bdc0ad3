/**
 Threads sharing one atomic i64 cell, each running either the limiter's retry
 loop (load; compute; return at once or compare-and-swap, and start over when
 the swap fails) or one atomic read-modify-write. The captured clock is part of
 the call, so it may be stale by the time the swap happens.

 Steps of different threads interleave in any order. Every such run is shown to
 be linearizable: its calls can be put in one order, compatible with real time,
 in which the atomic operation produces the very same results and final value.
 */
module CasLoop {
  import opened Wrappers
  import opened I64

  // What an operation does to the cell value it sees.
  datatype Effect<R> = Effect(cell: Int64, result: R, writes: bool)

  datatype Operation<!C, !R> = Operation(loops: C -> bool, run: (Int64, C) -> Effect<R>)

  datatype Pc<R> =
    | AtLoad
    | AtSwap(seen: Int64)
    | AtUpdate
    | Finished(result: R)
    | Returned(result: R)

  datatype Thread<C, R> = Thread(call: C, pc: Pc<R>)

  datatype State<C, R> = State(cell: Int64, threads: map<nat, Thread<C, R>>)

  datatype Step<C> = Invoke(id: nat, call: C) | Act(id: nat) | Return(id: nat)

  // A call that took effect: the sequential history is a sequence of these.
  datatype Done<C, R> = Done(id: nat, call: C, result: R)

  // A looping call that returns without swapping leaves the cell as it was.
  ghost predicate ReadOnlyReturns<C(!new), R>(op: Operation<C, R>) {
    forall x: Int64, c: C :: op.loops(c) && !op.run(x, c).writes ==> op.run(x, c).cell == x
  }

  // ----- one step -----

  function Entry<C, R>(op: Operation<C, R>, call: C): Pc<R> {
    if op.loops(call) then AtLoad else AtUpdate
  }

  // The thread's next atomic action; None when it has none left.
  function ActOn<C, R>(op: Operation<C, R>, cell: Int64, t: Thread<C, R>): Option<(Int64, Pc<R>)> {
    match t.pc
    case AtLoad =>
      var out := op.run(cell, t.call);
      if out.writes then Some((cell, AtSwap(cell))) else Some((cell, Finished(out.result)))
    case AtSwap(seen) =>
      var out := op.run(seen, t.call);
      if cell == seen then Some((out.cell, Finished(out.result))) else Some((cell, AtLoad))
    case AtUpdate =>
      var out := op.run(cell, t.call);
      Some((out.cell, Finished(out.result)))
    case Finished(_) => None
    case Returned(_) => None
  }

  // None when the step is not enabled.
  function Next<C, R>(op: Operation<C, R>, s: State<C, R>, step: Step<C>): Option<State<C, R>> {
    match step
    case Invoke(id, call) =>
      if id in s.threads then None
      else Some(s.(threads := s.threads[id := Thread(call, Entry(op, call))]))
    case Act(id) =>
      if id !in s.threads then None
      else
        var t := s.threads[id];
        var moved := ActOn(op, s.cell, t);
        if moved.None? then None
        else Some(State(moved.value.0, s.threads[id := t.(pc := moved.value.1)]))
    case Return(id) =>
      if id in s.threads && s.threads[id].pc.Finished? then
        var t := s.threads[id];
        Some(s.(threads := s.threads[id := t.(pc := Returned(t.pc.result))]))
      else None
  }

  function Run<C, R>(op: Operation<C, R>, cell: Int64, steps: seq<Step<C>>): Option<State<C, R>> {
    if steps == [] then Some(State(cell, map[]))
    else
      var before := Run(op, cell, steps[..|steps| - 1]);
      if before.None? then None else Next(op, before.value, steps[|steps| - 1])
  }

  // ----- the sequential history -----

  // A step takes effect when its thread passes to Finished.
  function TakesEffect<C, R>(op: Operation<C, R>, s: State<C, R>, step: Step<C>): seq<Done<C, R>> {
    if step.Act? && step.id in s.threads then
      var moved := ActOn(op, s.cell, s.threads[step.id]);
      if moved.Some? && moved.value.1.Finished?
      then [Done(step.id, s.threads[step.id].call, moved.value.1.result)]
      else []
    else []
  }

  function Linearization<C, R>(op: Operation<C, R>, cell: Int64, steps: seq<Step<C>>): seq<Done<C, R>> {
    if steps == [] then []
    else
      var prefix := steps[..|steps| - 1];
      var before := Run(op, cell, prefix);
      Linearization(op, cell, prefix)
      + (if before.None? then [] else TakesEffect(op, before.value, steps[|steps| - 1]))
  }

  // The cell after performing the calls one after another.
  function Replay<C, R>(op: Operation<C, R>, cell: Int64, history: seq<Done<C, R>>): Int64 {
    if history == [] then cell
    else op.run(Replay(op, cell, history[..|history| - 1]), history[|history| - 1].call).cell
  }

  // Every call of the history has the result the atomic operation gives at its place.
  ghost predicate Sequential<C, R>(op: Operation<C, R>, cell: Int64, history: seq<Done<C, R>>) {
    forall k :: 0 <= k < |history| ==>
      history[k].result == op.run(Replay(op, cell, history[..k]), history[k].call).result
  }

  ghost predicate DistinctCalls<C, R>(history: seq<Done<C, R>>) {
    forall i, j :: 0 <= i < j < |history| ==> history[i].id != history[j].id
  }

  ghost predicate Took<C, R>(history: seq<Done<C, R>>, id: nat) {
    exists k :: 0 <= k < |history| && history[k].id == id
  }

  ghost predicate Has<C, R>(history: seq<Done<C, R>>, done: Done<C, R>) {
    exists k :: 0 <= k < |history| && history[k] == done
  }

  // The threads that took effect, and only they, stand in the history, with
  // their own call and result.
  ghost predicate Accounts<C, R>(s: State<C, R>, history: seq<Done<C, R>>) {
    && (forall id :: id in s.threads ==>
          match s.threads[id].pc
          case Finished(r) => Has(history, Done(id, s.threads[id].call, r))
          case Returned(r) => Has(history, Done(id, s.threads[id].call, r))
          case _ => !Took(history, id))
    && (forall k :: 0 <= k < |history| ==> history[k].id in s.threads)
  }

  ghost predicate WellPlaced<C, R>(op: Operation<C, R>, s: State<C, R>) {
    forall id :: id in s.threads ==>
      match s.threads[id].pc
      case AtLoad => op.loops(s.threads[id].call)
      case AtSwap(seen) => op.loops(s.threads[id].call) && op.run(seen, s.threads[id].call).writes
      case AtUpdate => !op.loops(s.threads[id].call)
      case _ => true
  }

  ghost predicate Explains<C, R>(op: Operation<C, R>, cell: Int64, s: State<C, R>, history: seq<Done<C, R>>) {
    && s.cell == Replay(op, cell, history)
    && Sequential(op, cell, history)
    && DistinctCalls(history)
    && Accounts(s, history)
    && WellPlaced(op, s)
  }

  // ----- linearizability -----

  lemma ReplayAppend<C, R>(op: Operation<C, R>, cell: Int64, history: seq<Done<C, R>>, done: Done<C, R>)
    ensures Replay(op, cell, history + [done]) == op.run(Replay(op, cell, history), done.call).cell
  {
    assert (history + [done])[..|history|] == history;
  }

  lemma HasAppend<C, R>(history: seq<Done<C, R>>, done: Done<C, R>)
    ensures Has(history + [done], done)
    ensures forall d :: Has(history, d) ==> Has(history + [done], d)
    ensures forall id :: Took(history + [done], id) <==> Took(history, id) || id == done.id
  {
    var h := history + [done];
    assert h[|history|] == done;
    forall d | Has(history, d)
      ensures Has(h, d)
    {
      var k :| 0 <= k < |history| && history[k] == d;
      assert h[k] == d;
    }
    forall id
      ensures Took(h, id) <==> Took(history, id) || id == done.id
    {
      if Took(history, id) {
        var k :| 0 <= k < |history| && history[k].id == id;
        assert h[k].id == id;
      }
      if Took(h, id) && id != done.id {
        var k :| 0 <= k < |h| && h[k].id == id;
        assert history[k].id == id;
      }
    }
  }

  // A step that takes no effect keeps the explanation.
  lemma QuietStep<C(!new), R>(
      op: Operation<C, R>, cell: Int64, s: State<C, R>, history: seq<Done<C, R>>, step: Step<C>, s': State<C, R>)
    requires ReadOnlyReturns(op) && Explains(op, cell, s, history)
    requires Next(op, s, step) == Some(s') && TakesEffect(op, s, step) == []
    ensures Explains(op, cell, s', history)
  {
    if step.Invoke? {
      assert !Took(history, step.id);
    }
  }

  lemma SequentialAppend<C, R>(op: Operation<C, R>, cell: Int64, history: seq<Done<C, R>>, done: Done<C, R>)
    requires Sequential(op, cell, history)
    requires done.result == op.run(Replay(op, cell, history), done.call).result
    ensures Sequential(op, cell, history + [done])
  {
    var h := history + [done];
    forall k | 0 <= k < |h|
      ensures h[k].result == op.run(Replay(op, cell, h[..k]), h[k].call).result
    {
      assert h[..k] == history[..k];
      if k == |history| {
        assert history[..k] == history;
      } else {
        assert h[k] == history[k];
      }
    }
  }

  lemma AccountsAppend<C, R>(s: State<C, R>, history: seq<Done<C, R>>, id: nat, result: R, s': State<C, R>)
    requires Accounts(s, history) && id in s.threads
    requires s'.threads == s.threads[id := s.threads[id].(pc := Finished(result))]
    ensures Accounts(s', history + [Done(id, s.threads[id].call, result)])
  {
    var done := Done(id, s.threads[id].call, result);
    HasAppend(history, done);
    var h := history + [done];
    forall k | 0 <= k < |h|
      ensures h[k].id in s'.threads
    {
      if k < |history| {
        assert h[k] == history[k];
      }
    }
  }

  lemma DistinctAppend<C, R>(history: seq<Done<C, R>>, done: Done<C, R>)
    requires DistinctCalls(history) && !Took(history, done.id)
    ensures DistinctCalls(history + [done])
  {
    var h := history + [done];
    forall i, j | 0 <= i < j < |h|
      ensures h[i].id != h[j].id
    {
      assert h[i] == history[i];
      if j < |history| {
        assert h[j] == history[j];
      }
    }
  }

  // A step that takes effect extends it by that call. A swap succeeds when the
  // cell again holds the loaded value, whatever happened in between, so the
  // result computed from the load is the one for the present cell.
  lemma EffectiveStep<C(!new), R>(
      op: Operation<C, R>, cell: Int64, s: State<C, R>, history: seq<Done<C, R>>, step: Step<C>, s': State<C, R>)
    requires ReadOnlyReturns(op) && Explains(op, cell, s, history)
    requires Next(op, s, step) == Some(s') && TakesEffect(op, s, step) != []
    ensures Explains(op, cell, s', history + TakesEffect(op, s, step))
  {
    var t := s.threads[step.id];
    var done := TakesEffect(op, s, step)[0];
    assert TakesEffect(op, s, step) == [done];
    var out := op.run(s.cell, t.call);
    assert done == Done(step.id, t.call, out.result) && s'.cell == out.cell;
    ReplayAppend(op, cell, history, done);
    SequentialAppend(op, cell, history, done);
    DistinctAppend(history, done);
    AccountsAppend(s, history, step.id, out.result, s');
  }

  lemma {:induction false} RunIsExplained<C(!new), R>(op: Operation<C, R>, cell: Int64, steps: seq<Step<C>>)
    requires ReadOnlyReturns(op) && Run(op, cell, steps).Some?
    ensures Explains(op, cell, Run(op, cell, steps).value, Linearization(op, cell, steps))
  {
    if steps != [] {
      var prefix, last := steps[..|steps| - 1], steps[|steps| - 1];
      RunIsExplained(op, cell, prefix);
      var s, history := Run(op, cell, prefix).value, Linearization(op, cell, prefix);
      var effect := TakesEffect(op, s, last);
      if effect == [] {
        assert history + effect == history;
        QuietStep(op, cell, s, history, last, Run(op, cell, steps).value);
      } else {
        EffectiveStep(op, cell, s, history, last, Run(op, cell, steps).value);
      }
    }
  }

  lemma {:induction false} PrefixOfRun<C, R>(op: Operation<C, R>, cell: Int64, steps: seq<Step<C>>, j: nat)
    requires j <= |steps| && Run(op, cell, steps).Some?
    ensures Run(op, cell, steps[..j]).Some?
    ensures Linearization(op, cell, steps[..j]) <= Linearization(op, cell, steps)
    decreases |steps|
  {
    if j == |steps| {
      assert steps[..j] == steps;
    } else {
      var prefix := steps[..|steps| - 1];
      PrefixOfRun(op, cell, prefix, j);
      assert prefix[..j] == steps[..j];
    }
  }

  // A call takes its place in the history after everything that took effect
  // before it was invoked.
  lemma InvokedLate<C(!new), R>(op: Operation<C, R>, cell: Int64, steps: seq<Step<C>>, j: nat, b: nat)
    requires ReadOnlyReturns(op) && Run(op, cell, steps).Some?
    requires j < |steps| && steps[j].Invoke?
    requires var l := Linearization(op, cell, steps); b < |l| && l[b].id == steps[j].id
    ensures |Linearization(op, cell, steps[..j])| <= b
  {
    var early, l := Linearization(op, cell, steps[..j]), Linearization(op, cell, steps);
    PrefixOfRun(op, cell, steps, j);
    PrefixOfRun(op, cell, steps, j + 1);
    RunIsExplained(op, cell, steps[..j]);
    assert steps[j].id !in Run(op, cell, steps[..j]).value.threads by {
      assert steps[..j + 1][..j] == steps[..j];
    }
    hide Linearization, Run;
    assert forall k :: 0 <= k < |early| ==> early[k] == l[k] && early[k].id != l[b].id;
  }

  // Whatever returned before another call was invoked also precedes it in the
  // sequential history.
  lemma RealTimeOrder<C(!new), R>(op: Operation<C, R>, cell: Int64, steps: seq<Step<C>>, i: nat, j: nat, b: nat)
    requires ReadOnlyReturns(op) && Run(op, cell, steps).Some?
    requires i < j < |steps| && steps[i].Return? && steps[j].Invoke?
    requires var l := Linearization(op, cell, steps); b < |l| && l[b].id == steps[j].id
    ensures var l := Linearization(op, cell, steps);
            exists a :: 0 <= a < b && l[a].id == steps[i].id
  {
    hide Linearization, Run, Replay;
    var early, l := Linearization(op, cell, steps[..j]), Linearization(op, cell, steps);
    InvokedLate(op, cell, steps, j, b);
    PrefixOfRun(op, cell, steps, j);
    ReturnedStays(op, cell, steps[..j], i);
    var k :| 0 <= k < |early| && early[k].id == steps[i].id;
    assert l[k] == early[k];
  }

  lemma {:induction false} ReturnedStays<C(!new), R>(op: Operation<C, R>, cell: Int64, steps: seq<Step<C>>, i: nat)
    requires ReadOnlyReturns(op) && Run(op, cell, steps).Some? && i < |steps| && steps[i].Return?
    ensures Took(Linearization(op, cell, steps), steps[i].id)
  {
    var prefix := steps[..i + 1];
    PrefixOfRun(op, cell, steps, i + 1);
    assert prefix[..|prefix| - 1] == steps[..i];
    RunIsExplained(op, cell, prefix);
    var early, l := Linearization(op, cell, prefix), Linearization(op, cell, steps);
    var s := Run(op, cell, prefix).value;
    var t := s.threads[steps[i].id];
    assert Has(early, Done(steps[i].id, t.call, t.pc.result));
    var k :| 0 <= k < |early| && early[k] == Done(steps[i].id, t.call, t.pc.result);
    assert l[k].id == steps[i].id;
  }

  // The main statement: same results, same final cell, each call once, and an
  // order that respects real time.
  lemma EveryRunIsLinearizable<C(!new), R>(op: Operation<C, R>, cell: Int64, steps: seq<Step<C>>)
    requires ReadOnlyReturns(op) && Run(op, cell, steps).Some?
    ensures var s, l := Run(op, cell, steps).value, Linearization(op, cell, steps);
            && s.cell == Replay(op, cell, l)
            && Sequential(op, cell, l)
            && DistinctCalls(l)
            && Accounts(s, l)
    ensures forall i, j, b {:trigger steps[i], steps[j], Linearization(op, cell, steps)[b]} ::
              && 0 <= i < j < |steps| && steps[i].Return? && steps[j].Invoke?
              && 0 <= b < |Linearization(op, cell, steps)|
              && Linearization(op, cell, steps)[b].id == steps[j].id
              ==> exists a :: 0 <= a < b && Linearization(op, cell, steps)[a].id == steps[i].id
  {
    RunIsExplained(op, cell, steps);
    var l := Linearization(op, cell, steps);
    forall i, j, b {:trigger steps[i], steps[j], l[b]} |
      && 0 <= i < j < |steps| && steps[i].Return? && steps[j].Invoke?
      && 0 <= b < |l| && l[b].id == steps[j].id
      ensures exists a :: 0 <= a < b && l[a].id == steps[i].id
    {
      RealTimeOrder(op, cell, steps, i, j, b);
    }
  }
}
