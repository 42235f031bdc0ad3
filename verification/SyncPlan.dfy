/**
 The summary of a synchronisation plan (crates/summer-domain/src/sync.rs).
 */
module SyncPlanModel {
  datatype SyncAction = Create | Update | Noop

  datatype SyncChange = SyncChange(target: string, key: string, action: SyncAction, fields: seq<string>)

  datatype SyncSummary = SyncSummary(createCount: nat, updateCount: nat, noopCount: nat)

  datatype SyncPlan = SyncPlan(summary: SyncSummary, changes: seq<SyncChange>)

  function CountOf(changes: seq<SyncChange>, action: SyncAction): (n: nat)
    ensures n <= |changes|
    ensures n == |changes| <==> forall change :: change in changes ==> change.action == action
  {
    if changes == [] then 0
    else
      assert changes == [changes[0]] + changes[1..];
      (if changes[0].action == action then 1 else 0) + CountOf(changes[1..], action)
  }

  lemma {:induction false} CountAppend(changes: seq<SyncChange>, more: seq<SyncChange>, action: SyncAction)
    ensures CountOf(changes + more, action) == CountOf(changes, action) + CountOf(more, action)
  {
    if changes == [] {
      assert changes + more == more;
    } else {
      assert (changes + more)[1..] == changes[1..] + more;
      CountAppend(changes[1..], more, action);
    }
  }

  lemma {:induction false} CountsAddUp(changes: seq<SyncChange>)
    ensures CountOf(changes, Create) + CountOf(changes, Update) + CountOf(changes, Noop) == |changes|
  {
    if changes != [] {
      CountsAddUp(changes[1..]);
    }
  }

  lemma NothingCounted()
    ensures forall action :: CountOf([], action) == 0
  {
  }

  lemma CountStep(changes: seq<SyncChange>, i: nat, action: SyncAction)
    requires i < |changes|
    ensures CountOf(changes[..i + 1], action) ==
            CountOf(changes[..i], action) + if changes[i].action == action then 1 else 0
  {
    assert changes[..i + 1] == changes[..i] + [changes[i]];
    CountAppend(changes[..i], [changes[i]], action);
  }

  method NewPlan(changes: seq<SyncChange>) returns (plan: SyncPlan)
    ensures plan.changes == changes
    ensures plan.summary ==
            SyncSummary(CountOf(changes, Create), CountOf(changes, Update), CountOf(changes, Noop))
    ensures plan.summary.createCount + plan.summary.updateCount + plan.summary.noopCount == |changes|
  {
    hide CountOf;
    var created, updated, left := 0, 0, 0;
    assert changes[..0] == [];
    NothingCounted();
    for i := 0 to |changes|
      invariant created == CountOf(changes[..i], Create)
      invariant updated == CountOf(changes[..i], Update)
      invariant left == CountOf(changes[..i], Noop)
    {
      CountStep(changes, i, Create);
      CountStep(changes, i, Update);
      CountStep(changes, i, Noop);
      match changes[i].action
      case Create => created := created + 1;
      case Update => updated := updated + 1;
      case Noop => left := left + 1;
    }
    assert changes[..|changes|] == changes;
    CountsAddUp(changes);
    plan := SyncPlan(SyncSummary(created, updated, left), changes);
  }
}
