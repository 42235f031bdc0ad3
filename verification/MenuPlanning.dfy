/**
 Planning a menu configuration (crates/summer-domain/src/menu.rs:530-615): the recursive
 planners push one change per task onto the list of changes.
 */
module MenuPlanning {
  import opened Wrappers
  import opened SyncPlanModel
  import opened MenuSpec
  import opened MenuValidation

  type Plan = Result<seq<SyncChange>, MenuError>

  // What planning knows about rows after a list of tasks.
  function KnownAfter(existing: seq<Row>, tasks: seq<Task>, known: Known): (after: Known)
    ensures |after| == |known| + |tasks| && known <= after
  {
    if tasks == [] then known
    else KnownAfter(existing, tasks[1..], known + [IdOf(PlannedRow(existing, known, tasks[0]))])
  }

  function Continue(changes: seq<SyncChange>, rest: Plan): Plan {
    if rest.Err? then rest else Ok(changes + rest.value)
  }

  lemma ContinueTwice(a: seq<SyncChange>, b: seq<SyncChange>, rest: Plan)
    ensures Continue(a, Continue(b, rest)) == Continue(a + b, rest)
    ensures Continue([], rest) == rest
    ensures Continue(a, Ok([])) == Ok(a)
  {
    if rest.Ok? {
      assert a + (b + rest.value) == a + b + rest.value;
      assert [] + rest.value == rest.value;
    }
    assert a + [] == a;
  }

  lemma {:induction false} PlanAppend(existing: seq<Row>, a: seq<Task>, b: seq<Task>, known: Known)
    ensures PlanTasks(existing, a + b, known) ==
            var first := PlanTasks(existing, a, known);
            if first.Err? then first else Continue(first.value, PlanTasks(existing, b, KnownAfter(existing, a, known)))
    ensures KnownAfter(existing, a + b, known) == KnownAfter(existing, b, KnownAfter(existing, a, known))
    decreases |a|
  {
    hide PlanRefuses, PlannedRow, Change;
    if a == [] {
      assert a + b == b;
      ContinueTwice([], [], PlanTasks(existing, b, known));
    } else {
      assert (a + b)[1..] == a[1..] + b;
      var row := PlannedRow(existing, known, a[0]);
      PlanAppend(existing, a[1..], b, known + [IdOf(row)]);
      var others := PlanTasks(existing, a[1..], known + [IdOf(row)]);
      if others.Ok? {
        ContinueTwice([Change(row, a[0])], others.value, PlanTasks(existing, b, KnownAfter(existing, a, known)));
      }
    }
  }

  // One task at position i of a list.
  lemma PlanOne(existing: seq<Row>, tasks: seq<Task>, i: nat, known: Known)
    requires i < |tasks|
    ensures PlanTasks(existing, tasks[i..], known) ==
            if PlanRefuses(existing, known, tasks[i]) then Err(TakenError(tasks[i]))
            else
              var row := PlannedRow(existing, known, tasks[i]);
              Continue([Change(row, tasks[i])], PlanTasks(existing, tasks[i + 1..], known + [IdOf(row)]))
    ensures KnownAfter(existing, tasks[i..], known) ==
            KnownAfter(existing, tasks[i + 1..], known + [IdOf(PlannedRow(existing, known, tasks[i]))])
  {
    hide PlanRefuses, PlannedRow, Change;
    assert tasks[i..][0] == tasks[i] && tasks[i..][1..] == tasks[i + 1..];
  }

  lemma PlanNothing(existing: seq<Row>, known: Known)
    ensures PlanTasks(existing, [], known) == Ok([]) && KnownAfter(existing, [], known) == known
  {
  }

  // The tasks of a node: itself, its buttons, its children.
  lemma PlanNode(existing: seq<Row>, node: MenuNode, parent: int, key: string, known: Known)
    ensures var n: nat := |known|;
            var task := MenuTask(key, parent, node);
            var row := PlannedRow(existing, known, task);
            var known1 := known + [IdOf(row)];
            var buttons := ButtonTasks(node.buttons, key, n);
            var known2 := KnownAfter(existing, buttons, known1);
            var below := Flatten(node.children, n, key, n + 1 + |node.buttons|);
            && KnownAfter(existing, NodeTasks(node, parent, key, n), known) == KnownAfter(existing, below, known2)
            && PlanTasks(existing, NodeTasks(node, parent, key, n), known) ==
               if PlanRefuses(existing, known, task) then Err(TakenError(task))
               else
                 var onButtons := PlanTasks(existing, buttons, known1);
                 if onButtons.Err? then onButtons
                 else Continue([Change(row, task)] + onButtons.value, PlanTasks(existing, below, known2))
  {
    hide PlanRefuses, PlannedRow, Change, Flatten, ButtonTasks, PlanTasks, KnownAfter;
    var n: nat := |known|;
    var task := MenuTask(key, parent, node);
    var buttons := ButtonTasks(node.buttons, key, n);
    var below := Flatten(node.children, n, key, n + 1 + |node.buttons|);
    var row := PlannedRow(existing, known, task);
    var known1 := known + [IdOf(row)];
    PlanAppend(existing, [task] + buttons, below, known);
    PlanAppend(existing, [task], buttons, known);
    PlanOne(existing, [task], 0, known);
    assert [task][0..] == [task] && [task][1..] == [];
    PlanNothing(existing, known1);
    ContinueTwice([Change(row, task)], [], Ok([]));
  }

  // ----- the planners -----

  method PlanButtonSpecs(
      existing: seq<Row>, parentId: int, parentKey: string, buttons: seq<MenuButton>, changes: seq<SyncChange>,
                         ghost parent: nat, ghost known: Known)
    returns (result: Plan)
    requires parent < |known| && known[parent] == Some(parentId)
    ensures result == Continue(changes, PlanTasks(existing, ButtonTasks(buttons, parentKey, parent), known))
  {
    hide PlanTasks, KnownAfter, Available, Find, Change;
    ghost var tasks := ButtonTasks(buttons, parentKey, parent);
    ghost var now := known;
    var pushed := changes;
    assert tasks[0..] == tasks;
    for i := 0 to |buttons|
      invariant known <= now
      invariant Continue(changes, PlanTasks(existing, tasks, known))
                == Continue(pushed, PlanTasks(existing, tasks[i..], now))
    {
      var button := buttons[i];
      var task := ButtonTask(parentKey + "#" + button.authMark, 0, button);
      assert tasks[i] == ButtonTask(task.key, parent, button);
      PlanOne(existing, tasks, i, now);
      SameLookUp(existing, parentId, tasks[i], task);
      var found := Find(existing, parentId, task);
      assert PlannedRow(existing, now, tasks[i]) == found;
      if !Available(existing, IdOf(found), task) {
        return Err(MarkTaken(button.authMark));
      }
      now := now + [IdOf(found)];
      ContinueTwice(pushed, [Change(found, task)], PlanTasks(existing, tasks[i + 1..], now));
      pushed := pushed + [Change(found, task)];
    }
    assert tasks[|buttons|..] == [];
    PlanNothing(existing, now);
    ContinueTwice(pushed, [], Ok([]));
    return Ok(pushed);
  }

  method PlanAllCreateForButtons(parentKey: string, buttons: seq<MenuButton>, changes: seq<SyncChange>,
                                 ghost existing: seq<Row>, ghost parent: nat, ghost known: Known)
    returns (pushed: seq<SyncChange>)
    requires parent < |known| && known[parent].None?
    ensures Ok(pushed) == Continue(changes, PlanTasks(existing, ButtonTasks(buttons, parentKey, parent), known))
  {
    hide PlanTasks, KnownAfter, Available, Find, Change;
    ghost var tasks := ButtonTasks(buttons, parentKey, parent);
    ghost var now := known;
    pushed := changes;
    assert tasks[0..] == tasks;
    for i := 0 to |buttons|
      invariant known <= now
      invariant Continue(changes, PlanTasks(existing, tasks, known))
                == Continue(pushed, PlanTasks(existing, tasks[i..], now))
    {
      var button := buttons[i];
      var task := ButtonTask(parentKey + "#" + button.authMark, 0, button);
      assert tasks[i] == ButtonTask(task.key, parent, button);
      PlanOne(existing, tasks, i, now);
      assert PlannedRow(existing, now, tasks[i]) == None;
      SameChange(task, tasks[i]);
      now := now + [None];
      ContinueTwice(pushed, [Change(None, task)], PlanTasks(existing, tasks[i + 1..], now));
      pushed := pushed + [Change(None, task)];
    }
    assert tasks[|buttons|..] == [];
    PlanNothing(existing, now);
    ContinueTwice(pushed, [], Ok([]));
  }

  // Equal but for the position of the parent.
  predicate SameAim(a: Task, b: Task) {
    || (a.MenuTask? && b.MenuTask? && a.key == b.key && a.node == b.node)
    || (a.ButtonTask? && b.ButtonTask? && a.key == b.key && a.button == b.button)
  }

  // The position of the parent does not show in a change.
  lemma SameChange(task: Task, other: Task)
    requires SameAim(task, other)
    ensures Change(None, task) == Change(None, other)
  {
  }

  method PlanAllCreateForNodes(parentKey: string, nodes: seq<MenuNode>, changes: seq<SyncChange>,
                               ghost existing: seq<Row>, ghost parent: nat, ghost known: Known)
    returns (pushed: seq<SyncChange>)
    requires parent < |known| && known[parent].None?
    ensures Ok(pushed) == Continue(changes, PlanTasks(existing, Flatten(nodes, parent, parentKey, |known|), known))
    decreases nodes
  {
    hide PlanTasks, KnownAfter, Available, Find, Change, Flatten, NodeTasks, MenuKey, ButtonTasks;
    ghost var all := Flatten(nodes, parent, parentKey, |known|);
    ghost var now := known;
    pushed := changes;
    assert nodes[0..] == nodes;
    var i := 0;
    while i < |nodes|
      invariant 0 <= i <= |nodes| && known <= now
      invariant Continue(changes, PlanTasks(existing, all, known)) ==
                Continue(pushed, PlanTasks(existing, Flatten(nodes[i..], parent, parentKey, |now|), now))
    {
      var node := nodes[i];
      var key := MenuKey(parentKey, node.path, node.name);
      var task := MenuTask(key, 0, node);
      ghost var n: nat := |now|;
      ghost var own := NodeTasks(node, parent, key, n);
      ghost var rest := Flatten(nodes[i + 1..], parent, parentKey, n + |own|);
      FlattenFirst(nodes, i, parent, parentKey, n);
      PlanAppend(existing, own, rest, now);
      PlanNode(existing, node, parent, key, now);
      SameChange(task, MenuTask(key, parent, node));
      ghost var known1 := now + [None];
      assert PlannedRow(existing, now, MenuTask(key, parent, node)) == None;
      ghost var buttons := ButtonTasks(node.buttons, key, n);
      ghost var known2 := KnownAfter(existing, buttons, known1);
      ghost var below := Flatten(node.children, n, key, |known2|);
      ghost var onButtons, onBelow := PlanTasks(existing, buttons, known1), PlanTasks(existing, below, known2);
      ghost var before := pushed;
      pushed := pushed + [Change(None, task)];
      pushed := PlanAllCreateForButtons(key, node.buttons, pushed, existing, n, known1);
      pushed := PlanAllCreateForNodes(key, node.children, pushed, existing, n, known2);
      JoinNode(before, Change(None, task), onButtons.value, onBelow.value,
          PlanTasks(existing, rest, KnownAfter(existing, own, now)));
      now := KnownAfter(existing, own, now);
      i := i + 1;
    }
    assert nodes[i..] == [];
    FlattenNothing(parent, parentKey, |now|);
    PlanNothing(existing, now);
    ContinueTwice(pushed, [], Ok([]));
  }

  // The pieces of a node's changes pushed one after the other.
  lemma JoinNode(
      before: seq<SyncChange>, change: SyncChange, buttons: seq<SyncChange>, below: seq<SyncChange>, rest: Plan)
    ensures Continue(before + [change] + buttons + below, rest) ==
            Continue(before, Continue([change] + buttons + below, rest))
  {
    if rest.Ok? {
      assert before + [change] + buttons + below + rest.value == before + ([change] + buttons + below + rest.value);
    }
  }

  method PlanMenuNodes(
      existing: seq<Row>, parentId: int, parentKey: string, nodes: seq<MenuNode>, changes: seq<SyncChange>,
                       ghost parent: int, ghost known: Known)
    returns (result: Plan)
    requires parent < |known| && Some(parentId) == if parent >= 0 then known[parent] else Some(0)
    ensures result == Continue(changes, PlanTasks(existing, Flatten(nodes, parent, parentKey, |known|), known))
    decreases nodes
  {
    hide PlanTasks, KnownAfter, Available, Find, Change, Flatten, NodeTasks, MenuKey, ButtonTasks;
    ghost var all := Flatten(nodes, parent, parentKey, |known|);
    ghost var now := known;
    var pushed := changes;
    assert nodes[0..] == nodes;
    var i := 0;
    while i < |nodes|
      invariant 0 <= i <= |nodes| && known <= now
      invariant Continue(changes, PlanTasks(existing, all, known)) ==
                Continue(pushed, PlanTasks(existing, Flatten(nodes[i..], parent, parentKey, |now|), now))
    {
      var node := nodes[i];
      var key := MenuKey(parentKey, node.path, node.name);
      ghost var task := MenuTask(key, parent, node);
      ghost var n: nat := |now|;
      ghost var own := NodeTasks(node, parent, key, n);
      ghost var rest := Flatten(nodes[i + 1..], parent, parentKey, n + |own|);
      FlattenFirst(nodes, i, parent, parentKey, n);
      PlanAppend(existing, own, rest, now);
      PlanNode(existing, node, parent, key, now);
      SameLookUp(existing, parentId, task, MenuTask(key, 0, node));
      var found := Find(existing, parentId, MenuTask(key, 0, node));
      assert PlannedRow(existing, now, task) == found;
      if !Available(existing, IdOf(found), MenuTask(key, 0, node)) {
        return Err(NameTaken(node.name));
      }
      ghost var known1 := now + [IdOf(found)];
      ghost var buttons := ButtonTasks(node.buttons, key, n);
      ghost var known2 := KnownAfter(existing, buttons, known1);
      ghost var below := Flatten(node.children, n, key, |known2|);
      ghost var onButtons, onBelow := PlanTasks(existing, buttons, known1), PlanTasks(existing, below, known2);
      ghost var before := pushed;
      pushed := pushed + [Change(found, MenuTask(key, 0, node))];
      if found.Some? {
        var step := PlanButtonSpecs(existing, found.value.id, key, node.buttons, pushed, n, known1);
        if step.Err? {
          return step;
        }
        step := PlanMenuNodes(existing, found.value.id, key, node.children, step.value, n, known2);
        if step.Err? {
          return step;
        }
        pushed := step.value;
      } else {
        pushed := PlanAllCreateForButtons(key, node.buttons, pushed, existing, n, known1);
        pushed := PlanAllCreateForNodes(key, node.children, pushed, existing, n, known2);
      }
      JoinNode(before, Change(found, task), onButtons.value, onBelow.value,
          PlanTasks(existing, rest, KnownAfter(existing, own, now)));
      now := KnownAfter(existing, own, now);
      i := i + 1;
    }
    assert nodes[i..] == [];
    FlattenNothing(parent, parentKey, |now|);
    PlanNothing(existing, now);
    ContinueTwice(pushed, [], Ok([]));
    return Ok(pushed);
  }

  // The position of the parent does not matter for the look-up.
  lemma {:induction false} SameLookUp(existing: seq<Row>, parentId: int, a: Task, b: Task)
    requires SameAim(a, b)
    ensures Find(existing, parentId, a) == Find(existing, parentId, b)
    ensures forall current :: Available(existing, current, a) == Available(existing, current, b)
    ensures forall row :: Change(row, a) == Change(row, b)
  {
    hide MenuChangedFields, ButtonChangedFields;
    assert forall row :: Clashes(row, a) == Clashes(row, b);
    if existing != [] {
      SameLookUp(existing[1..], parentId, a, b);
    }
  }
}
