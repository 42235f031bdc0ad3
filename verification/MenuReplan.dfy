/**
 After a configuration was applied: the table is still valid, planning the same configuration
 again lists no change, and exactly when a planned configuration can be applied.
 */
module MenuReplan {
  import opened Wrappers
  import opened SyncPlanModel
  import opened MenuSpec
  import opened MenuTasks
  import opened MenuExamples
  import opened MenuSync
  import opened Text

  // ----- the table stays valid -----

  // Rows that were there before keep their place.
  lemma OldRowKeepsPlace(rows0: Table, nextId0: int, tasks: seq<Task>, st: State, id: int)
    requires ValidTable(rows0, nextId0) && Inv(rows0, nextId0, tasks, st) && id in rows0
    ensures id in st.rows && SamePlace(st.rows[id], rows0[id]) && st.rows[id].id == id
            && st.rows[id].bit == rows0[id].bit
    ensures forall parent, task :: Matches(st.rows[id], parent, task) == Matches(rows0[id], parent, task)
  {
    hide Done, Matches, Patched;
    if id in st.ids {
      var k :| 0 <= k < |st.ids| && st.ids[k] == id;
      DonePatched(rows0, nextId0, tasks, st, k);
      PatchKeepsPlace(rows0[id], tasks[k]);
    } else {
      UntouchedIsThere(rows0, nextId0, tasks, st, id);
    }
  }

  lemma DonePatched(rows0: Table, nextId0: int, tasks: seq<Task>, st: State, k: nat)
    requires Inv(rows0, nextId0, tasks, st) && k < |st.ids| && st.ids[k] in rows0
    ensures k < |tasks| && st.ids[k] in st.rows && st.rows[st.ids[k]] == Patched(rows0[st.ids[k]], tasks[k])
    ensures Matches(rows0[st.ids[k]], ParentId(st.ids, tasks[k]), tasks[k])
  {
    hide Matches, Patched, NewRow, Clashes, Untouched;
    InvDone(rows0, nextId0, tasks, st, k);
  }

  // Rows that were not there before were created for some task.
  lemma NewRowHasTask(rows0: Table, nextId0: int, tasks: seq<Task>, st: State, id: int) returns (k: nat)
    requires Inv(rows0, nextId0, tasks, st) && id in st.rows && id !in rows0
    ensures k < |st.ids| <= |tasks| && st.ids[k] == id
    ensures var row := st.rows[id];
            row.id == id && row.parent == ParentId(st.ids, tasks[k]) && Matches(row, row.parent, tasks[k])
            && nextId0 <= id < st.nextId
    ensures forall other :: other in rows0 ==> !Matches(rows0[other], ParentId(st.ids, tasks[k]), tasks[k])
  {
    hide Matches, Patched, NewRow, Clashes, Done;
    assert id in st.ids;
    k :| 0 <= k < |st.ids| && st.ids[k] == id;
    DoneCreated(rows0, nextId0, tasks, st, k);
    var row := st.rows[id];
    NewRowFits(tasks[k], id, ParentId(st.ids, tasks[k]), Or(row.bit, 0));
  }

  lemma DoneCreated(rows0: Table, nextId0: int, tasks: seq<Task>, st: State, k: nat)
    requires Inv(rows0, nextId0, tasks, st) && k < |st.ids| && st.ids[k] !in rows0
    ensures k < |tasks| && st.ids[k] in st.rows && nextId0 <= st.ids[k] < st.nextId
    ensures st.rows[st.ids[k]] == NewRow(tasks[k], st.ids[k], ParentId(st.ids, tasks[k]), Or(st.rows[st.ids[k]].bit, 0))
    ensures forall other :: other in rows0 ==> !Matches(rows0[other], ParentId(st.ids, tasks[k]), tasks[k])
  {
    hide Matches, Patched, NewRow, Clashes, Untouched;
    InvDone(rows0, nextId0, tasks, st, k);
  }

  lemma PlaceDecidesMatch(a: Row, b: Row, parent: int, task: Task)
    requires SamePlace(a, b)
    ensures Matches(a, parent, task) == Matches(b, parent, task)
  {
  }

  // Two tasks whose rows share a place share a slot.
  lemma PlacesTell(a: Row, b: Row, p: Task, q: Task)
    requires SamePlace(a, b) && Matches(a, a.parent, p) && Matches(b, b.parent, q) && p.parent == q.parent
    ensures SameSlot(p, q)
  {
  }

  lemma SlotsTell(tasks: seq<Task>, k: nat, l: nat)
    requires ValidTasks(tasks) && k < |tasks| && l < |tasks| && SameSlot(tasks[k], tasks[l])
    ensures k == l
  {
    assert SameSlot(tasks[l], tasks[k]);
  }

  lemma PlacesStayUnique(rows0: Table, nextId0: int, tasks: seq<Task>, st: State, a: int, b: int)
    requires ValidTable(rows0, nextId0) && ValidTasks(tasks) && Inv(rows0, nextId0, tasks, st)
    requires a in st.rows && b in st.rows && SamePlace(st.rows[a], st.rows[b])
    ensures a == b
  {
    hide Inv, Matches, SamePlace, ValidTasks, SameSlot, ParentId;
    if a in rows0 { OldRowKeepsPlace(rows0, nextId0, tasks, st, a); }
    if b in rows0 { OldRowKeepsPlace(rows0, nextId0, tasks, st, b); }
    if a in rows0 && b in rows0 {
      PlaceTransfers(st.rows[a], rows0[a], st.rows[b], rows0[b]);
    } else if a !in rows0 && b !in rows0 {
      var k := NewRowHasTask(rows0, nextId0, tasks, st, a);
      var l := NewRowHasTask(rows0, nextId0, tasks, st, b);
      PlaceHasParent(st.rows[a], st.rows[b]);
      ParentsTell(rows0, nextId0, tasks, st, k, l);
      PlacesTell(st.rows[a], st.rows[b], tasks[k], tasks[l]);
      SlotsTell(tasks, k, l);
    } else if a in rows0 {
      var l := NewRowHasTask(rows0, nextId0, tasks, st, b);
      PlaceDecidesMatch(st.rows[a], st.rows[b], st.rows[b].parent, tasks[l]);
      assert false;
    } else {
      var k := NewRowHasTask(rows0, nextId0, tasks, st, a);
      PlaceDecidesMatch(st.rows[a], st.rows[b], st.rows[a].parent, tasks[k]);
      assert false;
    }
  }

  lemma PlaceHasParent(a: Row, b: Row)
    requires SamePlace(a, b)
    ensures a.parent == b.parent
  {
  }

  lemma PlaceTransfers(a: Row, a0: Row, b: Row, b0: Row)
    requires SamePlace(a, a0) && SamePlace(b, b0) && SamePlace(a, b)
    ensures SamePlace(a0, b0)
  {
  }

  lemma RowIsSound(rows0: Table, nextId0: int, tasks: seq<Task>, st: State, id: int)
    requires ValidTable(rows0, nextId0) && ValidTasks(tasks) && Inv(rows0, nextId0, tasks, st)
    requires id in st.rows
    ensures st.rows[id].id == id && id != 0 && id < st.nextId
    ensures st.rows[id].parent == 0 || st.rows[id].parent in st.rows
  {
    hide Inv, Matches, SameSlot;
    InvBounds(rows0, nextId0, tasks, st);
    if id in rows0 {
      OldRowKeepsPlace(rows0, nextId0, tasks, st, id);
      if rows0[id].parent != 0 {
        OldRowKeepsPlace(rows0, nextId0, tasks, st, rows0[id].parent);
      }
    } else {
      var k := NewRowHasTask(rows0, nextId0, tasks, st, id);
      ParentStays(tasks, st.ids, 0, k);
      if tasks[k].parent >= 0 {
        InvDone(rows0, nextId0, tasks, st, tasks[k].parent);
      }
    }
  }

  lemma TableStaysValid(rows0: Table, nextId0: int, tasks: seq<Task>, st: State)
    requires ValidTable(rows0, nextId0) && ValidTasks(tasks) && Inv(rows0, nextId0, tasks, st)
    ensures ValidTable(st.rows, st.nextId)
  {
    hide Inv, SamePlace, ValidTasks;
    InvBounds(rows0, nextId0, tasks, st);
    forall id | id in st.rows
      ensures st.rows[id].id == id && id != 0 && id < st.nextId
      ensures st.rows[id].parent == 0 || st.rows[id].parent in st.rows
    {
      RowIsSound(rows0, nextId0, tasks, st, id);
    }
    forall a, b | a in st.rows && b in st.rows && SamePlace(st.rows[a], st.rows[b])
      ensures a == b
    {
      PlacesStayUnique(rows0, nextId0, tasks, st, a, b);
    }
  }

  // ----- planning again -----

  lemma MatchOfTask(rows0: Table, nextId0: int, tasks: seq<Task>, st: State, k: nat)
    requires ValidTable(rows0, nextId0) && Inv(rows0, nextId0, tasks, st) && k < |st.ids| <= |tasks|
    ensures st.ids[k] in st.rows
    ensures Matches(st.rows[st.ids[k]], ParentId(st.ids, tasks[k]), tasks[k])
    ensures ChangedFields(st.rows[st.ids[k]], tasks[k]) == []
  {
    hide Inv, Matches, Patched, ChangedFields, NewRow;
    var id := st.ids[k];
    if id in rows0 {
      DonePatched(rows0, nextId0, tasks, st, k);
      PatchKeepsPlace(rows0[id], tasks[k]);
      PatchSettles(rows0[id], tasks[k]);
    } else {
      DoneCreated(rows0, nextId0, tasks, st, k);
      NewRowFits(tasks[k], id, ParentId(st.ids, tasks[k]), Or(st.rows[id].bit, 0));
    }
  }

  // The row of a task carries the task's own name or mark.
  lemma LabelOfTask(rows0: Table, nextId0: int, tasks: seq<Task>, st: State, k: nat)
    requires ValidTable(rows0, nextId0) && Inv(rows0, nextId0, tasks, st) && k < |st.ids| <= |tasks|
    ensures st.ids[k] in st.rows && Clashes(st.rows[st.ids[k]], tasks[k])
  {
    hide Inv;
    MatchOfTask(rows0, nextId0, tasks, st, k);
    if tasks[k].MenuTask? {
      MenuFieldsSettle(st.rows[st.ids[k]], tasks[k].node);
    }
  }

  lemma LabelsTell(row: Row, a: Task, b: Task)
    requires Clashes(row, a) && Clashes(row, b)
    ensures SameLabel(a, b)
  {
  }

  // No other row carries the name or mark of a task.
  lemma LabelsAreFree(rows0: Table, nextId0: int, tasks: seq<Task>, st: State, k: nat, id: int)
    requires ValidTable(rows0, nextId0) && ValidTasks(tasks) && Inv(rows0, nextId0, tasks, st)
             && k < |st.ids| <= |tasks|
    requires id in st.rows && Clashes(st.rows[id], tasks[k])
    ensures id == st.ids[k]
  {
    hide Inv, Clashes, SameLabel, SameSlot, Matches, Patched, NewRow;
    if id in st.ids {
      var l :| 0 <= l < |st.ids| && st.ids[l] == id;
      LabelOfTask(rows0, nextId0, tasks, st, l);
      LabelsTell(st.rows[id], tasks[k], tasks[l]);
      LabelsTell(st.rows[id], tasks[l], tasks[k]);
      assert k == l;
    } else {
      NotTouched(rows0, nextId0, tasks, st, id);
      InvDone(rows0, nextId0, tasks, st, k);
    }
  }

  lemma NotTouched(rows0: Table, nextId0: int, tasks: seq<Task>, st: State, id: int)
    requires Inv(rows0, nextId0, tasks, st) && id in st.rows && id !in st.ids
    ensures id in rows0 && st.rows[id] == rows0[id]
  {
    hide Done;
  }

  function AllKnown(ids: seq<int>): Known { seq(|ids|, i requires 0 <= i < |ids| => Some(ids[i])) }

  lemma RowIsRead(existing: seq<Row>, rows: Table, id: int)
    requires Snapshot(existing, rows) && id in rows
    ensures rows[id] in existing
  {
  }

  lemma ReplanTask(rows0: Table, nextId0: int, tasks: seq<Task>, st: State, again: seq<Row>, n: nat)
    requires ValidTable(rows0, nextId0) && ValidTasks(tasks) && Inv(rows0, nextId0, tasks, st)
    requires |st.ids| == |tasks| && n < |tasks| && Snapshot(again, st.rows)
    ensures var known := AllKnown(st.ids[..n]);
            && PlannedRow(again, known, tasks[n]).Some?
            && IdOf(PlannedRow(again, known, tasks[n])) == Some(st.ids[n])
            && !PlanRefuses(again, known, tasks[n])
            && Change(PlannedRow(again, known, tasks[n]), tasks[n]).action == Noop
  {
    hide Inv, Clashes, ChangedFields, SameSlot, SameLabel, MENU_FIELDS, BUTTON_FIELDS;
    var task := tasks[n];
    var known := AllKnown(st.ids[..n]);
    ParentStays(tasks, st.ids, 0, n);
    if task.parent >= 0 {
      assert known[task.parent] == Some(st.ids[task.parent]);
    }
    assert ParentOf(known, task) == Some(ParentId(st.ids, task));
    MatchOfTask(rows0, nextId0, tasks, st, n);
    var own := st.rows[st.ids[n]];
    RowIsRead(again, st.rows, st.ids[n]);
    var found := Find(again, ParentId(st.ids, task), task);
    assert found.Some?;
    TableStaysValid(rows0, nextId0, tasks, st);
    assert SamePlace(found.value, own);
    assert found.value == own;
    forall row | row in again && Clashes(row, task)
      ensures Some(row.id) == IdOf(found)
    {
      LabelsAreFree(rows0, nextId0, tasks, st, n, row.id);
    }
  }

  lemma {:induction false} ReplanRest(rows0: Table, nextId0: int, tasks: seq<Task>, st: State, again: seq<Row>, n: nat)
    requires ValidTable(rows0, nextId0) && ValidTasks(tasks) && Inv(rows0, nextId0, tasks, st)
    requires |st.ids| == |tasks| && n <= |tasks| && Snapshot(again, st.rows)
    ensures var plan := PlanTasks(again, tasks[n..], AllKnown(st.ids[..n]));
            plan.Ok? && |plan.value| == |tasks| - n && forall change :: change in plan.value ==> change.action == Noop
    decreases |tasks| - n
  {
    hide Inv, PlanRefuses, PlannedRow, Change, ValidTable, ValidTasks, Snapshot, AllKnown;
    if n < |tasks| {
      ReplanTask(rows0, nextId0, tasks, st, again, n);
      assert tasks[n..][0] == tasks[n] && tasks[n..][1..] == tasks[n + 1..];
      assert AllKnown(st.ids[..n + 1]) == AllKnown(st.ids[..n]) + [Some(st.ids[n])] by { KnownStep(st.ids, n); }
      ReplanRest(rows0, nextId0, tasks, st, again, n + 1);
    }
  }

  lemma KnownStep(ids: seq<int>, n: nat)
    requires n < |ids|
    ensures AllKnown(ids[..n + 1]) == AllKnown(ids[..n]) + [Some(ids[n])]
  {
  }

  // Once applied, a configuration plans to nothing but Noop, in whatever order the rows are read,
  // and the table is valid again.
  lemma ReplanChangesNothing(
      rows0: Table, nextId0: int, nextBit: int, existing: seq<Row>, nodes: seq<MenuNode>, again: seq<Row>)
    requires ValidTable(rows0, nextId0) && Snapshot(existing, rows0) && ValidSpec(nodes)
    requires ApplyTasks(existing, Flatten(nodes, -1, "", 0), Start(rows0, nextId0, nextBit)).Ok?
    requires Snapshot(again, ApplyTasks(existing, Flatten(nodes, -1, "", 0), Start(rows0, nextId0, nextBit)).value.rows)
    ensures var end := ApplyTasks(existing, Flatten(nodes, -1, "", 0), Start(rows0, nextId0, nextBit)).value;
            ValidTable(end.rows, end.nextId)
    ensures var plan := PlanTasks(again, Flatten(nodes, -1, "", 0), []);
            && plan.Ok? && |plan.value| == |Flatten(nodes, -1, "", 0)|
            && CountOf(plan.value, Noop) == |plan.value|
  {
    hide ValidTable, Snapshot, ValidSpec, Flatten, ValidTasks, Inv, ApplyTask;
    var tasks := Flatten(nodes, -1, "", 0);
    var st := Start(rows0, nextId0, nextBit);
    ValidSpecGivesValidTasks(nodes);
    StartInv(rows0, nextId0, nextBit, tasks);
    assert tasks[0..] == tasks && AllKnown([]) == [];
    RunKeepsInv(rows0, nextId0, existing, tasks, st);
    var end := ApplyTasks(existing, tasks, st).value;
    assert end.ids[..0] == [];
    TableStaysValid(rows0, nextId0, tasks, end);
    ReplanRest(rows0, nextId0, tasks, end, again, 0);
  }

  // ----- when a planned configuration can be applied -----

  // A task below a menu that is to be created may ask for a name or mark that is taken: planning does
  // not look there, applying does.
  predicate TakenBelowNew(existing: seq<Row>, tasks: seq<Task>, known: Known) {
    tasks != [] &&
    ((ParentOf(known, tasks[0]).None? && !Available(existing, None, tasks[0]))
     || TakenBelowNew(existing, tasks[1..], known + [IdOf(PlannedRow(existing, known, tasks[0]))]))
  }

  lemma TaskAppliesIff(rows0: Table, nextId0: int, existing: seq<Row>, tasks: seq<Task>, st: State)
    requires ValidTable(rows0, nextId0) && Snapshot(existing, rows0) && ValidTasks(tasks)
             && Inv(rows0, nextId0, tasks, st)
    requires |st.ids| < |tasks|
    ensures var task := tasks[|st.ids|];
            var known := KnownOf(rows0, st.ids);
            ApplyTask(existing, task, st).Ok? <==>
            !PlanRefuses(existing, known, task) && !(ParentOf(known, task).None? && !Available(existing, None, task))
  {
    hide Inv, ValidTable, Snapshot, ValidTasks, Available, Find, ParentId, KnownOf;
    SameRowPlanned(rows0, nextId0, existing, tasks, st);
  }

  lemma {:induction false} RunAppliesIff(rows0: Table, nextId0: int, existing: seq<Row>, tasks: seq<Task>, st: State)
    requires ValidTable(rows0, nextId0) && Snapshot(existing, rows0) && ValidTasks(tasks)
             && Inv(rows0, nextId0, tasks, st)
    ensures var known := KnownOf(rows0, st.ids);
            ApplyTasks(existing, tasks[|st.ids|..], st).Ok? <==>
            PlanTasks(existing, tasks[|st.ids|..], known).Ok? && !TakenBelowNew(existing, tasks[|st.ids|..], known)
    decreases |tasks| - |st.ids|
  {
    hide Inv, ValidTable, Snapshot, ValidTasks, Available, PlannedRow, ApplyTask, PlanRefuses, KnownOf, ParentOf,
        Change;
    InvBounds(rows0, nextId0, tasks, st);
    var n := |st.ids|;
    if n < |tasks| {
      assert tasks[n..][0] == tasks[n] && tasks[n..][1..] == tasks[n + 1..];
      TaskAppliesIff(rows0, nextId0, existing, tasks, st);
      if ApplyTask(existing, tasks[n], st).Ok? {
        TaskKeepsInv(rows0, nextId0, existing, tasks, st);
        TaskMeetsPlan(rows0, nextId0, existing, tasks, st);
        RunAppliesIff(rows0, nextId0, existing, tasks, ApplyTask(existing, tasks[n], st).value);
      }
    }
  }

  // A valid configuration applies exactly when its plan succeeds and no task below a menu to be
  // created asks for a name or mark that an existing row carries.
  lemma AppliesIff(rows0: Table, nextId0: int, nextBit: int, existing: seq<Row>, nodes: seq<MenuNode>)
    requires ValidTable(rows0, nextId0) && Snapshot(existing, rows0) && ValidSpec(nodes)
    ensures var tasks := Flatten(nodes, -1, "", 0);
            ApplyTasks(existing, tasks, Start(rows0, nextId0, nextBit)).Ok? <==>
            PlanTasks(existing, tasks, []).Ok? && !TakenBelowNew(existing, tasks, [])
  {
    hide ValidTable, Snapshot, ValidSpec, Flatten, ValidTasks, Inv, ApplyTask, TakenBelowNew, PlanTasks, ApplyTasks;
    var tasks := Flatten(nodes, -1, "", 0);
    ValidSpecGivesValidTasks(nodes);
    StartInv(rows0, nextId0, nextBit, tasks);
    assert tasks[0..] == tasks && KnownOf(rows0, []) == [];
    RunAppliesIff(rows0, nextId0, existing, tasks, Start(rows0, nextId0, nextBit));
  }

  // Such a configuration: below a new menu, a menu named like an existing one.
  lemma PlanMayPromiseTooMuch()
    ensures exists rows, existing, nodes ::
              && ValidTable(rows, 2) && Snapshot(existing, rows) && ValidSpec(nodes)
              && PlanTasks(existing, Flatten(nodes, -1, "", 0), []).Ok?
              && ApplyTasks(existing, Flatten(nodes, -1, "", 0), Start(rows, 2, 0)).Err?
  {
    var row := Row(1, 0, Menu, "a", "x", "t", PLAIN_LOOK, "", "", None, 0, true);
    var rows := map[1 := row];
    var inner := PlainNode("x", "c", []);
    var outer := PlainNode("y", "b", [inner]);
    var nodes := [outer];
    var first, second := MenuTask("b", -1, outer), MenuTask("b/c", 0, inner);
    assert Flatten(nodes, -1, "", 0) == [first, second] by { TwoTasks(inner, outer); }
    assert ValidSpec(nodes) by { TwoTasksAreValid(inner, outer); }
    assert Snapshot([row], rows) && ValidTable(rows, 2);
    PlanOverlooks(row, first, second);
    ApplyNotices(row, rows, first, second);
  }

  lemma PlanOverlooks(row: Row, first: Task, second: Task)
    requires first.parent == -1 && second.parent == 0 && first.MenuTask? && second.MenuTask?
    requires row.parent == 0 && row.path != first.node.path && row.name != first.node.name
    ensures PlanTasks([row], [first, second], []).Ok?
  {
    hide Change;
    assert PlannedRow([row], [], first) == None;
    assert !PlanRefuses([row], [], first);
    assert !PlanRefuses([row], [None], second);
    assert [first, second][1..] == [second] && [second][1..] == [];
    assert PlanTasks([row], [], [None] + [IdOf(PlannedRow([row], [None], second))]).Ok?;
    assert PlanTasks([row], [second], [] + [None]).Ok?;
  }

  lemma ApplyNotices(row: Row, rows: Table, first: Task, second: Task)
    requires first.parent == -1 && second.parent == 0 && first.MenuTask? && second.MenuTask?
    requires row.parent == 0 && row.kind == Menu && row.path != first.node.path && row.name != first.node.name
    requires row.name == second.node.name
    ensures ApplyTasks([row], [first, second], Start(rows, 2, 0)).Err?
  {
    hide NewRow;
    var start := Start(rows, 2, 0);
    assert Find([row], 0, first).None?;
    var next := ApplyTask([row], first, start).value;
    assert ParentId(next.ids, second) == 2 && Find([row], 2, second).None?;
    assert row in [row] && Clashes(row, second);
    assert ApplyTask([row], second, next).Err?;
    assert [first, second][1..] == [second];
  }

  lemma TwoTasks(inner: MenuNode, outer: MenuNode)
    requires inner == PlainNode("x", "c", []) && outer == PlainNode("y", "b", [inner])
    ensures Flatten([outer], -1, "", 0) == [MenuTask("b", -1, outer), MenuTask("b/c", 0, inner)]
  {
    hide IsBlank;
    PlainTextIsNotBlank();
    assert MenuKey("", "b", "y") == "b" && MenuKey("b", "c", "x") == "b/c";
    assert Flatten([], 0, "b", 2) == [] && Flatten([], -1, "", 2) == [] && Flatten([], 1, "b/c", 2) == [];
    assert NodeTasks(inner, 0, "b/c", 1) == [MenuTask("b/c", 0, inner)];
    assert Flatten([inner], 0, "b", 1) == [MenuTask("b/c", 0, inner)];
    assert NodeTasks(outer, -1, "b", 0) == [MenuTask("b", -1, outer), MenuTask("b/c", 0, inner)];
  }

  lemma TwoTasksAreValid(inner: MenuNode, outer: MenuNode)
    requires inner == PlainNode("x", "c", []) && outer == PlainNode("y", "b", [inner])
    ensures ValidSpec([outer])
  {
    hide Flatten, IsBlank;
    TwoTasks(inner, outer);
    PlainTextIsNotBlank();
    assert SiblingsDistinct([]) && SiblingsDistinct([inner]);
    assert Clean([], {"y", "x"}, {});
    assert {"y"} + {"x"} == {"y", "x"} && {} + {"y"} == {"y"};
    assert [MenuTask("b/c", 0, inner)][1..] == [];
    assert [MenuTask("b", -1, outer), MenuTask("b/c", 0, inner)][1..] == [MenuTask("b/c", 0, inner)];
    assert Clean([MenuTask("b/c", 0, inner)], {"y"}, {});
    assert Clean([MenuTask("b", -1, outer), MenuTask("b/c", 0, inner)], {}, {});
  }
}
