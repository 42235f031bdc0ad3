/**
 Applying a menu configuration does what its plan lists, touches nothing else, and leaves a
 table on which planning the same configuration again changes nothing.
 */
module MenuSync {
  import opened Wrappers
  import opened SyncPlanModel
  import opened MenuSpec
  import opened MenuTasks

  type Table = map<int, Row>

  predicate SamePlace(a: Row, b: Row) {
    && a.parent == b.parent && a.kind == b.kind
    && (if a.kind == Menu then a.path == b.path else a.authMark == b.authMark)
  }

  // Ids are the rows' own, below the next id and not 0; parents exist; places are unique.
  ghost predicate ValidTable(rows: Table, nextId: int) {
    && nextId > 0
    && (forall id :: id in rows ==> rows[id].id == id && id != 0 && id < nextId)
    && (forall id :: id in rows ==> rows[id].parent == 0 || rows[id].parent in rows)
    && (forall a, b :: a in rows && b in rows && SamePlace(rows[a], rows[b]) ==> a == b)
  }

  // A reading of the table, in any order.
  ghost predicate Snapshot(existing: seq<Row>, rows: Table) {
    && (forall row :: row in existing ==> row.id in rows && rows[row.id] == row)
    && (forall id :: id in rows ==> rows[id] in existing)
  }

  function Start(rows: Table, nextId: int, nextBit: int): State { State(rows, nextId, nextBit, [], false) }

  // What became of one task.
  ghost predicate Done(rows0: Table, nextId0: int, task: Task, ids: seq<int>, id: int, rows: Table) {
    && id in rows
    && (id in rows0 ==> Matches(rows0[id], ParentId(ids, task), task) && rows[id] == Patched(rows0[id], task))
    && (id !in rows0 ==>
          && id >= nextId0
          && rows[id] == NewRow(task, id, ParentId(ids, task), Or(rows[id].bit, 0))
          && forall other :: other in rows0 ==> !Matches(rows0[other], ParentId(ids, task), task))
    && (forall other :: other in rows0 && Clashes(rows0[other], task) ==> other == id)
  }

  ghost predicate Untouched(rows0: Table, ids: seq<int>, rows: Table) {
    forall id :: id !in ids ==> (id in rows <==> id in rows0) && (id in rows0 ==> rows[id] == rows0[id])
  }

  ghost predicate Inv(rows0: Table, nextId0: int, tasks: seq<Task>, st: State) {
    && |st.ids| <= |tasks|
    && nextId0 <= st.nextId
    && (forall k, l :: 0 <= k < l < |st.ids| ==> st.ids[k] != st.ids[l])
    && (forall k :: 0 <= k < |st.ids| ==> st.ids[k] < st.nextId)
    && (forall k :: 0 <= k < |st.ids| ==> Done(rows0, nextId0, tasks[k], st.ids, st.ids[k], st.rows))
    && Untouched(rows0, st.ids, st.rows)
  }

  // ----- single rows -----

  lemma PatchSettles(row: Row, task: Task)
    ensures ChangedFields(Patched(row, task), task) == []
    ensures ChangedFields(row, task) == [] <==> Patched(row, task) == row
    ensures task.MenuTask? ==> Patched(row, task).name == task.node.name
  {
    if task.MenuTask? {
      MenuFieldsSettle(row, task.node);
      MenuFieldsSettle(Patched(row, task), task.node);
    }
  }

  // No field differs exactly when every field is as desired.
  lemma MenuFieldsSettle(row: Row, node: MenuNode)
    ensures MenuChangedFields(row, node) == [] <==>
            row.name == node.name && row.title == node.title && row.look == DesiredLook(node)
            && row.sort == Or(node.sort, 0) && row.enabled == Or(node.enabled, true)
  {
    hide DesiredLook, Or;
    var c := MenuChecks(row, node);
    if forall k :: 0 <= k < |c| ==> !c[k].0 {
      assert !c[0].0 && !c[1].0 && !c[2].0 && !c[3].0 && !c[4].0 && !c[5].0 && !c[6].0 && !c[7].0 && !c[8].0;
      assert !c[9].0 && !c[10].0 && !c[11].0 && !c[12].0 && !c[13].0 && !c[14].0 && !c[15].0 && !c[16].0 && !c[17].0;
    }
  }

  lemma ButtonFieldsSettle(row: Row, button: MenuButton)
    ensures ButtonChangedFields(row, button) == [] <==>
            row.authName == button.authName && row.sort == Or(button.sort, 0)
            && row.enabled == Or(button.enabled, true)
  {
    hide Or;
    var c := ButtonChecks(row, button);
    if forall k :: 0 <= k < |c| ==> !c[k].0 {
      assert !c[0].0 && !c[1].0 && !c[2].0;
    }
  }

  lemma {:induction false} AllDiffer(checks: seq<Check>)
    requires forall k :: 0 <= k < |checks| ==> checks[k].0
    ensures Differing(checks) == seq(|checks|, k requires 0 <= k < |checks| => checks[k].1)
  {
    if checks != [] {
      AllDiffer(checks[1..]);
    }
  }

  // The fields that a creation lists are those of a row that differs everywhere, in the same order.
  lemma CreationListsEveryField(row: Row, node: MenuNode)
    requires row.name != node.name && row.title != node.title && row.sort != Or(node.sort, 0)
             && row.enabled != Or(node.enabled, true)
    requires LooksDifferEverywhere(row.look, DesiredLook(node))
    ensures MenuChangedFields(row, node) == MENU_FIELDS
  {
    hide DesiredLook, Or;
    AllDiffer(MenuChecks(row, node));
  }

  lemma CreationListsEveryButtonField(row: Row, button: MenuButton)
    requires row.authName != button.authName && row.sort != Or(button.sort, 0)
             && row.enabled != Or(button.enabled, true)
    ensures ButtonChangedFields(row, button) == BUTTON_FIELDS
  {
    hide Or;
    AllDiffer(ButtonChecks(row, button));
  }

  predicate LooksDifferEverywhere(a: Look, b: Look) {
    && a.component != b.component && a.redirect != b.redirect && a.icon != b.icon && a.link != b.link
    && a.isIframe != b.isIframe && a.isHide != b.isHide && a.isHideTab != b.isHideTab && a.isFullPage != b.isFullPage
    && a.isFirstLevel != b.isFirstLevel && a.keepAlive != b.keepAlive && a.fixedTab != b.fixedTab
    && a.showBadge != b.showBadge
    && a.showTextBadge != b.showTextBadge && a.activePath != b.activePath
  }

  lemma PatchKeepsPlace(row: Row, task: Task)
    ensures SamePlace(Patched(row, task), row)
    ensures var p := Patched(row, task);
            p.id == row.id && p.parent == row.parent && p.kind == row.kind && p.authMark == row.authMark
            && p.bit == row.bit
            && p.path == row.path
    ensures forall parent, other: Task :: Matches(Patched(row, task), parent, other) == Matches(row, parent, other)
  {
    hide MenuChangedFields, ButtonChangedFields, DesiredLook;
  }

  lemma NewRowFits(task: Task, id: int, parent: int, bit: int)
    ensures var row := NewRow(task, id, parent, bit);
            row.id == id && row.parent == parent && Matches(row, parent, task) && ChangedFields(row, task) == []
            && Clashes(row, task)
  {
    if task.MenuTask? {
      MenuFieldsSettle(NewRow(task, id, parent, bit), task.node);
    }
  }

  // ----- the invariant over a run -----

  lemma StartInv(rows0: Table, nextId0: int, nextBit: int, tasks: seq<Task>)
    ensures Inv(rows0, nextId0, tasks, Start(rows0, nextId0, nextBit))
  {
  }

  // Adding a later id does not change what an earlier task sees as its parent.
  lemma ParentStays(tasks: seq<Task>, ids: seq<int>, id: int, k: nat)
    requires ValidTasks(tasks) && k <= |ids| && k < |tasks|
    ensures ParentId(ids + [id], tasks[k]) == ParentId(ids, tasks[k])
    ensures tasks[k].parent >= 0 ==> tasks[k].parent < k && ParentId(ids, tasks[k]) == ids[tasks[k].parent]
    ensures tasks[k].parent < 0 ==> tasks[k].parent == -1 && ParentId(ids, tasks[k]) == 0
  {
  }

  lemma IdsAreNotZero(rows0: Table, nextId0: int, tasks: seq<Task>, st: State, k: nat)
    requires ValidTable(rows0, nextId0) && Inv(rows0, nextId0, tasks, st) && k < |st.ids|
    ensures st.ids[k] != 0
  {
    assert Done(rows0, nextId0, tasks[k], st.ids, st.ids[k], st.rows);
  }

  // Equal parent rows mean the same parent task.
  lemma ParentsTell(rows0: Table, nextId0: int, tasks: seq<Task>, st: State, k: nat, l: nat)
    requires ValidTable(rows0, nextId0) && ValidTasks(tasks) && Inv(rows0, nextId0, tasks, st)
    requires k < |tasks| && l < |tasks| && k <= |st.ids| && l <= |st.ids|
    requires ParentId(st.ids, tasks[k]) == ParentId(st.ids, tasks[l])
    ensures tasks[k].parent == tasks[l].parent
  {
    hide Done, Untouched, Inv;
    ParentStays(tasks, st.ids, 0, k);
    ParentStays(tasks, st.ids, 0, l);
    var p, q := tasks[k].parent, tasks[l].parent;
    if p >= 0 { IdsAreNotZero(rows0, nextId0, tasks, st, p); }
    if q >= 0 { IdsAreNotZero(rows0, nextId0, tasks, st, q); }
    if p >= 0 && q >= 0 && p != q {
      IdsDiffer(rows0, nextId0, tasks, st, p, q);
    }
  }

  lemma IdsDiffer(rows0: Table, nextId0: int, tasks: seq<Task>, st: State, p: nat, q: nat)
    requires Inv(rows0, nextId0, tasks, st) && p < |st.ids| && q < |st.ids| && p != q
    ensures st.ids[p] != st.ids[q]
  {
    hide Done, Untouched;
  }

  lemma OnePlaceOneSlot(row: Row, p: int, a: Task, q: int, b: Task)
    requires Matches(row, p, a) && Matches(row, q, b)
    ensures p == q && (a.parent == b.parent ==> SameSlot(a, b))
  {
  }

  // A row found for the next task was not touched before.
  lemma FoundIsUntouched(rows0: Table, nextId0: int, existing: seq<Row>, tasks: seq<Task>, st: State, row: Row)
    requires ValidTable(rows0, nextId0) && Snapshot(existing, rows0) && ValidTasks(tasks)
             && Inv(rows0, nextId0, tasks, st)
    requires |st.ids| < |tasks| && row in existing && Matches(row, ParentId(st.ids, tasks[|st.ids|]), tasks[|st.ids|])
    ensures row.id !in st.ids
  {
    hide Inv, Patched, Clashes, NewRow, Matches, SameSlot;
    var n := |st.ids|;
    forall k | 0 <= k < n
      ensures st.ids[k] != row.id
    {
      if st.ids[k] == row.id {
        InvDone(rows0, nextId0, tasks, st, k);
        OnePlaceOneSlot(row, ParentId(st.ids, tasks[k]), tasks[k], ParentId(st.ids, tasks[n]), tasks[n]);
        ParentsTell(rows0, nextId0, tasks, st, k, n);
        assert false;
      }
    }
  }

  lemma InvDone(rows0: Table, nextId0: int, tasks: seq<Task>, st: State, k: nat)
    requires Inv(rows0, nextId0, tasks, st) && k < |st.ids|
    ensures Done(rows0, nextId0, tasks[k], st.ids, st.ids[k], st.rows)
  {
    hide Done, Untouched;
  }

  // The earlier tasks stay done.
  lemma DoneStays(rows0: Table, nextId0: int, tasks: seq<Task>, st: State, id: int, row: Row, k: nat)
    requires ValidTasks(tasks) && k < |st.ids| <= |tasks|
    requires Done(rows0, nextId0, tasks[k], st.ids, st.ids[k], st.rows) && id != st.ids[k]
    ensures Done(rows0, nextId0, tasks[k], st.ids + [id], st.ids[k], st.rows[id := row])
  {
    hide Matches, Patched, NewRow, Clashes, ParentId;
    ParentStays(tasks, st.ids, id, k);
  }

  // Touching one more row.
  lemma OneMoreTouched(rows0: Table, ids: seq<int>, rows: Table, id: int, row: Row)
    requires Untouched(rows0, ids, rows)
    ensures Untouched(rows0, ids + [id], rows[id := row])
  {
    forall other | other !in ids + [id]
      ensures (other in rows[id := row] <==> other in rows0)
              && (other in rows0 ==> rows[id := row][other] == rows0[other])
    {
      assert (ids + [id])[|ids|] == id;
      assert other in ids ==> other in ids + [id];
    }
  }

  // The invariant after one more task, given that the new task is done.
  lemma InvGrows(rows0: Table, nextId0: int, tasks: seq<Task>, st: State, id: int, row: Row, next: State)
    requires ValidTasks(tasks) && Inv(rows0, nextId0, tasks, st) && |st.ids| < |tasks|
    requires next.rows == st.rows[id := row] && next.ids == st.ids + [id]
    requires st.nextId <= next.nextId && id < next.nextId && id !in st.ids
    requires Done(rows0, nextId0, tasks[|st.ids|], next.ids, id, next.rows)
    ensures Inv(rows0, nextId0, tasks, next)
  {
    hide Done, Untouched, ValidTasks;
    var n := |st.ids|;
    OneMoreTouched(rows0, st.ids, st.rows, id, row);
    forall k | 0 <= k <= n
      ensures Done(rows0, nextId0, tasks[k], next.ids, next.ids[k], next.rows)
    {
      if k < n {
        DoneStays(rows0, nextId0, tasks, st, id, row, k);
      }
    }
  }

  lemma WriteKeepsInv(rows0: Table, nextId0: int, existing: seq<Row>, tasks: seq<Task>, st: State, row: Row)
    requires ValidTable(rows0, nextId0) && Snapshot(existing, rows0) && ValidTasks(tasks)
             && Inv(rows0, nextId0, tasks, st)
    requires |st.ids| < |tasks| && row in existing && Matches(row, ParentId(st.ids, tasks[|st.ids|]), tasks[|st.ids|])
    requires Available(existing, Some(row.id), tasks[|st.ids|])
    ensures Inv(rows0, nextId0, tasks, Write(row, tasks[|st.ids|], st))
  {
    hide Matches, Patched, Clashes, NewRow, ValidTasks, ParentId, Inv, ChangedFields;
    var task := tasks[|st.ids|];
    var next := Write(row, task, st);
    FoundIsUntouched(rows0, nextId0, existing, tasks, st, row);
    ParentStays(tasks, st.ids, row.id, |st.ids|);
    assert row.id in rows0 && rows0[row.id] == row && row.id < nextId0;
    UntouchedIsThere(rows0, nextId0, tasks, st, row.id);
    PatchSettles(row, task);
    assert next.rows == st.rows[row.id := Patched(row, task)];
    assert Done(rows0, nextId0, task, next.ids, row.id, next.rows);
    assert nextId0 <= st.nextId by { InvBounds(rows0, nextId0, tasks, st); }
    InvGrows(rows0, nextId0, tasks, st, row.id, Patched(row, task), next);
  }

  lemma InvBounds(rows0: Table, nextId0: int, tasks: seq<Task>, st: State)
    requires Inv(rows0, nextId0, tasks, st)
    ensures nextId0 <= st.nextId && st.nextId !in st.ids && |st.ids| <= |tasks|
  {
    hide Done, Untouched;
  }

  lemma InsertKeepsInv(rows0: Table, nextId0: int, existing: seq<Row>, tasks: seq<Task>, st: State)
    requires ValidTable(rows0, nextId0) && Snapshot(existing, rows0) && ValidTasks(tasks)
             && Inv(rows0, nextId0, tasks, st)
    requires |st.ids| < |tasks| && Find(existing, ParentId(st.ids, tasks[|st.ids|]), tasks[|st.ids|]).None?
    requires Available(existing, None, tasks[|st.ids|])
    ensures Inv(rows0, nextId0, tasks, Insert(tasks[|st.ids|], ParentId(st.ids, tasks[|st.ids|]), st))
  {
    hide Matches, Clashes, ValidTasks, ParentId, Inv, NewRow, Find;
    var task := tasks[|st.ids|];
    var parent := ParentId(st.ids, task);
    var next := Insert(task, parent, st);
    ParentStays(tasks, st.ids, st.nextId, |st.ids|);
    InvBounds(rows0, nextId0, tasks, st);
    NewRowsBit(task, st.nextId, parent, st.nextBit);
    assert st.nextId !in rows0;
    assert Done(rows0, nextId0, task, next.ids, st.nextId, next.rows);
    InvGrows(rows0, nextId0, tasks, st, st.nextId, NewRow(task, st.nextId, parent, st.nextBit), next);
  }

  lemma NewRowsBit(task: Task, id: int, parent: int, bit: int)
    ensures var row := NewRow(task, id, parent, bit);
            row == NewRow(task, id, parent, Or(row.bit, 0)) && row.bit == if task.ButtonTask? then Some(bit) else None
  {
    hide DesiredLook;
  }

  lemma TaskKeepsInv(rows0: Table, nextId0: int, existing: seq<Row>, tasks: seq<Task>, st: State)
    requires ValidTable(rows0, nextId0) && Snapshot(existing, rows0) && ValidTasks(tasks)
             && Inv(rows0, nextId0, tasks, st)
    requires |st.ids| < |tasks| && ApplyTask(existing, tasks[|st.ids|], st).Ok?
    ensures var next := ApplyTask(existing, tasks[|st.ids|], st).value;
            Inv(rows0, nextId0, tasks, next) && |next.ids| == |st.ids| + 1 && st.ids <= next.ids
  {
    hide Inv, Matches, Available, Patched, NewRow, ValidTasks, ParentId, ValidTable, Snapshot;
    var task := tasks[|st.ids|];
    var row := Find(existing, ParentId(st.ids, task), task);
    if row.Some? {
      WriteKeepsInv(rows0, nextId0, existing, tasks, st, row.value);
    } else {
      InsertKeepsInv(rows0, nextId0, existing, tasks, st);
    }
  }

  lemma {:induction false} RunKeepsInv(rows0: Table, nextId0: int, existing: seq<Row>, tasks: seq<Task>, st: State)
    requires ValidTable(rows0, nextId0) && Snapshot(existing, rows0) && ValidTasks(tasks)
             && Inv(rows0, nextId0, tasks, st)
    requires ApplyTasks(existing, tasks[|st.ids|..], st).Ok?
    ensures var end := ApplyTasks(existing, tasks[|st.ids|..], st).value;
            Inv(rows0, nextId0, tasks, end) && |end.ids| == |tasks| && st.ids <= end.ids
    decreases |tasks| - |st.ids|
  {
    hide Done, Untouched, ApplyTask, ValidTasks, ValidTable, Snapshot;
    var n := |st.ids|;
    if n < |tasks| {
      TaskKeepsInv(rows0, nextId0, existing, tasks, st);
      assert tasks[n..][1..] == tasks[n + 1..];
      RunKeepsInv(rows0, nextId0, existing, tasks, ApplyTask(existing, tasks[n], st).value);
    }
  }

  // ----- the plan lists what applying does -----

  function Origin(rows0: Table, id: int): Option<Row> { if id in rows0 then Some(rows0[id]) else None }

  function KnownOf(rows0: Table, ids: seq<int>): Known {
    seq(|ids|, i requires 0 <= i < |ids| => if ids[i] in rows0 then Some(ids[i]) else None)
  }

  // The row that planning looks up is the row that applying looks up.
  lemma SameRowPlanned(rows0: Table, nextId0: int, existing: seq<Row>, tasks: seq<Task>, st: State)
    requires ValidTable(rows0, nextId0) && Snapshot(existing, rows0) && ValidTasks(tasks)
             && Inv(rows0, nextId0, tasks, st)
    requires |st.ids| < |tasks|
    ensures var task := tasks[|st.ids|];
            var known := KnownOf(rows0, st.ids);
            && PlannedRow(existing, known, task) == Find(existing, ParentId(st.ids, task), task)
            && (ParentOf(known, task).None? ==> Find(existing, ParentId(st.ids, task), task).None?)
  {
    hide Done, Untouched, Clashes;
    var task := tasks[|st.ids|];
    var known := KnownOf(rows0, st.ids);
    ParentStays(tasks, st.ids, 0, |st.ids|);
    if ParentOf(known, task).None? {
      var parent := st.ids[task.parent];
      assert parent !in rows0;
      IdsAreNotZero(rows0, nextId0, tasks, st, task.parent);
      assert forall row :: row in existing ==> row.parent != parent;
    }
  }

  lemma FoundIsOrigin(rows0: Table, existing: seq<Row>, row: Option<Row>, id: int)
    requires Snapshot(existing, rows0)
    requires row.Some? ==> row.value in existing && id == row.value.id
    requires row.None? ==> id !in rows0
    ensures row == Origin(rows0, id)
    ensures IdOf(row) == if id in rows0 then Some(id) else None
  {
  }

  lemma KnownGrows(rows0: Table, ids: seq<int>, id: int)
    ensures KnownOf(rows0, ids + [id]) == KnownOf(rows0, ids) + [if id in rows0 then Some(id) else None]
  {
  }

  lemma InsertedIsNew(rows0: Table, nextId0: int, tasks: seq<Task>, st: State)
    requires ValidTable(rows0, nextId0) && Inv(rows0, nextId0, tasks, st)
    ensures st.nextId !in rows0 && st.nextId !in st.rows
  {
    hide Done;
    assert st.nextId !in st.ids;
  }

  // What one applied task hands on to the plan.
  lemma TaskMeetsPlan(rows0: Table, nextId0: int, existing: seq<Row>, tasks: seq<Task>, st: State)
    requires ValidTable(rows0, nextId0) && Snapshot(existing, rows0) && ValidTasks(tasks)
             && Inv(rows0, nextId0, tasks, st)
    requires |st.ids| < |tasks| && ApplyTask(existing, tasks[|st.ids|], st).Ok?
    ensures var task := tasks[|st.ids|];
            var known := KnownOf(rows0, st.ids);
            var next := ApplyTask(existing, task, st).value;
            && !PlanRefuses(existing, known, task)
            && |next.ids| == |st.ids| + 1
            && PlannedRow(existing, known, task) == Origin(rows0, next.ids[|st.ids|])
            && KnownOf(rows0, next.ids) == known + [IdOf(PlannedRow(existing, known, task))]
            && |next.rows| == |st.rows| + (if next.ids[|st.ids|] in rows0 then 0 else 1)
            && (Change(Origin(rows0, next.ids[|st.ids|]), task).action == Create <==> next.ids[|st.ids|] !in rows0)
  {
    hide Inv, Done, Clashes, Matches, Patched, NewRow, ChangedFields, KnownOf, Snapshot, ValidTable, Available,
        ParentId, ParentOf;
    var n := |st.ids|;
    var task := tasks[n];
    var next := ApplyTask(existing, task, st).value;
    var row := Find(existing, ParentId(st.ids, task), task);
    SameRowPlanned(rows0, nextId0, existing, tasks, st);
    InsertedIsNew(rows0, nextId0, tasks, st);
    FoundIsOrigin(rows0, existing, row, next.ids[n]);
    KnownGrows(rows0, st.ids, next.ids[n]);
    assert next.ids == st.ids + [next.ids[n]];
    if row.Some? {
      FoundIsUntouched(rows0, nextId0, existing, tasks, st, row.value);
      UntouchedIsThere(rows0, nextId0, tasks, st, row.value.id);
      assert next.rows.Keys == st.rows.Keys;
      SameKeysSameSize(next.rows, st.rows);
    } else {
      assert next.rows.Keys == st.rows.Keys + {st.nextId};
      OneMoreRow(st.rows, next.rows, st.nextId);
    }
  }

  lemma UntouchedIsThere(rows0: Table, nextId0: int, tasks: seq<Task>, st: State, id: int)
    requires Inv(rows0, nextId0, tasks, st) && id !in st.ids && id in rows0
    ensures id in st.rows && st.rows[id] == rows0[id]
  {
    hide Done;
  }

  lemma SameKeysSameSize(a: Table, b: Table)
    requires a.Keys == b.Keys
    ensures |a| == |b|
  {
    assert |a| == |a.Keys| && |b| == |b.Keys|;
  }

  lemma OneMoreRow(a: Table, b: Table, id: int)
    requires b.Keys == a.Keys + {id} && id !in a
    ensures |b| == |a| + 1
  {
    assert |a| == |a.Keys| && |b| == |b.Keys|;
  }

  // The change that a plan lists for a task is the change that its row went through.
  ghost predicate Carried(rows0: Table, task: Task, parent: int, id: int, change: SyncChange, rows: Table) {
    && id in rows
    && change == Change(Origin(rows0, id), task)
    && match change.action
       case Create => id !in rows0 && rows[id] == NewRow(task, id, parent, Or(rows[id].bit, 0))
       case Update => id in rows0 && Matches(rows0[id], parent, task) && rows[id] != rows0[id]
         && rows[id] == Patched(rows0[id], task)
       case Noop => id in rows0 && Matches(rows0[id], parent, task) && rows[id] == rows0[id]
  }

  lemma {:induction false} RunMeetsPlan(rows0: Table, nextId0: int, existing: seq<Row>, tasks: seq<Task>, st: State)
    requires ValidTable(rows0, nextId0) && Snapshot(existing, rows0) && ValidTasks(tasks)
             && Inv(rows0, nextId0, tasks, st)
    requires ApplyTasks(existing, tasks[|st.ids|..], st).Ok?
    ensures var end := ApplyTasks(existing, tasks[|st.ids|..], st).value;
            var plan := PlanTasks(existing, tasks[|st.ids|..], KnownOf(rows0, st.ids));
            && plan.Ok? && |plan.value| == |tasks| - |st.ids| && |end.ids| == |tasks| && st.ids <= end.ids
            && (forall k :: 0 <= k < |plan.value| ==>
                  plan.value[k] == Change(Origin(rows0, end.ids[|st.ids| + k]), tasks[|st.ids| + k]))
            && |end.rows| == |st.rows| + CountOf(plan.value, Create)
    decreases |tasks| - |st.ids|
  {
    hide Done, Untouched, ApplyTask, PlanRefuses, PlannedRow, KnownOf, ValidTasks, ChangedFields, ValidTable, Snapshot;
    hide Change, Origin, CountOf, Inv, ParentOf;
    var n := |st.ids|;
    if n < |tasks| {
      TaskKeepsInv(rows0, nextId0, existing, tasks, st);
      TaskMeetsPlan(rows0, nextId0, existing, tasks, st);
      var next := ApplyTask(existing, tasks[n], st).value;
      assert tasks[n..][0] == tasks[n] && tasks[n..][1..] == tasks[n + 1..];
      RunMeetsPlan(rows0, nextId0, existing, tasks, next);
      var change := Change(Origin(rows0, next.ids[n]), tasks[n]);
      var others := PlanTasks(existing, tasks[n + 1..], KnownOf(rows0, next.ids)).value;
      CountAppend([change], others, Create);
      CountOne(change);
    } else {
      InvBounds(rows0, nextId0, tasks, st);
      assert tasks[n..] == [];
      CountNone();
    }
  }

  lemma CountOne(change: SyncChange)
    ensures CountOf([change], Create) == if change.action == Create then 1 else 0
  {
  }

  lemma CountNone()
    ensures CountOf([], Create) == 0
  {
  }

  lemma CarriedOut(rows0: Table, nextId0: int, tasks: seq<Task>, st: State, k: nat)
    requires Inv(rows0, nextId0, tasks, st) && k < |st.ids| <= |tasks|
    ensures Carried(rows0, tasks[k], ParentId(st.ids, tasks[k]), st.ids[k],
            Change(Origin(rows0, st.ids[k]), tasks[k]), st.rows)
  {
    hide Inv, Patched, NewRow, ChangedFields, Matches, Clashes;
    InvDone(rows0, nextId0, tasks, st, k);
    if st.ids[k] in rows0 {
      PatchSettles(rows0[st.ids[k]], tasks[k]);
    }
  }

  // One change per task; each row of a task was created, updated or left alone as listed; no row serves
  // two tasks; all other rows are as before; and the table grew by the number of creations.
  ghost predicate DoneAsListed(rows0: Table, tasks: seq<Task>, end: State, plan: seq<SyncChange>) {
    && |plan| == |tasks| == |end.ids|
    && AllCarried(rows0, tasks, end, plan)
    && (forall k, l :: 0 <= k < l < |tasks| ==> end.ids[k] != end.ids[l])
    && Untouched(rows0, end.ids, end.rows)
    && |end.rows| == |rows0| + CountOf(plan, Create)
  }

  ghost predicate AllCarried(rows0: Table, tasks: seq<Task>, end: State, plan: seq<SyncChange>)
    requires |plan| == |tasks| == |end.ids|
  {
    forall k :: 0 <= k < |tasks| ==>
      Carried(rows0, tasks[k], ParentId(end.ids, tasks[k]), end.ids[k], plan[k], end.rows)
  }

  ghost predicate ListsOrigins(rows0: Table, tasks: seq<Task>, ids: seq<int>, plan: seq<SyncChange>)
    requires |plan| == |tasks| == |ids|
  {
    forall k :: 0 <= k < |tasks| ==> plan[k] == Change(Origin(rows0, ids[k]), tasks[k])
  }

  lemma InvGivesCarried(rows0: Table, nextId0: int, tasks: seq<Task>, end: State, plan: seq<SyncChange>)
    requires Inv(rows0, nextId0, tasks, end) && |plan| == |tasks| == |end.ids|
    requires ListsOrigins(rows0, tasks, end.ids, plan)
    ensures AllCarried(rows0, tasks, end, plan)
  {
    hide Inv, Carried, Change, Origin;
    forall k | 0 <= k < |tasks|
      ensures Carried(rows0, tasks[k], ParentId(end.ids, tasks[k]), end.ids[k], plan[k], end.rows)
    {
      CarriedOut(rows0, nextId0, tasks, end, k);
    }
  }

  lemma InvGivesDistinctRows(rows0: Table, nextId0: int, tasks: seq<Task>, end: State)
    requires Inv(rows0, nextId0, tasks, end)
    ensures forall k, l :: 0 <= k < l < |end.ids| ==> end.ids[k] != end.ids[l]
    ensures Untouched(rows0, end.ids, end.rows)
  {
    hide Done, Untouched;
  }

  lemma StartMeetsPlan(rows0: Table, nextId0: int, nextBit: int, existing: seq<Row>, tasks: seq<Task>)
    requires ValidTable(rows0, nextId0) && Snapshot(existing, rows0) && ValidTasks(tasks)
    requires ApplyTasks(existing, tasks, Start(rows0, nextId0, nextBit)).Ok?
    ensures var end := ApplyTasks(existing, tasks, Start(rows0, nextId0, nextBit)).value;
            var plan := PlanTasks(existing, tasks, []);
            && Inv(rows0, nextId0, tasks, end)
            && plan.Ok? && |plan.value| == |tasks| == |end.ids|
            && ListsOrigins(rows0, tasks, end.ids, plan.value)
            && |end.rows| == |rows0| + CountOf(plan.value, Create)
  {
    hide ValidTable, Snapshot, ValidTasks, Inv, ApplyTasks, PlanTasks, Change, Origin, CountOf;
    var st := Start(rows0, nextId0, nextBit);
    StartInv(rows0, nextId0, nextBit, tasks);
    assert tasks[0..] == tasks && KnownOf(rows0, []) == [];
    RunKeepsInv(rows0, nextId0, existing, tasks, st);
    RunMeetsPlan(rows0, nextId0, existing, tasks, st);
    var ids, plan := ApplyTasks(existing, tasks, st).value.ids, PlanTasks(existing, tasks, []).value;
    forall k | 0 <= k < |tasks|
      ensures plan[k] == Change(Origin(rows0, ids[k]), tasks[k])
    {
      assert plan[k] == Change(Origin(rows0, ids[0 + k]), tasks[0 + k]);
    }
  }

  // If applying a valid configuration succeeds, so does planning it, and what was done is what the plan lists.
  lemma ApplyDoesWhatThePlanLists(rows0: Table, nextId0: int, nextBit: int, existing: seq<Row>, nodes: seq<MenuNode>)
    requires ValidTable(rows0, nextId0) && Snapshot(existing, rows0) && ValidSpec(nodes)
    requires ApplyTasks(existing, Flatten(nodes, -1, "", 0), Start(rows0, nextId0, nextBit)).Ok?
    ensures var tasks := Flatten(nodes, -1, "", 0);
            var end := ApplyTasks(existing, tasks, Start(rows0, nextId0, nextBit)).value;
            var plan := PlanTasks(existing, tasks, []);
            plan.Ok? && DoneAsListed(rows0, tasks, end, plan.value)
  {
    hide ValidTable, Snapshot, ValidSpec, Flatten, ValidTasks, Inv, ApplyTasks, PlanTasks, AllCarried, Untouched;
    hide ListsOrigins, CountOf, Start;
    var tasks := Flatten(nodes, -1, "", 0);
    ValidSpecGivesValidTasks(nodes);
    StartMeetsPlan(rows0, nextId0, nextBit, existing, tasks);
    var end, plan := ApplyTasks(existing, tasks, Start(rows0, nextId0, nextBit)).value, PlanTasks(existing, tasks, []);
    InvGivesCarried(rows0, nextId0, tasks, end, plan.value);
    InvGivesDistinctRows(rows0, nextId0, tasks, end);
  }
}
