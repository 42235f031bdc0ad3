/**
 Which bit positions a call hands out (crates/summer-domain/src/menu.rs:237-325, 829-836, 961-1058):
 the buttons it creates get the positions from the next one on, in the order of their creation. The
 position of a deleted button goes to another button exactly when some call reaches it.
 */
module BitHandouts {
  import opened Wrappers
  import opened SyncPlanModel
  import opened MenuSpec
  import opened MenuTasks
  import opened MenuSync
  import opened MenuDomain
  import opened MenuBits

  // ----- the buttons a call creates -----

  // The marks of the buttons that applying the tasks creates, in order.
  function CreatedMarks(existing: seq<Row>, tasks: seq<Task>, st: State): seq<string>
    decreases |tasks|
  {
    if tasks == [] || ApplyTask(existing, tasks[0], st).Err? then []
    else CreatedBy(existing, tasks[0], st) + CreatedMarks(existing, tasks[1..], ApplyTask(existing, tasks[0], st).value)
  }

  function CreatedBy(existing: seq<Row>, task: Task, st: State): seq<string> {
    if task.ButtonTask? && Find(existing, ParentId(st.ids, task), task).None? then [task.button.authMark] else []
  }

  function NewMarks(db: Db, call: Call): seq<string> {
    match call
    case ApplyConfigCall(existing, nodes) =>
      var tasks := Flatten(nodes, -1, "", 0);
      var start := Start(db.rows, db.nextId, NextButtonBitPosition(existing));
      if !ValidSpec(nodes) || PlanTasks(existing, tasks, []).Err? || ApplyTasks(existing, tasks, start).Err? then []
      else CreatedMarks(existing, tasks, start)
    case CreateButtonCall(existing, form) => if form.parent in db.rows then [form.authMark] else []
    case DeleteMenuCall(id, roleMenus) => []
  }

  // Before the call: its new buttons take the positions from the next one on.
  predicate HandsOut(db: Db, call: Call, pos: int, mark: string) {
    && !call.DeleteMenuCall?
    && var first := NextButtonBitPosition(call.existing);
       first <= pos < first + |NewMarks(db, call)| && NewMarks(db, call)[pos - first] == mark
  }

  // After it: a row that was not there holds the position.
  ghost predicate NewlyOwns(rows0: Table, rows: Table, pos: int, mark: string) {
    exists id :: id in rows && id !in rows0 && rows[id].bit == Some(pos) && rows[id].authMark == mark
  }

  lemma InsertOwns(rows0: Table, task: Task, parent: int, st: State, pos: int, mark: string)
    requires WellKeyed(st.rows, st.nextId) && rows0.Keys <= st.rows.Keys
    ensures var next := Insert(task, parent, st);
            && WellKeyed(next.rows, next.nextId) && rows0.Keys <= next.rows.Keys
            && (NewlyOwns(rows0, next.rows, pos, mark) <==>
                || NewlyOwns(rows0, st.rows, pos, mark)
                || (task.ButtonTask? && pos == st.nextBit && mark == task.button.authMark))
  {
    var row := NewRow(task, st.nextId, parent, st.nextBit);
    NewRowsBit(task, st.nextId, parent, st.nextBit);
    NewRowFits(task, st.nextId, parent, st.nextBit);
    assert task.ButtonTask? ==> row.authMark == task.button.authMark;
    hide NewRow;
    var next := st.rows[st.nextId := row];
    assert st.nextId !in st.rows && st.nextId !in rows0;
    assert next[st.nextId] == row;
    if id :| id in st.rows && id !in rows0 && st.rows[id].bit == Some(pos) && st.rows[id].authMark == mark {
      assert next[id] == st.rows[id];
    }
  }

  lemma WriteOwns(rows0: Table, task: Task, st: State, row: Row, pos: int, mark: string)
    requires WellKeyed(st.rows, st.nextId) && rows0.Keys <= st.rows.Keys && row.id in rows0
    ensures var next := Write(row, task, st);
            && WellKeyed(next.rows, next.nextId) && rows0.Keys <= next.rows.Keys
            && (NewlyOwns(rows0, next.rows, pos, mark) <==> NewlyOwns(rows0, st.rows, pos, mark))
  {
    PatchKeepsPlace(row, task);
    hide Patched, ChangedFields;
    var next := Write(row, task, st);
    assert forall id :: id !in rows0 ==> (id in next.rows <==> id in st.rows);
    assert forall id :: id in st.rows && id !in rows0 ==> next.rows[id] == st.rows[id];
  }

  // The created buttons, and nothing else, own the positions from the next one on.
  lemma {:induction false} ApplyHandsOut(
      rows0: Table, existing: seq<Row>, tasks: seq<Task>, st: State, pos: int, mark: string)
    requires Snapshot(existing, rows0) && WellKeyed(rows0, st.nextId)
    requires WellKeyed(st.rows, st.nextId) && rows0.Keys <= st.rows.Keys && ApplyTasks(existing, tasks, st).Ok?
    ensures var made := CreatedMarks(existing, tasks, st);
            NewlyOwns(rows0, ApplyTasks(existing, tasks, st).value.rows, pos, mark) <==>
            || NewlyOwns(rows0, st.rows, pos, mark)
            || (st.nextBit <= pos < st.nextBit + |made| && made[pos - st.nextBit] == mark)
    decreases |tasks|
  {
    hide Available, Write, Insert, ParentId, Matches, NewlyOwns;
    if tasks != [] {
      var task := tasks[0];
      var parent := ParentId(st.ids, task);
      var found := Find(existing, parent, task);
      var next := ApplyTask(existing, task, st).value;
      if found.Some? {
        WriteOwns(rows0, task, st, found.value, pos, mark);
      } else {
        InsertOwns(rows0, task, parent, st, pos, mark);
      }
      assert st.nextId <= next.nextId && next.nextBit == st.nextBit + |CreatedBy(existing, task, st)| by {
        NextCounters(existing, task, st);
      }
      ApplyHandsOut(rows0, existing, tasks[1..], next, pos, mark);
    }
  }

  lemma NextCounters(existing: seq<Row>, task: Task, st: State)
    requires ApplyTask(existing, task, st).Ok?
    ensures var next := ApplyTask(existing, task, st).value;
            st.nextId <= next.nextId && next.nextBit == st.nextBit + |CreatedBy(existing, task, st)|
  {
    hide Available, Find, ParentId, NewRow, Patched, ChangedFields;
  }

  // A call gives a position to a new button exactly when the position lies among as many positions
  // from the next one on as the call creates buttons, and the button is the one in that place.
  lemma CallHandsOutIff(db: Db, call: Call, pos: int, mark: string)
    requires Reads(db, call) && WellKeyed(db.rows, db.nextId)
    ensures NewlyOwns(db.rows, After(db, call).rows, pos, mark) <==> HandsOut(db, call, pos, mark)
  {
    hide Snapshot, Flatten, ApplyTasks, PlanTasks, ValidSpec, NextButtonBitPosition, PermissionMappings, CreatedMarks;
    match call
    case ApplyConfigCall(existing, nodes) =>
      var start := Start(db.rows, db.nextId, NextButtonBitPosition(existing));
      if ApplyTasks(existing, Flatten(nodes, -1, "", 0), start).Ok? {
        ApplyHandsOut(db.rows, existing, Flatten(nodes, -1, "", 0), start, pos, mark);
      }
    case CreateButtonCall(existing, form) =>
      if form.parent in db.rows {
        assert After(db, call).rows[db.nextId] == ButtonRow(form, db.nextId, NextButtonBitPosition(existing));
      }
    case DeleteMenuCall(id, roleMenus) =>
  }

  // ----- what the plan says of them -----

  // The marks of the buttons whose creation the plan lists.
  function PlannedMarks(tasks: seq<Task>, plan: seq<SyncChange>): seq<string>
    requires |tasks| == |plan|
  {
    if tasks == [] then []
    else
      (if tasks[0].ButtonTask? && plan[0].action == Create then [tasks[0].button.authMark] else [])
      + PlannedMarks(tasks[1..], plan[1..])
  }

  lemma {:induction false} RunCreatesAsPlanned(
      rows0: Table, nextId0: int, existing: seq<Row>, tasks: seq<Task>, st: State)
    requires ValidTable(rows0, nextId0) && Snapshot(existing, rows0) && ValidTasks(tasks)
    requires Inv(rows0, nextId0, tasks, st) && ApplyTasks(existing, tasks[|st.ids|..], st).Ok?
    ensures var plan := PlanTasks(existing, tasks[|st.ids|..], KnownOf(rows0, st.ids));
            && plan.Ok? && |plan.value| == |tasks[|st.ids|..]|
            && CreatedMarks(existing, tasks[|st.ids|..], st) == PlannedMarks(tasks[|st.ids|..], plan.value)
    decreases |tasks| - |st.ids|
  {
    hide Done, Untouched, ApplyTask, PlanRefuses, PlannedRow, KnownOf, ValidTasks, ChangedFields, ValidTable, Snapshot;
    hide Origin, Inv, ParentOf, Find, ParentId;
    var n := |st.ids|;
    InvBounds(rows0, nextId0, tasks, st);
    if n < |tasks| {
      var task, rest := tasks[n], tasks[n..];
      TaskKeepsInv(rows0, nextId0, existing, tasks, st);
      TaskMeetsPlan(rows0, nextId0, existing, tasks, st);
      SameRowPlanned(rows0, nextId0, existing, tasks, st);
      assert rest[0] == task && rest[1..] == tasks[n + 1..];
      RunCreatesAsPlanned(rows0, nextId0, existing, tasks, ApplyTask(existing, task, st).value);
    } else {
      assert tasks[n..] == [];
    }
  }

  // On a valid table the buttons that applying a configuration creates are those its plan lists.
  lemma PlanListsNewButtons(db: Db, existing: seq<Row>, nodes: seq<MenuNode>)
    requires ValidTable(db.rows, db.nextId) && Snapshot(existing, db.rows) && ValidSpec(nodes)
    requires var start := Start(db.rows, db.nextId, NextButtonBitPosition(existing));
             ApplyTasks(existing, Flatten(nodes, -1, "", 0), start).Ok?
    ensures var tasks := Flatten(nodes, -1, "", 0);
            var plan := PlanTasks(existing, tasks, []);
            && plan.Ok? && |plan.value| == |tasks|
            && NewMarks(db, ApplyConfigCall(existing, nodes)) == PlannedMarks(tasks, plan.value)
  {
    hide ValidTable, Snapshot, ValidSpec, Flatten, ValidTasks, Inv, ApplyTasks, PlanTasks, CreatedMarks, PlannedMarks;
    hide NextButtonBitPosition;
    var tasks, start := Flatten(nodes, -1, "", 0), Start(db.rows, db.nextId, NextButtonBitPosition(existing));
    ValidSpecGivesValidTasks(nodes);
    StartInv(db.rows, db.nextId, NextButtonBitPosition(existing), tasks);
    assert tasks[0..] == tasks && KnownOf(db.rows, []) == [];
    RunCreatesAsPlanned(db.rows, db.nextId, existing, tasks, start);
  }

  // ----- runs -----

  // The state before call k, or at the end.
  function At(db: Db, calls: seq<Call>, k: nat): Db
    requires k <= |calls|
  {
    Run(db, calls[..k])
  }

  lemma {:induction false} NextState(db: Db, calls: seq<Call>, k: nat)
    requires k < |calls| && ReadsAlong(db, calls)
    ensures At(db, calls, k + 1) == After(At(db, calls, k), calls[k]) && Reads(At(db, calls, k), calls[k])
    decreases |calls|
  {
    hide After, Reads;
    var first, rest := After(db, calls[0]), calls[1..];
    assert calls[..k + 1][0] == calls[0] && calls[..k + 1][1..] == rest[..k];
    assert At(db, calls, k + 1) == At(first, rest, k);
    if k == 0 {
      assert calls[..0] == [] && rest[..0] == [];
    } else {
      assert calls[..k][0] == calls[0] && calls[..k][1..] == rest[..k - 1];
      assert At(db, calls, k) == At(first, rest, k - 1);
      NextState(first, rest, k - 1);
    }
  }

  lemma {:induction false} StatesAreSound(db: Db, calls: seq<Call>, k: nat)
    requires WellKeyed(db.rows, db.nextId) && BitsDistinct(db.rows) && ReadsAlong(db, calls) && k <= |calls|
    ensures WellKeyed(At(db, calls, k).rows, At(db, calls, k).nextId) && BitsDistinct(At(db, calls, k).rows)
  {
    hide After, Reads, WellKeyed, BitsDistinct, ReadsAlong, Succeeds;
    if k == 0 {
      assert calls[..0] == [];
    } else {
      StatesAreSound(db, calls, k - 1);
      NextState(db, calls, k - 1);
      CallKeepsBits(At(db, calls, k - 1), calls[k - 1]);
    }
  }

  // The position belongs to a row with another mark.
  ghost predicate OtherOwns(rows: Table, pos: int, mark: string) {
    exists id :: id in rows && rows[id].bit == Some(pos) && rows[id].authMark != mark
  }

  predicate HandsOutToOther(db: Db, call: Call, pos: int, mark: string) {
    && !call.DeleteMenuCall?
    && var first := NextButtonBitPosition(call.existing);
       first <= pos < first + |NewMarks(db, call)| && NewMarks(db, call)[pos - first] != mark
  }

  lemma CallGivesToOther(db: Db, call: Call, pos: int, mark: string)
    requires Reads(db, call) && WellKeyed(db.rows, db.nextId) && BitsDistinct(db.rows)
    ensures HandsOutToOther(db, call, pos, mark) ==> OtherOwns(After(db, call).rows, pos, mark)
    ensures OtherOwns(After(db, call).rows, pos, mark) ==>
              OtherOwns(db.rows, pos, mark) || HandsOutToOther(db, call, pos, mark)
  {
    hide NewMarks, After, Reads, NextButtonBitPosition, WellKeyed, BitsDistinct;
    CallKeepsBits(db, call);
    var rows := After(db, call).rows;
    if HandsOutToOther(db, call, pos, mark) {
      CallHandsOutIff(db, call, pos, NewMarks(db, call)[pos - NextButtonBitPosition(call.existing)]);
    }
    if id :| id in rows && rows[id].bit == Some(pos) && rows[id].authMark != mark {
      if id in db.rows {
        assert SameBadge(rows[id], db.rows[id]);
      } else {
        CallHandsOutIff(db, call, pos, rows[id].authMark);
      }
    }
  }

  lemma {:induction false} OwnerWasGiven(db: Db, calls: seq<Call>, pos: int, mark: string, k: nat) returns (j: nat)
    requires WellKeyed(db.rows, db.nextId) && BitsDistinct(db.rows) && ReadsAlong(db, calls)
    requires !OtherOwns(db.rows, pos, mark) && k <= |calls| && OtherOwns(At(db, calls, k).rows, pos, mark)
    ensures j < k && HandsOutToOther(At(db, calls, j), calls[j], pos, mark)
  {
    hide After, Reads, WellKeyed, BitsDistinct, ReadsAlong, OtherOwns, HandsOutToOther;
    assert k > 0 by { assert calls[..0] == [] && At(db, calls, 0) == db; }
    var before := At(db, calls, k - 1);
    NextState(db, calls, k - 1);
    StatesAreSound(db, calls, k - 1);
    CallGivesToOther(before, calls[k - 1], pos, mark);
    if OtherOwns(before.rows, pos, mark) {
      j := OwnerWasGiven(db, calls, pos, mark, k - 1);
    } else {
      j := k - 1;
    }
  }

  // Over a run a position comes to belong to a button with another mark exactly when some call creates
  // so many buttons that it reaches the position, and gives it to a button with another mark.
  lemma PositionChangesIff(db: Db, calls: seq<Call>, pos: int, mark: string)
    requires WellKeyed(db.rows, db.nextId) && BitsDistinct(db.rows) && ReadsAlong(db, calls)
    requires !OtherOwns(db.rows, pos, mark)
    ensures (exists k :: 0 <= k <= |calls| && OtherOwns(At(db, calls, k).rows, pos, mark))
            <==> exists k :: 0 <= k < |calls| && HandsOutToOther(At(db, calls, k), calls[k], pos, mark)
  {
    hide At, After, Reads, WellKeyed, BitsDistinct, ReadsAlong, OtherOwns, HandsOutToOther;
    if k :| 0 <= k <= |calls| && OtherOwns(At(db, calls, k).rows, pos, mark) {
      var j := OwnerWasGiven(db, calls, pos, mark, k);
    }
    if k :| 0 <= k < |calls| && HandsOutToOther(At(db, calls, k), calls[k], pos, mark) {
      NextState(db, calls, k);
      StatesAreSound(db, calls, k);
      CallGivesToOther(At(db, calls, k), calls[k], pos, mark);
      assert OtherOwns(At(db, calls, k + 1).rows, pos, mark);
    }
  }

  // Only the top can go: a position below the next one at every reading keeps its owner's mark,
  // whatever is deleted.
  lemma PositionsBelowNextStay(db: Db, calls: seq<Call>, pos: int, mark: string, k: nat)
    requires WellKeyed(db.rows, db.nextId) && BitsDistinct(db.rows) && ReadsAlong(db, calls)
    requires !OtherOwns(db.rows, pos, mark) && k <= |calls|
    requires forall i :: 0 <= i < |calls| && !calls[i].DeleteMenuCall? ==>
               pos < NextButtonBitPosition(calls[i].existing)
    ensures !OtherOwns(At(db, calls, k).rows, pos, mark)
  {
    hide At, After, Reads, WellKeyed, BitsDistinct, ReadsAlong, OtherOwns, NewMarks, NextButtonBitPosition;
    PositionChangesIff(db, calls, pos, mark);
  }
}
