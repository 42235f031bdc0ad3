/**
 Bit positions and the permission map over runs of the menu service: whatever configurations are
 applied and whatever buttons are created and deleted, no two rows ever hold the same bit position,
 and the permission map is never stale
 (crates/summer-domain/src/menu.rs:237-274, 298-325, 388-457, 829-836, 961-1058).
 */
module MenuBits {
  import opened Wrappers
  import opened MenuSpec
  import opened MenuSync
  import opened MenuDomain

  ghost predicate WellKeyed(rows: Table, nextId: int) {
    forall id :: id in rows ==> rows[id].id == id && id < nextId
  }

  ghost predicate BitsBelow(rows: Table, nextBit: int) {
    forall id :: id in rows && rows[id].bit.Some? ==> rows[id].bit.value < nextBit
  }

  ghost predicate BitsDistinct(rows: Table) {
    forall a, b :: a in rows && b in rows && rows[a].bit.Some? && rows[a].bit == rows[b].bit ==> a == b
  }

  // Which permission a row stands for: its kind, bit position and mark.
  predicate SameBadge(a: Row, b: Row) {
    a.kind == b.kind && a.bit == b.bit && a.authMark == b.authMark
  }

  // Rows that were there keep their badge, and new rows have new ids.
  ghost predicate Succeeds(rows0: Table, nextId0: int, rows: Table, nextId: int) {
    && nextId0 <= nextId
    && (forall id :: id in rows && id in rows0 ==> SameBadge(rows[id], rows0[id]))
    && (forall id :: id in rows && id !in rows0 ==> nextId0 <= id)
  }

  // While a configuration is applied no row goes, and the table succeeds the one before.
  ghost predicate BitInv(rows0: Table, nextId0: int, st: State) {
    && WellKeyed(st.rows, st.nextId) && BitsBelow(st.rows, st.nextBit) && BitsDistinct(st.rows)
    && rows0.Keys <= st.rows.Keys
    && Succeeds(rows0, nextId0, st.rows, st.nextId)
  }

  // Changing one row but not its badge.
  lemma BadgeKeepsBits(rows0: Table, nextId0: int, rows: Table, row: Row, nextId: int, nextBit: int)
    requires WellKeyed(rows, nextId) && BitsBelow(rows, nextBit) && BitsDistinct(rows)
    requires rows0.Keys <= rows.Keys && Succeeds(rows0, nextId0, rows, nextId)
    requires row.id in rows && SameBadge(row, rows[row.id])
    ensures var next := rows[row.id := row];
            && WellKeyed(next, nextId) && BitsBelow(next, nextBit) && BitsDistinct(next)
            && rows0.Keys <= next.Keys && Succeeds(rows0, nextId0, next, nextId)
  {
    var next := rows[row.id := row];
    assert next.Keys == rows.Keys;
    forall a, b | a in next && b in next && next[a].bit.Some? && next[a].bit == next[b].bit
      ensures a == b
    {
      assert rows[a].bit == rows[b].bit;
    }
  }

  lemma WriteKeepsBits(rows0: Table, nextId0: int, existing: seq<Row>, task: Task, st: State, row: Row)
    requires Snapshot(existing, rows0) && BitInv(rows0, nextId0, st) && row in existing
    ensures BitInv(rows0, nextId0, Write(row, task, st))
  {
    PatchKeepsPlace(row, task);
    var patched, next := Patched(row, task), Write(row, task, st);
    hide Patched, ChangedFields, BitsBelow, BitsDistinct;
    assert row.id in rows0 && row.id in st.rows && SameBadge(st.rows[row.id], row);
    assert next.rows == st.rows || next.rows == st.rows[row.id := patched];
    hide Write, Succeeds, WellKeyed;
    BadgeKeepsBits(rows0, nextId0, st.rows, patched, st.nextId, st.nextBit);
  }

  lemma InsertKeepsBits(rows0: Table, nextId0: int, task: Task, parent: int, st: State)
    requires BitInv(rows0, nextId0, st)
    ensures BitInv(rows0, nextId0, Insert(task, parent, st))
  {
    hide NewRow;
    NewRowsBit(task, st.nextId, parent, st.nextBit);
    NewRowFits(task, st.nextId, parent, st.nextBit);
    assert st.nextId !in st.rows;
  }

  lemma {:induction false} ApplyKeepsBits(rows0: Table, nextId0: int, existing: seq<Row>, tasks: seq<Task>, st: State)
    requires Snapshot(existing, rows0) && BitInv(rows0, nextId0, st)
    requires ApplyTasks(existing, tasks, st).Ok?
    ensures BitInv(rows0, nextId0, ApplyTasks(existing, tasks, st).value)
    decreases |tasks|
  {
    hide BitInv, Snapshot, Available, Write, Insert, ParentId, Matches;
    if tasks != [] {
      var task := tasks[0];
      var parent := ParentId(st.ids, task);
      var found := Find(existing, parent, task);
      if found.Some? {
        WriteKeepsBits(rows0, nextId0, existing, task, st, found.value);
      } else {
        InsertKeepsBits(rows0, nextId0, task, parent, st);
      }
      ApplyKeepsBits(rows0, nextId0, existing, tasks[1..], ApplyTask(existing, task, st).value);
    }
  }

  // ----- the permission map -----

  // What a row contributes to the permission map.
  function Grant(row: Row): Option<(string, int)> {
    if row.kind == Button && row.enabled && row.bit.Some? && row.authMark != ""
    then Some((row.authMark, row.bit.value % 0x1_0000_0000)) else None
  }

  // No row contributes anything else than before.
  ghost predicate SameGrants(rows0: Table, rows: Table) {
    && (forall id :: id in rows0 ==> id in rows && Grant(rows[id]) == Grant(rows0[id]))
    && (forall id :: id in rows && id !in rows0 ==> Grant(rows[id]) == None)
  }

  lemma SameGrantsSameMap(rows0: Table, rows: Table)
    requires SameGrants(rows0, rows)
    ensures PermissionMappings(rows) == PermissionMappings(rows0)
  {
    hide Grant;
    forall pair
      ensures pair in PermissionMappings(rows) <==> pair in PermissionMappings(rows0)
    {
      MappingsAreGrants(rows, pair);
      MappingsAreGrants(rows0, pair);
    }
  }

  lemma MappingsAreGrants(rows: Table, pair: (string, int))
    ensures pair in PermissionMappings(rows) <==> exists id :: id in rows && Grant(rows[id]) == Some(pair)
  {
    if id :| id in rows && Grant(rows[id]) == Some(pair) {
      assert pair == (rows[id].authMark, rows[id].bit.value % 0x1_0000_0000);
    }
    if pair in PermissionMappings(rows) {
      var id :| id in rows && rows[id].kind == Button && rows[id].enabled && rows[id].bit.Some?
          && rows[id].authMark != ""
        && pair == (rows[id].authMark, rows[id].bit.value % 0x1_0000_0000);
      assert Grant(rows[id]) == Some(pair);
    }
  }

  // A task that does not raise the flag changes no grant.
  lemma UnflaggedPatch(row: Row, parent: int, task: Task)
    requires Matches(row, parent, task)
    requires task.ButtonTask? ==> row.enabled == Or(task.button.enabled, true)
    ensures Grant(Patched(row, task)) == Grant(row)
  {
    hide ChangedFields, DesiredLook;
  }

  lemma MenusGrantNothing(task: Task, id: int, parent: int, bit: int)
    requires task.MenuTask?
    ensures Grant(NewRow(task, id, parent, bit)) == None
  {
    hide DesiredLook;
  }

  lemma {:induction false} UnflaggedKeepsGrants(rows0: Table, existing: seq<Row>, tasks: seq<Task>, st: State)
    requires Snapshot(existing, rows0) && WellKeyed(rows0, st.nextId) && WellKeyed(st.rows, st.nextId)
             && SameGrants(rows0, st.rows)
    requires ApplyTasks(existing, tasks, st).Ok? && !ApplyTasks(existing, tasks, st).value.permissionChanged
    ensures SameGrants(rows0, ApplyTasks(existing, tasks, st).value.rows)
    decreases |tasks|
  {
    hide Available, ParentId, Matches, Grant, Patched, NewRow, ChangedFields;
    if tasks != [] {
      var task := tasks[0];
      var parent := ParentId(st.ids, task);
      var found := Find(existing, parent, task);
      var next := ApplyTask(existing, task, st).value;
      FlagStays(existing, tasks[1..], next);
      if found.Some? {
        UnflaggedPatch(found.value, parent, task);
        PatchKeepsPlace(found.value, task);
        WriteKeepsGrants(rows0, task, st, found.value);
      } else {
        MenusGrantNothing(task, st.nextId, parent, st.nextBit);
        NewRowFits(task, st.nextId, parent, st.nextBit);
      }
      UnflaggedKeepsGrants(rows0, existing, tasks[1..], next);
    }
  }

  lemma WriteKeepsGrants(rows0: Table, task: Task, st: State, row: Row)
    requires WellKeyed(st.rows, st.nextId) && SameGrants(rows0, st.rows) && row.id in rows0 && rows0[row.id] == row
    requires Grant(Patched(row, task)) == Grant(row) && Patched(row, task).id == row.id
    ensures SameGrants(rows0, Write(row, task, st).rows) && WellKeyed(Write(row, task, st).rows, st.nextId)
  {
    hide Grant, Patched, ChangedFields;
  }

  // Once raised, the flag stays up.
  lemma {:induction false} FlagStays(existing: seq<Row>, tasks: seq<Task>, st: State)
    requires ApplyTasks(existing, tasks, st).Ok?
    ensures st.permissionChanged ==> ApplyTasks(existing, tasks, st).value.permissionChanged
    decreases |tasks|
  {
    hide Available, ParentId, Find, Patched, NewRow, ChangedFields;
    if tasks != [] {
      FlagStays(existing, tasks[1..], ApplyTask(existing, tasks[0], st).value);
    }
  }

  // ----- runs -----

  ghost predicate Reads(db: Db, call: Call) {
    call.DeleteMenuCall? || Snapshot(call.existing, db.rows)
  }

  function Run(db: Db, calls: seq<Call>): Db
    decreases |calls|
  {
    if calls == [] then db else Run(After(db, calls[0]), calls[1..])
  }

  ghost predicate ReadsAlong(db: Db, calls: seq<Call>)
    decreases |calls|
  {
    calls == [] || (Reads(db, calls[0]) && ReadsAlong(After(db, calls[0]), calls[1..]))
  }

  lemma NextIsAbove(existing: seq<Row>, rows: Table)
    requires Snapshot(existing, rows)
    ensures BitsBelow(rows, NextButtonBitPosition(existing))
  {
    hide NextButtonBitPosition;
  }

  lemma CallKeepsBits(db: Db, call: Call)
    requires Reads(db, call) && WellKeyed(db.rows, db.nextId) && BitsDistinct(db.rows)
    ensures WellKeyed(After(db, call).rows, After(db, call).nextId) && BitsDistinct(After(db, call).rows)
    ensures Succeeds(db.rows, db.nextId, After(db, call).rows, After(db, call).nextId)
  {
    hide Snapshot, Flatten, ApplyTasks, PlanTasks, ValidSpec, NextButtonBitPosition, PermissionMappings;
    match call
    case ApplyConfigCall(existing, nodes) =>
      NextIsAbove(existing, db.rows);
      var start := Start(db.rows, db.nextId, NextButtonBitPosition(existing));
      if ApplyTasks(existing, Flatten(nodes, -1, "", 0), start).Ok? {
        ApplyKeepsBits(db.rows, db.nextId, existing, Flatten(nodes, -1, "", 0), start);
      }
    case CreateButtonCall(existing, form) => NextIsAbove(existing, db.rows);
    case DeleteMenuCall(id, roleMenus) =>
  }

  lemma {:induction false} BitPositionsStayDistinct(db: Db, calls: seq<Call>)
    requires WellKeyed(db.rows, db.nextId) && BitsDistinct(db.rows) && ReadsAlong(db, calls)
    ensures WellKeyed(Run(db, calls).rows, Run(db, calls).nextId) && BitsDistinct(Run(db, calls).rows)
    decreases |calls|
  {
    hide Reads, After, WellKeyed, BitsDistinct;
    if calls != [] {
      CallKeepsBits(db, calls[0]);
      BitPositionsStayDistinct(After(db, calls[0]), calls[1..]);
    }
  }

  lemma DeletingMenusGrantsNothing(rows: Table, id: int)
    requires id in rows && rows[id].kind == Menu
    ensures PermissionMappings(rows - {id}) == PermissionMappings(rows)
  {
    hide PermissionMappings;
    var fewer := rows - {id};
    forall pair
      ensures pair in PermissionMappings(fewer) <==> pair in PermissionMappings(rows)
    {
      MappingsAreGrants(rows, pair);
      MappingsAreGrants(fewer, pair);
      assert forall other :: other in rows && Grant(rows[other]) == Some(pair) ==>
          other in fewer && Grant(fewer[other]) == Some(pair);
    }
  }

  lemma CallKeepsMapCurrent(db: Db, call: Call)
    requires Reads(db, call) && WellKeyed(db.rows, db.nextId) && db.permissions == PermissionMappings(db.rows)
    ensures After(db, call).permissions == PermissionMappings(After(db, call).rows)
  {
    hide Snapshot, Flatten, ApplyTasks, PlanTasks, ValidSpec, NextButtonBitPosition, PermissionMappings, SameGrants,
        Grant;
    match call
    case ApplyConfigCall(existing, nodes) =>
      var tasks := Flatten(nodes, -1, "", 0);
      var start := Start(db.rows, db.nextId, NextButtonBitPosition(existing));
      var end := ApplyTasks(existing, tasks, start);
      if end.Ok? && !end.value.permissionChanged {
        NoChangeSameGrants(db.rows);
        UnflaggedKeepsGrants(db.rows, existing, tasks, start);
        SameGrantsSameMap(db.rows, end.value.rows);
      }
    case CreateButtonCall(existing, form) =>
    case DeleteMenuCall(id, roleMenus) =>
      if id in db.rows && db.rows[id].kind == Menu {
        DeletingMenusGrantsNothing(db.rows, id);
      }
  }

  lemma NoChangeSameGrants(rows: Table)
    ensures SameGrants(rows, rows)
  {
  }

  // The permission map always shows the buttons of the table, although it is reloaded only when
  // a call says that permissions changed.
  lemma {:induction false} PermissionMapStaysCurrent(db: Db, calls: seq<Call>)
    requires WellKeyed(db.rows, db.nextId) && BitsDistinct(db.rows) && ReadsAlong(db, calls)
    requires db.permissions == PermissionMappings(db.rows)
    ensures Run(db, calls).permissions == PermissionMappings(Run(db, calls).rows)
    decreases |calls|
  {
    hide Reads, After, WellKeyed, BitsDistinct, PermissionMappings;
    if calls != [] {
      CallKeepsBits(db, calls[0]);
      CallKeepsMapCurrent(db, calls[0]);
      PermissionMapStaysCurrent(After(db, calls[0]), calls[1..]);
    }
  }

  // The mappings handed to the permission map never give two permissions one position.
  lemma MappingsHaveDistinctPositions(rows: Table, a: (string, int), b: (string, int))
    requires BitsDistinct(rows)
    requires forall id :: id in rows && rows[id].bit.Some? ==> 0 <= rows[id].bit.value < 0x8000_0000
    requires a in PermissionMappings(rows) && b in PermissionMappings(rows) && a.1 == b.1
    ensures a == b && 0 <= a.1 < 0x8000_0000
  {
    var i :| i in rows && rows[i].bit.Some? && a == (rows[i].authMark, rows[i].bit.value % 0x1_0000_0000);
    var j :| j in rows && rows[j].bit.Some? && b == (rows[j].authMark, rows[j].bit.value % 0x1_0000_0000);
    assert rows[i].bit == rows[j].bit;
  }

  // With positions below 2^31, a pair is granted exactly when an enabled button with that mark holds the position.
  lemma GrantedIff(rows: Table, mark: string, pos: int)
    requires forall id :: id in rows && rows[id].bit.Some? ==> 0 <= rows[id].bit.value < 0x8000_0000
    ensures (mark, pos) in PermissionMappings(rows) <==>
            exists id :: id in rows && rows[id].kind == Button && rows[id].enabled
                         && rows[id].authMark == mark != "" && rows[id].bit == Some(pos)
  {
    hide PermissionMappings;
    MappingsAreGrants(rows, (mark, pos));
    forall id | id in rows && rows[id].kind == Button && rows[id].enabled && rows[id].authMark == mark != ""
        && rows[id].bit == Some(pos)
      ensures Grant(rows[id]) == Some((mark, pos))
    {
    }
  }

  // After any run the permission map grants a marked button exactly while it is enabled.
  lemma GrantedWhileEnabled(db: Db, calls: seq<Call>, id: int)
    requires WellKeyed(db.rows, db.nextId) && BitsDistinct(db.rows) && ReadsAlong(db, calls)
    requires db.permissions == PermissionMappings(db.rows)
    requires var rows := Run(db, calls).rows;
             && (forall other :: other in rows && rows[other].bit.Some? ==> 0 <= rows[other].bit.value < 0x8000_0000)
             && id in rows && rows[id].kind == Button && rows[id].bit.Some? && rows[id].authMark != ""
    ensures var end := Run(db, calls); var row := end.rows[id];
            (row.authMark, row.bit.value) in end.permissions <==> row.enabled
  {
    hide Run, PermissionMappings, ReadsAlong, WellKeyed;
    PermissionMapStaysCurrent(db, calls);
    BitPositionsStayDistinct(db, calls);
    var rows := Run(db, calls).rows;
    GrantedIff(rows, rows[id].authMark, rows[id].bit.value);
  }
}
