/**
 What stands in the table after a menu configuration was applied, field by field: each specified menu and
 button has its row below its parent's row, with the values it asks for and the defaults where it asks for
 none (crates/summer-domain/src/menu.rs:68-140, 690-775, 885-1058).
 */
module MenuFields {
  import opened Wrappers
  import opened SyncPlanModel
  import opened MenuSpec
  import opened MenuTasks
  import opened MenuSync

  // The value asked for, or the default when nothing is asked for.
  ghost predicate Stored<T>(value: T, asked: Option<T>, default: T) {
    match asked
    case Some(v) => value == v
    case None => value == default
  }

  ghost predicate HoldsMenu(row: Row, node: MenuNode) {
    && row.kind == Menu && row.name == node.name && row.path == node.path && row.title == node.title
    && Stored(row.look.component, node.component, "") && Stored(row.look.redirect, node.redirect, "")
    && Stored(row.look.icon, node.icon, "") && Stored(row.look.link, node.link, "")
    && Stored(row.look.isIframe, node.isIframe, false) && Stored(row.look.isHide, node.isHide, false)
    && Stored(row.look.isHideTab, node.isHideTab, false) && Stored(row.look.isFullPage, node.isFullPage, false)
    && Stored(row.look.isFirstLevel, node.isFirstLevel, false) && Stored(row.look.keepAlive, node.keepAlive, false)
    && Stored(row.look.fixedTab, node.fixedTab, false) && Stored(row.look.showBadge, node.showBadge, false)
    && Stored(row.look.showTextBadge, node.showTextBadge, "") && Stored(row.look.activePath, node.activePath, "")
    && Stored(row.sort, node.sort, 0) && Stored(row.enabled, node.enabled, true)
  }

  ghost predicate HoldsButton(row: Row, button: MenuButton) {
    && row.kind == Button && row.authName == button.authName && row.authMark == button.authMark
    && Stored(row.sort, button.sort, 0) && Stored(row.enabled, button.enabled, true)
  }

  ghost predicate Holds(row: Row, task: Task) {
    match task
    case MenuTask(_, _, node) => HoldsMenu(row, node)
    case ButtonTask(_, _, button) => HoldsButton(row, button)
  }

  // ----- one row -----

  lemma StoredIsOr()
    ensures forall v: string, asked: Option<string>, d :: Stored(v, asked, d) <==> v == Or(asked, d)
    ensures forall v: bool, asked: Option<bool>, d :: Stored(v, asked, d) <==> v == Or(asked, d)
    ensures forall v: int, asked: Option<int>, d :: Stored(v, asked, d) <==> v == Or(asked, d)
  {
  }

  lemma MenuHolds(row: Row, node: MenuNode)
    ensures HoldsMenu(row, node) <==>
            && row.kind == Menu && row.path == node.path && row.name == node.name && row.title == node.title
            && row.look == DesiredLook(node) && row.sort == Or(node.sort, 0) && row.enabled == Or(node.enabled, true)
  {
    StoredIsOr();
    hide Stored, Or;
  }

  lemma ButtonHolds(row: Row, button: MenuButton)
    ensures HoldsButton(row, button) <==>
            row.kind == Button && row.authMark == button.authMark && ButtonChangedFields(row, button) == []
  {
    ButtonFieldsSettle(row, button);
  }

  // A row in its task's place holds what the task asks for exactly when no field differs.
  lemma HoldsIffNothingDiffers(row: Row, task: Task)
    requires Matches(row, row.parent, task)
    ensures Holds(row, task) <==> ChangedFields(row, task) == []
  {
    hide HoldsMenu, HoldsButton, MenuChangedFields, ButtonChangedFields, DesiredLook;
    match task
    case MenuTask(_, _, node) =>
      MenuFieldsSettle(row, node);
      MenuHolds(row, node);
    case ButtonTask(_, _, button) =>
      ButtonHolds(row, button);
  }

  lemma DoneHolds(rows0: Table, nextId0: int, task: Task, ids: seq<int>, id: int, rows: Table)
    requires Done(rows0, nextId0, task, ids, id, rows) && ValidTable(rows0, nextId0)
    ensures id in rows && rows[id].parent == ParentId(ids, task) && Holds(rows[id], task)
  {
    var row, parent := rows[id], ParentId(ids, task);
    if id in rows0 {
      PatchKeepsPlace(rows0[id], task);
      PatchSettles(rows0[id], task);
    } else {
      NewRowFits(task, id, parent, Or(row.bit, 0));
    }
    hide Matches, Patched, NewRow, ChangedFields, Holds, ParentId, Clashes;
    assert Matches(row, row.parent, task) by { PlaceOf(row, parent, task); }
    HoldsIffNothingDiffers(row, task);
  }

  lemma PlaceOf(row: Row, parent: int, task: Task)
    requires Matches(row, parent, task)
    ensures row.parent == parent
  {
  }

  // ----- the tree -----

  ghost predicate HasButtons(rows: Table, parentId: int, buttons: seq<MenuButton>) {
    forall button :: button in buttons ==>
      exists id :: id in rows && rows[id].parent == parentId && HoldsButton(rows[id], button)
  }

  ghost predicate HasMenu(rows: Table, parentId: int, node: MenuNode)
    decreases node, 0
  {
    exists id :: id in rows && rows[id].parent == parentId && HoldsMenu(rows[id], node)
                 && HasButtons(rows, id, node.buttons) && HasTree(rows, id, node.children)
  }

  // Every menu of the tree has its row below the row of its parent, and so has every button.
  ghost predicate HasTree(rows: Table, parentId: int, nodes: seq<MenuNode>)
    decreases nodes, 1
  {
    forall i :: 0 <= i < |nodes| ==> HasMenu(rows, parentId, nodes[i])
  }

  // The row of the k-th task.
  ghost predicate TaskStored(rows: Table, ids: seq<int>, task: Task, id: int) {
    id in rows && rows[id].parent == ParentId(ids, task) && Holds(rows[id], task)
  }

  // The tasks from `start` on stand in their rows.
  ghost predicate RangeStored(rows: Table, ids: seq<int>, tasks: seq<Task>, start: nat) {
    start + |tasks| <= |ids| && forall k :: 0 <= k < |tasks| ==> TaskStored(rows, ids, tasks[k], ids[start + k])
  }

  lemma RangeSplits(rows: Table, ids: seq<int>, a: seq<Task>, b: seq<Task>, start: nat)
    requires RangeStored(rows, ids, a + b, start)
    ensures RangeStored(rows, ids, a, start) && RangeStored(rows, ids, b, start + |a|)
  {
    hide TaskStored;
    forall k | 0 <= k < |a|
      ensures TaskStored(rows, ids, a[k], ids[start + k])
    {
      assert (a + b)[k] == a[k];
    }
    forall k | 0 <= k < |b|
      ensures TaskStored(rows, ids, b[k], ids[start + |a| + k])
    {
      assert (a + b)[|a| + k] == b[k] && ids[start + (|a| + k)] == ids[start + |a| + k];
    }
  }

  lemma ButtonsStored(rows: Table, ids: seq<int>, buttons: seq<MenuButton>, key: string, parent: nat, start: nat)
    requires parent < |ids| && RangeStored(rows, ids, ButtonTasks(buttons, key, parent), start)
    ensures HasButtons(rows, ids[parent], buttons)
  {
    var tasks := ButtonTasks(buttons, key, parent);
    forall button | button in buttons
      ensures exists id :: id in rows && rows[id].parent == ids[parent] && HoldsButton(rows[id], button)
    {
      var i :| 0 <= i < |buttons| && buttons[i] == button;
      assert TaskStored(rows, ids, tasks[i], ids[start + i]);
    }
  }

  lemma {:induction false} NodeStored(
      rows: Table, ids: seq<int>, node: MenuNode, parent: int, key: string, start: nat)
    requires parent < |ids| && RangeStored(rows, ids, NodeTasks(node, parent, key, start), start)
    ensures HasMenu(rows, if parent >= 0 then ids[parent] else 0, node)
    decreases node, 0
  {
    hide HoldsMenu, HasButtons, HasTree, Flatten, ButtonTasks;
    var first := [MenuTask(key, parent, node)];
    var buttons := ButtonTasks(node.buttons, key, start);
    var below := Flatten(node.children, start, key, start + 1 + |node.buttons|);
    RangeSplits(rows, ids, first + buttons, below, start);
    RangeSplits(rows, ids, first, buttons, start);
    assert TaskStored(rows, ids, first[0], ids[start + 0]);
    ButtonsStored(rows, ids, node.buttons, key, start, start + 1);
    FlattenStored(rows, ids, node.children, start, key, start + 1 + |node.buttons|);
  }

  lemma {:induction false} FlattenStored(
      rows: Table, ids: seq<int>, nodes: seq<MenuNode>, parent: int, key: string, start: nat)
    requires parent < |ids| && RangeStored(rows, ids, Flatten(nodes, parent, key, start), start)
    ensures HasTree(rows, if parent >= 0 then ids[parent] else 0, nodes)
    decreases nodes, 1
  {
    hide HasMenu, NodeTasks, MenuKey, RangeStored;
    if nodes != [] {
      var own := NodeTasks(nodes[0], parent, MenuKey(key, nodes[0].path, nodes[0].name), start);
      RangeSplits(rows, ids, own, Flatten(nodes[1..], parent, key, start + |own|), start);
      NodeStored(rows, ids, nodes[0], parent, MenuKey(key, nodes[0].path, nodes[0].name), start);
      FlattenStored(rows, ids, nodes[1..], parent, key, start + |own|);
      assert forall i :: 0 < i < |nodes| ==> nodes[i] == nodes[1..][i - 1];
    }
  }

  // After a successful application of a valid configuration its whole tree stands in the table, from the
  // root 0 down, each field as asked for or by default.
  lemma AppliedTreeIsStored(rows0: Table, nextId0: int, nextBit: int, existing: seq<Row>, nodes: seq<MenuNode>)
    requires ValidTable(rows0, nextId0) && Snapshot(existing, rows0) && ValidSpec(nodes)
    requires ApplyTasks(existing, Flatten(nodes, -1, "", 0), Start(rows0, nextId0, nextBit)).Ok?
    ensures var end := ApplyTasks(existing, Flatten(nodes, -1, "", 0), Start(rows0, nextId0, nextBit)).value;
            HasTree(end.rows, 0, nodes)
  {
    hide ValidTable, Snapshot, ValidSpec, Flatten, ValidTasks, Inv, ApplyTasks, Start, HasTree, TaskStored, PlanTasks,
      Done, ListsOrigins;
    var tasks := Flatten(nodes, -1, "", 0);
    ValidSpecGivesValidTasks(nodes);
    StartMeetsPlan(rows0, nextId0, nextBit, existing, tasks);
    var end := ApplyTasks(existing, tasks, Start(rows0, nextId0, nextBit)).value;
    forall k | 0 <= k < |tasks|
      ensures TaskStored(end.rows, end.ids, tasks[k], end.ids[0 + k])
    {
      StoredAt(rows0, nextId0, tasks, end, k);
    }
    FlattenStored(end.rows, end.ids, nodes, -1, "", 0);
  }

  lemma StoredAt(rows0: Table, nextId0: int, tasks: seq<Task>, end: State, k: nat)
    requires ValidTable(rows0, nextId0) && Inv(rows0, nextId0, tasks, end) && k < |end.ids| <= |tasks|
    ensures TaskStored(end.rows, end.ids, tasks[k], end.ids[k])
  {
    hide Done, Inv, Holds;
    InvDone(rows0, nextId0, tasks, end, k);
    DoneHolds(rows0, nextId0, tasks[k], end.ids, end.ids[k], end.rows);
  }

  // ----- what is not asked for -----

  ghost predicate IsPlain(look: Look) {
    && look.component == look.redirect == look.icon == look.link == look.showTextBadge == look.activePath == ""
    && !look.isIframe && !look.isHide && !look.isHideTab && !look.isFullPage && !look.isFirstLevel && !look.keepAlive
    && !look.fixedTab && !look.showBadge
  }

  // An old row keeps what its task does not ask for; the title of a button follows its name only when
  // some field is written.
  ghost predicate KeepsRest(was: Row, now: Row, task: Task) {
    && now.id == was.id && now.bit == was.bit && now.authMark == was.authMark
    && match task
       case MenuTask(_, _, _) => now.authName == was.authName
       case ButtonTask(_, _, button) =>
         && now.name == was.name && now.path == was.path && now.look == was.look
         && now.title == if HoldsButton(was, button) then was.title else button.authName
  }

  // A new row has nothing but what is asked for, and a bit position when it is a button.
  ghost predicate HasNoMore(row: Row, id: int, task: Task) {
    && row.id == id
    && match task
       case MenuTask(_, _, _) => row.authName == "" && row.authMark == "" && row.bit == None
       case ButtonTask(_, _, button) =>
         row.name == "" && row.path == "" && row.title == button.authName && IsPlain(row.look) && row.bit.Some?
  }

  lemma PatchKeepsRest(row: Row, parent: int, task: Task)
    requires Matches(row, parent, task)
    ensures KeepsRest(row, Patched(row, task), task)
  {
    PatchKeepsPlace(row, task);
    if task.ButtonTask? {
      ButtonHolds(row, task.button);
    }
    hide MenuChangedFields, DesiredLook, HoldsButton;
  }

  lemma NewRowHasNoMore(task: Task, id: int, parent: int, bit: int)
    ensures HasNoMore(NewRow(task, id, parent, bit), id, task)
  {
    hide DesiredLook;
  }

  lemma RestAfterApply(rows0: Table, nextId0: int, tasks: seq<Task>, end: State, k: nat)
    requires ValidTable(rows0, nextId0) && Inv(rows0, nextId0, tasks, end) && k < |end.ids| <= |tasks|
    ensures var id := end.ids[k];
            && id in end.rows
            && if id in rows0 then KeepsRest(rows0[id], end.rows[id], tasks[k])
               else HasNoMore(end.rows[id], id, tasks[k])
  {
    hide Inv, Matches, Patched, NewRow, Clashes, KeepsRest, HasNoMore, ParentId;
    InvDone(rows0, nextId0, tasks, end, k);
    var id, parent := end.ids[k], ParentId(end.ids, tasks[k]);
    if id in rows0 {
      PatchKeepsRest(rows0[id], parent, tasks[k]);
    } else {
      NewRowHasNoMore(tasks[k], id, parent, Or(end.rows[id].bit, 0));
    }
  }

  // ----- the fields that a plan lists -----

  // The fields of an existing menu in the order of a plan, with whether the row holds something else there.
  ghost function MenuDifferences(row: Row, node: MenuNode): seq<(bool, string)> {
    [(row.name != node.name, "name"), (row.title != node.title, "title"),
     (!Stored(row.look.component, node.component, ""), "component"),
     (!Stored(row.look.redirect, node.redirect, ""), "redirect"), (!Stored(row.look.icon, node.icon, ""), "icon"),
     (!Stored(row.look.link, node.link, ""), "link"), (!Stored(row.look.isIframe, node.isIframe, false), "is_iframe"),
     (!Stored(row.look.isHide, node.isHide, false), "is_hide"),
     (!Stored(row.look.isHideTab, node.isHideTab, false), "is_hide_tab"),
     (!Stored(row.look.isFullPage, node.isFullPage, false), "is_full_page"),
     (!Stored(row.look.isFirstLevel, node.isFirstLevel, false), "is_first_level"),
     (!Stored(row.look.keepAlive, node.keepAlive, false), "keep_alive"),
     (!Stored(row.look.fixedTab, node.fixedTab, false), "fixed_tab"),
     (!Stored(row.look.showBadge, node.showBadge, false), "show_badge"),
     (!Stored(row.look.showTextBadge, node.showTextBadge, ""), "show_text_badge"),
     (!Stored(row.look.activePath, node.activePath, ""), "active_path"), (!Stored(row.sort, node.sort, 0), "sort"),
     (!Stored(row.enabled, node.enabled, true), "enabled")]
  }

  ghost function ButtonDifferences(row: Row, button: MenuButton): seq<(bool, string)> {
    [(row.authName != button.authName, "auth_name"), (!Stored(row.sort, button.sort, 0), "sort"),
     (!Stored(row.enabled, button.enabled, true), "enabled")]
  }

  // A plan lists the fields in which the row differs, in this order, and no others.
  ghost predicate ListsDifferences(fields: seq<string>, differences: seq<(bool, string)>) {
    if differences == [] then fields == []
    else if differences[0].0 then
      fields != [] && fields[0] == differences[0].1 && ListsDifferences(fields[1..], differences[1..])
    else ListsDifferences(fields, differences[1..])
  }

  lemma {:induction false} DifferingIsListed(checks: seq<Check>)
    ensures ListsDifferences(Differing(checks), checks)
  {
    if checks != [] {
      DifferingIsListed(checks[1..]);
    }
  }

  lemma ChecksAreDifferences(row: Row, node: MenuNode)
    ensures MenuChecks(row, node) == MenuDifferences(row, node)
  {
    StoredIsOr();
    hide Stored, Or;
  }

  lemma FieldsAreListed(row: Row, task: Task)
    ensures ListsDifferences(
              ChangedFields(row, task),
              match task
              case MenuTask(_, _, node) => MenuDifferences(row, node)
              case ButtonTask(_, _, button) => ButtonDifferences(row, button))
  {
    hide MenuChecks, MenuDifferences, ListsDifferences, Differing;
    match task
    case MenuTask(_, _, node) =>
      ChecksAreDifferences(row, node);
      DifferingIsListed(MenuChecks(row, node));
    case ButtonTask(_, _, button) =>
      StoredIsOr();
      DifferingIsListed(ButtonChecks(row, button));
  }

  // The change of a task: what it is about, and as an update or nothing the fields that differ, or as a
  // creation every field there is.
  lemma ChangeDescribes(row: Option<Row>, task: Task, other: Row)
    ensures var change := Change(row, task);
            var differences := match task
              case MenuTask(_, _, node) => MenuDifferences(if row.Some? then row.value else other, node)
              case ButtonTask(_, _, button) => ButtonDifferences(if row.Some? then row.value else other, button);
            && change.target == (if task.MenuTask? then "menu" else "button") && change.key == task.key
            && (row.None? ==>
                  && change.action == Create && |change.fields| == |differences|
                  && forall k :: 0 <= k < |differences| ==> change.fields[k] == differences[k].1)
            && (row.Some? ==>
                  && ListsDifferences(change.fields, differences)
                  && change.action == if change.fields == [] then Noop else Update)
  {
    if row.Some? {
      FieldsAreListed(row.value, task);
    }
    hide ChangedFields, ListsDifferences, Stored;
  }
}
