/**
 The menu domain service (crates/summer-domain/src/menu.rs:225-325, 388-457, 530-615, 829-1058).
 The rows of the menu table are a field of the service; a transaction that fails puts them back.
 Where the program reads the table, the rows it got are a parameter: any reading of the field.
 */
module MenuDomain {
  import opened Wrappers
  import opened SyncPlanModel
  import opened MenuSpec
  import opened MenuSync
  import opened MenuPlanning
  import opened MenuValidation

  type Applied = Result<State, MenuError>

  // ----- task lists in pieces -----

  lemma {:induction false} ApplyAppend(existing: seq<Row>, a: seq<Task>, b: seq<Task>, st: State)
    ensures var first := ApplyTasks(existing, a, st);
            ApplyTasks(existing, a + b, st) == if first.Err? then first else ApplyTasks(existing, b, first.value)
    decreases |a|
  {
    hide ApplyTask;
    if a == [] {
      assert a + b == b;
    } else {
      assert (a + b)[1..] == a[1..] + b;
      var first := ApplyTask(existing, a[0], st);
      if first.Ok? {
        ApplyAppend(existing, a[1..], b, first.value);
      }
    }
  }

  lemma {:induction false} ApplyAddsIds(existing: seq<Row>, tasks: seq<Task>, st: State)
    requires ApplyTasks(existing, tasks, st).Ok?
    ensures var end := ApplyTasks(existing, tasks, st).value;
            |end.ids| == |st.ids| + |tasks| && st.ids <= end.ids
    decreases |tasks|
  {
    hide Available, Find, ChangedFields, Patched, NewRow, ParentId;
    if tasks != [] {
      ApplyAddsIds(existing, tasks[1..], ApplyTask(existing, tasks[0], st).value);
    }
  }

  function OrFlag(r: Applied, flag: bool): Applied {
    if r.Err? then r else Ok(r.value.(permissionChanged := flag || r.value.permissionChanged))
  }

  lemma {:induction false} FlagsAccumulate(existing: seq<Row>, tasks: seq<Task>, st: State, flag: bool)
    ensures ApplyTasks(existing, tasks, st.(permissionChanged := flag || st.permissionChanged)) ==
            OrFlag(ApplyTasks(existing, tasks, st), flag)
    decreases |tasks|
  {
    hide Available, Find, ChangedFields, Patched, NewRow, ParentId;
    if tasks != [] {
      var first := ApplyTask(existing, tasks[0], st);
      if first.Ok? {
        FlagsAccumulate(existing, tasks[1..], first.value, flag);
      }
    }
  }

  // A call made with a fresh flag, its answer or-ed into the caller's.
  lemma CallAccumulates(existing: seq<Row>, tasks: seq<Task>, st: State)
    ensures ApplyTasks(existing, tasks, st) ==
            OrFlag(ApplyTasks(existing, tasks, st.(permissionChanged := false)), st.permissionChanged)
  {
    FlagsAccumulate(existing, tasks, st.(permissionChanged := false), st.permissionChanged);
    assert st.(permissionChanged := false).(permissionChanged := st.permissionChanged || false) == st;
  }

  lemma ApplyOne(existing: seq<Row>, tasks: seq<Task>, i: nat, st: State)
    requires i < |tasks|
    ensures var first := ApplyTask(existing, tasks[i], st);
            ApplyTasks(existing, tasks[i..], st) ==
            if first.Err? then first else ApplyTasks(existing, tasks[i + 1..], first.value)
  {
    hide ApplyTask;
    assert tasks[i..][0] == tasks[i] && tasks[i..][1..] == tasks[i + 1..];
  }

  // The tasks of a node under its row: the node itself, then buttons, then children.
  lemma ApplyNode(existing: seq<Row>, node: MenuNode, parent: int, key: string, st: State)
    ensures var n: nat := |st.ids|;
            var first := ApplyTask(existing, MenuTask(key, parent, node), st);
            var buttons := ButtonTasks(node.buttons, key, n);
            var below := Flatten(node.children, n, key, n + 1 + |node.buttons|);
            ApplyTasks(existing, NodeTasks(node, parent, key, n), st) ==
            if first.Err? then first
            else
              var second := ApplyTasks(existing, buttons, first.value);
              if second.Err? then second else ApplyTasks(existing, below, second.value)
  {
    hide ApplyTask, Flatten, ButtonTasks;
    var n: nat := |st.ids|;
    var task := MenuTask(key, parent, node);
    var buttons := ButtonTasks(node.buttons, key, n);
    var below := Flatten(node.children, n, key, n + 1 + |node.buttons|);
    ApplyAppend(existing, [task] + buttons, below, st);
    ApplyAppend(existing, [task], buttons, st);
    assert [task][1..] == [];
  }

  // The empty list of tasks.
  lemma ApplyNone(existing: seq<Row>, st: State)
    ensures ApplyTasks(existing, [], st) == Ok(st)
  {
  }

  // ----- what a call does to the table and to the permission map -----

  datatype Db = Db(rows: Table, nextId: int, permissions: set<(string, int)>)

  // What a call reads, and its arguments.
  datatype Call =
    | ApplyConfigCall(existing: seq<Row>, nodes: seq<MenuNode>)
    | CreateButtonCall(existing: seq<Row>, form: Row)
    | DeleteMenuCall(id: int, roleMenus: set<int>)

  function ButtonRow(form: Row, id: int, bit: int): Row { form.(id := id, kind := Button, bit := Some(bit)) }

  // Enabled buttons with a mark and a bit position; the position is read as a u32.
  function PermissionMappings(rows: Table): set<(string, int)> {
    set id | id in rows && rows[id].kind == Button && rows[id].enabled && rows[id].bit.Some? && rows[id].authMark != ""
      :: (rows[id].authMark, rows[id].bit.value % 0x1_0000_0000)
  }

  function After(db: Db, call: Call): Db {
    match call
    case ApplyConfigCall(existing, nodes) =>
      var tasks := Flatten(nodes, -1, "", 0);
      var end := ApplyTasks(existing, tasks, Start(db.rows, db.nextId, NextButtonBitPosition(existing)));
      if !ValidSpec(nodes) || PlanTasks(existing, tasks, []).Err? || end.Err? then db
      else
        Db(end.value.rows, end.value.nextId,
           if end.value.permissionChanged then PermissionMappings(end.value.rows) else db.permissions)
    case CreateButtonCall(existing, form) =>
      if form.parent !in db.rows then db
      else
        var rows := db.rows[db.nextId := ButtonRow(form, db.nextId, NextButtonBitPosition(existing))];
        Db(rows, db.nextId + 1, PermissionMappings(rows))
    case DeleteMenuCall(id, roleMenus) =>
      if id in db.rows && id !in roleMenus && forall other :: other in db.rows ==> db.rows[other].parent != id
      then
        var rows := db.rows - {id};
        Db(rows, db.nextId, if db.rows[id].kind == Button then PermissionMappings(rows) else db.permissions)
      else db
  }

  // ----- the service -----

  class MenuDomainService {
    var rows: Table
    var nextId: int
    var roleMenus: set<int>                 // menus that some role holds
    var permissionMap: set<(string, int)>   // what the permission map sink was given last

    constructor (rows: Table, nextId: int, roleMenus: set<int>)
      ensures this.rows == rows && this.nextId == nextId && this.roleMenus == roleMenus
      ensures permissionMap == {}
    {
      this.rows, this.nextId, this.roleMenus, permissionMap := rows, nextId, roleMenus, {};
    }

    function AsDb(): Db
      reads this
    {
      Db(rows, nextId, permissionMap)
    }

    ghost function StateWith(bit: int, ids: seq<int>, changed: bool): State
      reads this
    {
      State(rows, nextId, bit, ids, changed)
    }

    // A call's answer and the table agree with what the task list gives.
    ghost predicate Follows(spec: Applied, answer: Result<bool, MenuError>, bit: int, ids: seq<int>)
      reads this
    {
      if spec.Err? then answer == Err(spec.error)
      else answer.Ok? && spec.value == StateWith(bit, ids, answer.value)
    }

    // ----- writing rows -----

    method InsertRow(row: Row) returns (id: int)
      modifies this`rows, this`nextId
      ensures id == old(nextId) && nextId == id + 1
      ensures rows == old(rows)[id := row.(id := id)]
    {
      id := nextId;
      rows := rows[id := row.(id := id)];
      nextId := nextId + 1;
    }

    method ApplyExistingMenu(row: Row, node: MenuNode)
      modifies this`rows
      ensures rows == if MenuChangedFields(row, node) == [] then old(rows)
                      else old(rows)[row.id := Patched(row, MenuTask("", 0, node))]
    {
      hide DesiredLook;
      if MenuChangedFields(row, node) == [] {
        return;
      }
      rows := rows[row.id :=
        row.(name := node.name, title := node.title, look := DesiredLook(node), sort := Or(node.sort, 0),
             enabled := Or(node.enabled, true))];
    }

    method CreateMenuFromSpec(parentId: int, node: MenuNode) returns (id: int)
      modifies this`rows, this`nextId
      ensures id == old(nextId) && nextId == id + 1
      ensures rows == old(rows)[id := NewRow(MenuTask("", 0, node), id, parentId, 0)]
    {
      hide DesiredLook;
      id := InsertRow(Row(0, parentId, Menu, node.path, node.name, node.title, DesiredLook(node), "", "", None,
                          Or(node.sort, 0), Or(node.enabled, true)));
    }

    method ApplyExistingButton(row: Row, button: MenuButton) returns (changed: bool)
      modifies this`rows
      ensures changed == (row.enabled != Or(button.enabled, true))
      ensures rows == if ButtonChangedFields(row, button) == [] then old(rows)
                      else old(rows)[row.id := Patched(row, ButtonTask("", 0, button))]
    {
      ButtonFieldsSettle(row, button);
      if ButtonChangedFields(row, button) == [] {
        return false;
      }
      changed := row.enabled != Or(button.enabled, true);
      rows := rows[row.id :=
        row.(authName := button.authName, title := button.authName, sort := Or(button.sort, 0),
             enabled := Or(button.enabled, true))];
    }

    method CreateButtonFromSpec(parentId: int, button: MenuButton, bit: int) returns (nextBit: int)
      modifies this`rows, this`nextId
      ensures nextBit == bit + 1 && nextId == old(nextId) + 1
      ensures rows == old(rows)[old(nextId) := NewRow(ButtonTask("", 0, button), old(nextId), parentId, bit)]
    {
      var _ := InsertRow(Row(0, parentId, Button, "", "", button.authName, PLAIN_LOOK, button.authName, button.authMark,
                             Some(bit), Or(button.sort, 0), Or(button.enabled, true)));
      nextBit := bit + 1;
    }

    method ApplyButtonSpecs(existing: seq<Row>, parentId: int, buttons: seq<MenuButton>, bit: int,
                            ghost parent: nat, ghost key: string, ghost ids: seq<int>)
      returns (answer: Result<bool, MenuError>, nextBit: int, ghost ids': seq<int>)
      requires parent < |ids| && ids[parent] == parentId
      modifies this`rows, this`nextId
      ensures Follows(ApplyTasks(existing, ButtonTasks(buttons, key, parent), old(StateWith(bit, ids, false))),
                answer, nextBit, ids')
    {
      hide ApplyTasks, Available, Find, ApplyTask;
      ghost var tasks := ButtonTasks(buttons, key, parent);
      ghost var start := StateWith(bit, ids, false);
      var changed := false;
      nextBit, ids' := bit, ids;
      assert tasks[0..] == tasks;
      for i := 0 to |buttons|
        invariant ids <= ids'
        invariant ApplyTasks(existing, tasks, start) ==
                  ApplyTasks(existing, tasks[i..], StateWith(nextBit, ids', changed))
      {
        var button := buttons[i];
        ghost var task, st := tasks[i], StateWith(nextBit, ids', changed);
        ApplyOne(existing, tasks, i, st);
        ButtonTurn(existing, parentId, task, st);
        var found := Find(existing, parentId, ButtonTask("", 0, button));
        if !Available(existing, IdOf(found), ButtonTask("", 0, button)) {
          return Err(MarkTaken(button.authMark)), nextBit, ids';
        }
        if found.Some? {
          var now := ApplyExistingButton(found.value, button);
          changed := changed || now;
          ids' := ids' + [found.value.id];
        } else {
          ids' := ids' + [nextId];
          nextBit := CreateButtonFromSpec(parentId, button, nextBit);
          changed := true;
        }
      }
      assert tasks[|buttons|..] == [];
      ApplyNone(existing, StateWith(nextBit, ids', changed));
      answer := Ok(changed);
    }

    // The row of one menu: found and brought up to date, or created.
    method ApplyMenuRow(
        existing: seq<Row>, parentId: int, node: MenuNode, bit: int, ghost task: Task, ghost ids: seq<int>)
      returns (menuId: Result<int, MenuError>)
      requires task.MenuTask? && task.node == node && ParentId(ids, task) == parentId
      modifies this`rows, this`nextId
      ensures forall changed ::
                var spec := ApplyTask(existing, task, old(StateWith(bit, ids, changed)));
                if spec.Err? then menuId == Err(spec.error)
                else menuId.Ok? && spec.value == StateWith(bit, ids + [menuId.value], changed)
    {
      hide Available, Find, ApplyTask, Patched, NewRow, MenuChangedFields;
      forall changed {
        MenuTurn(existing, parentId, task, StateWith(bit, ids, changed));
      }
      var found := Find(existing, parentId, MenuTask("", 0, node));
      if !Available(existing, IdOf(found), MenuTask("", 0, node)) {
        return Err(NameTaken(node.name));
      }
      if found.Some? {
        ApplyExistingMenu(found.value, node);
        return Ok(found.value.id);
      }
      MenusTakeNoBit(node, nextId, parentId, bit);
      var id := CreateMenuFromSpec(parentId, node);
      return Ok(id);
    }

    method ApplyMenuNodes(existing: seq<Row>, parentId: int, parentKey: string, nodes: seq<MenuNode>, bit: int,
                          ghost parent: int, ghost ids: seq<int>)
      returns (answer: Result<bool, MenuError>, nextBit: int, ghost ids': seq<int>)
      requires parent < |ids| && parentId == if parent >= 0 then ids[parent] else 0
      modifies this`rows, this`nextId
      ensures Follows(ApplyTasks(existing, Flatten(nodes, parent, parentKey, |ids|), old(StateWith(bit, ids, false))),
                answer, nextBit, ids')
      decreases nodes
    {
      hide ApplyTasks, Available, Find, ApplyTask, Flatten, NodeTasks, MenuKey, ButtonTasks, Patched, NewRow,
          MenuChangedFields;
      ghost var all := Flatten(nodes, parent, parentKey, |ids|);
      ghost var start := StateWith(bit, ids, false);
      var changed := false;
      nextBit, ids' := bit, ids;
      assert nodes[0..] == nodes;
      var i := 0;
      while i < |nodes|
        invariant 0 <= i <= |nodes|
        invariant ids <= ids'
        invariant ApplyTasks(existing, all, start) ==
                  ApplyTasks(
                    existing, Flatten(nodes[i..], parent, parentKey, |ids'|), StateWith(nextBit, ids', changed))
      {
        var node := nodes[i];
        var key := MenuKey(parentKey, node.path, node.name);
        ghost var n: nat, st := |ids'|, StateWith(nextBit, ids', changed);
        ghost var own := NodeTasks(node, parent, key, n);
        ghost var task := MenuTask(key, parent, node);
        FlattenFirst(nodes, i, parent, parentKey, n);
        ApplyAppend(existing, own, Flatten(nodes[i + 1..], parent, parentKey, n + |own|), st);
        ApplyNode(existing, node, parent, key, st);
        var applied := ApplyMenuRow(existing, parentId, node, nextBit, task, ids');
        if applied.Err? {
          return Err(applied.error), nextBit, ids';
        }
        var menuId := applied.value;
        ids' := ids' + [menuId];
        ghost var first := StateWith(nextBit, ids', changed);
        assert ApplyTask(existing, task, st) == Ok(first);
        var onButtons, onChildren;
        CallAccumulates(existing, ButtonTasks(node.buttons, key, n), first);
        onButtons, nextBit, ids' := ApplyButtonSpecs(existing, menuId, node.buttons, nextBit, n, key, ids');
        if onButtons.Err? {
          return onButtons, nextBit, ids';
        }
        changed := changed || onButtons.value;
        ghost var second := StateWith(nextBit, ids', changed);
        ButtonIds(existing, node.buttons, key, n, first);
        ghost var below := Flatten(node.children, n, key, |ids'|);
        CallAccumulates(existing, below, second);
        onChildren, nextBit, ids' := ApplyMenuNodes(existing, menuId, key, node.children, nextBit, n, ids');
        if onChildren.Err? {
          return onChildren, nextBit, ids';
        }
        changed := changed || onChildren.value;
        ApplyAddsIds(existing, own, st);
        i := i + 1;
      }
      assert nodes[i..] == [];
      FlattenNothing(parent, parentKey, |ids'|);
      ApplyNone(existing, StateWith(nextBit, ids', changed));
      answer := Ok(changed);
    }

    // ----- the whole configuration -----

    // The plan of a configuration, without applying it.
    method PlanMenuConfig(existing: seq<Row>, nodes: seq<MenuNode>) returns (result: Result<SyncPlan, MenuError>)
      ensures !ValidSpec(nodes) ==> result.Err?
      ensures ValidSpec(nodes) ==>
                var plan := PlanTasks(existing, Flatten(nodes, -1, "", 0), []);
                if plan.Err? then result == Err(plan.error) else result.Ok? && result.value.changes == plan.value
    {
      hide Flatten, PlanTasks, ValidSpec;
      var invalid := ValidateMenuConfigSpec(nodes);
      if invalid.Some? {
        return Err(invalid.value);
      }
      var planned := PlanMenuNodes(existing, 0, "", nodes, [], -1, []);
      ContinueTwice([], [], PlanTasks(existing, Flatten(nodes, -1, "", 0), []));
      if planned.Err? {
        return Err(planned.error);
      }
      var plan := NewPlan(planned.value);
      return Ok(plan);
    }

    // Everything or nothing: when a step fails the rows and the ids handed out are taken back.
    method ApplyMenuConfig(existing: seq<Row>, nodes: seq<MenuNode>) returns (result: Result<SyncPlan, MenuError>)
      requires Snapshot(existing, rows)
      modifies this
      ensures AsDb() == After(old(AsDb()), ApplyConfigCall(existing, nodes))
      ensures roleMenus == old(roleMenus)
      ensures !ValidSpec(nodes) ==> result.Err?
      ensures ValidSpec(nodes) ==>
                var tasks := Flatten(nodes, -1, "", 0);
                var plan := PlanTasks(existing, tasks, []);
                var end := ApplyTasks(existing, tasks, Start(old(rows), old(nextId), NextButtonBitPosition(existing)));
                if plan.Err? then result == Err(plan.error)
                else if end.Err? then result == Err(end.error)
                else result.Ok? && result.value.changes == plan.value
    {
      hide Flatten, PlanTasks, ApplyTasks, ValidSpec, NextButtonBitPosition, Snapshot, PermissionMappings;
      var plan := PlanMenuConfig(existing, nodes);
      if plan.Err? {
        return plan;
      }
      var before, idBefore := rows, nextId;
      var answer, _, _ := ApplyMenuNodes(existing, 0, "", nodes, NextButtonBitPosition(existing), -1, []);
      if answer.Err? {
        rows, nextId := before, idBefore;
        return Err(answer.error);
      }
      if answer.value {
        ReloadPermissionMap();
      }
      return plan;
    }

    method ReloadPermissionMap()
      modifies this`permissionMap
      ensures permissionMap == PermissionMappings(rows)
    {
      permissionMap := PermissionMappings(rows);
    }

    // The other fields of a button are given by its form; `existing` is what the query for the
    // greatest bit position reads.
    method CreateButton(existing: seq<Row>, form: Row) returns (result: Option<int>)
      requires Snapshot(existing, rows)
      modifies this
      ensures AsDb() == After(old(AsDb()), CreateButtonCall(existing, form))
      ensures result == if form.parent in old(rows) then Some(old(nextId)) else None
      ensures roleMenus == old(roleMenus)
    {
      hide Snapshot, NextButtonBitPosition, PermissionMappings;
      if form.parent !in rows {
        return None;
      }
      var id := InsertRow(form.(kind := Button, bit := Some(NextButtonBitPosition(existing))));
      ReloadPermissionMap();
      return Some(id);
    }

    method DeleteMenu(id: int) returns (deleted: bool)
      modifies this`rows, this`permissionMap
      ensures AsDb() == After(old(AsDb()), DeleteMenuCall(id, roleMenus))
      ensures deleted <==>
              id in old(rows) && (forall other :: other in old(rows) ==> old(rows)[other].parent != id)
              && id !in roleMenus
      ensures deleted ==> id !in rows
    {
      if id !in rows {
        return false;
      }
      var isButton := rows[id].kind == Button;
      if exists other :: other in rows && rows[other].parent == id {
        return false;
      }
      if id in roleMenus {
        return false;
      }
      rows := rows - {id};
      if isButton {
        ReloadPermissionMap();
      }
      return true;
    }
  }

  lemma ButtonIds(existing: seq<Row>, buttons: seq<MenuButton>, key: string, parent: nat, st: State)
    requires ApplyTasks(existing, ButtonTasks(buttons, key, parent), st).Ok?
    ensures var end := ApplyTasks(existing, ButtonTasks(buttons, key, parent), st).value;
            |end.ids| == |st.ids| + |buttons| && st.ids <= end.ids
  {
    ApplyAddsIds(existing, ButtonTasks(buttons, key, parent), st);
  }

  // What one turn of the button loop has to do.
  lemma ButtonTurn(existing: seq<Row>, parentId: int, task: Task, st: State)
    requires task.ButtonTask? && ParentId(st.ids, task) == parentId
    ensures var plain := ButtonTask("", 0, task.button);
            var found := Find(existing, parentId, plain);
            ApplyTask(existing, task, st) ==
            if !Available(existing, IdOf(found), plain) then Err(MarkTaken(task.button.authMark))
            else if found.Some? then Ok(Write(found.value, plain, st))
            else Ok(Insert(plain, parentId, st))
  {
    var plain := ButtonTask("", 0, task.button);
    SameFind(existing, parentId, task, plain);
    assert forall row :: Clashes(row, task) == Clashes(row, plain);
  }

  // What one turn of the menu loop does before the buttons and the children.
  lemma MenuTurn(existing: seq<Row>, parentId: int, task: Task, st: State)
    requires task.MenuTask? && ParentId(st.ids, task) == parentId
    ensures var plain := MenuTask("", 0, task.node);
            var found := Find(existing, parentId, plain);
            ApplyTask(existing, task, st) ==
            if !Available(existing, IdOf(found), plain) then Err(NameTaken(task.node.name))
            else if found.Some? then Ok(Write(found.value, plain, st))
            else Ok(Insert(plain, parentId, st))
  {
    hide DesiredLook, MenuChangedFields;
    var plain := MenuTask("", 0, task.node);
    SameFind(existing, parentId, task, plain);
    assert forall row :: Clashes(row, task) == Clashes(row, plain);
  }

  lemma MenusTakeNoBit(node: MenuNode, id: int, parent: int, bit: int)
    ensures NewRow(MenuTask("", 0, node), id, parent, bit) == NewRow(MenuTask("", 0, node), id, parent, 0)
  {
    hide DesiredLook;
  }

  // Key and position do not matter for the look-up.
  lemma {:induction false} SameFind(existing: seq<Row>, parent: int, a: Task, b: Task)
    requires (a.MenuTask? && b.MenuTask? && a.node == b.node)
             || (a.ButtonTask? && b.ButtonTask? && a.button == b.button)
    ensures Find(existing, parent, a) == Find(existing, parent, b)
  {
    if existing != [] {
      SameFind(existing[1..], parent, a, b);
    }
  }
}
