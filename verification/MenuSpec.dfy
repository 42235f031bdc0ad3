/**
 Menu configuration (crates/summer-domain/src/menu.rs:20-140, 460-836): rows, specified
 trees, and what planning and applying a tree mean. A tree is flattened to its tasks in
 the order in which the program visits them; a task names its parent by the parent's
 position in that list.
 */
module MenuSpec {
  import opened Wrappers
  import opened Text
  import opened SyncPlanModel

  datatype Kind = Menu | Button

  datatype Look = Look(
    component: string, redirect: string, icon: string, link: string,
    isIframe: bool, isHide: bool, isHideTab: bool, isFullPage: bool, isFirstLevel: bool,
    keepAlive: bool, fixedTab: bool, showBadge: bool, showTextBadge: string, activePath: string)

  datatype Row = Row(
    id: int, parent: int, kind: Kind, path: string, name: string, title: string, look: Look,
    authName: string, authMark: string, bit: Option<int>, sort: int, enabled: bool)

  datatype MenuButton = MenuButton(authName: string, authMark: string, sort: Option<int>, enabled: Option<bool>)

  datatype MenuNode = MenuNode(
    name: string, path: string, component: Option<string>, redirect: Option<string>, icon: Option<string>,
    title: string, link: Option<string>, isIframe: Option<bool>, isHide: Option<bool>, isHideTab: Option<bool>,
    isFullPage: Option<bool>, isFirstLevel: Option<bool>, keepAlive: Option<bool>, fixedTab: Option<bool>,
    showBadge: Option<bool>, showTextBadge: Option<string>, activePath: Option<string>, sort: Option<int>,
    enabled: Option<bool>, buttons: seq<MenuButton>, children: seq<MenuNode>)

  datatype MenuError =
    | BlankField
    | DuplicatePath(path: string)
    | DuplicateName(name: string)
    | DuplicateMark(mark: string)
    | NameTaken(name: string)
    | MarkTaken(mark: string)

  // ----- what a specified node asks for -----

  function Or<T>(value: Option<T>, default: T): T { if value.Some? then value.value else default }

  function DesiredLook(node: MenuNode): Look {
    Look(Or(node.component, ""), Or(node.redirect, ""), Or(node.icon, ""), Or(node.link, ""),
         Or(node.isIframe, false), Or(node.isHide, false), Or(node.isHideTab, false), Or(node.isFullPage, false),
         Or(node.isFirstLevel, false), Or(node.keepAlive, false), Or(node.fixedTab, false), Or(node.showBadge, false),
         Or(node.showTextBadge, ""), Or(node.activePath, ""))
  }

  const PLAIN_LOOK := Look("", "", "", "", false, false, false, false, false, false, false, false, "", "")

  // What was compared: whether it differs, and its name.
  type Check = (bool, string)

  // The names of what differs, in order.
  function Differing(checks: seq<Check>): (names: seq<string>)
    ensures names == [] <==> forall k :: 0 <= k < |checks| ==> !checks[k].0
  {
    if checks == [] then []
    else if checks[0].0 then [checks[0].1] + Differing(checks[1..])
    else Differing(checks[1..])
  }

  function MenuChecks(row: Row, node: MenuNode): seq<Check> {
    var look := DesiredLook(node);
    [(row.name != node.name, "name"), (row.title != node.title, "title"),
     (row.look.component != look.component, "component"), (row.look.redirect != look.redirect, "redirect"),
     (row.look.icon != look.icon, "icon"), (row.look.link != look.link, "link"),
     (row.look.isIframe != look.isIframe, "is_iframe"), (row.look.isHide != look.isHide, "is_hide"),
     (row.look.isHideTab != look.isHideTab, "is_hide_tab"), (row.look.isFullPage != look.isFullPage, "is_full_page"),
     (row.look.isFirstLevel != look.isFirstLevel, "is_first_level"),
     (row.look.keepAlive != look.keepAlive, "keep_alive"), (row.look.fixedTab != look.fixedTab, "fixed_tab"),
     (row.look.showBadge != look.showBadge, "show_badge"),
     (row.look.showTextBadge != look.showTextBadge, "show_text_badge"),
     (row.look.activePath != look.activePath, "active_path"),
     (row.sort != Or(node.sort, 0), "sort"), (row.enabled != Or(node.enabled, true), "enabled")]
  }

  function ButtonChecks(row: Row, button: MenuButton): seq<Check> {
    [(row.authName != button.authName, "auth_name"), (row.sort != Or(button.sort, 0), "sort"),
     (row.enabled != Or(button.enabled, true), "enabled")]
  }

  function MenuChangedFields(row: Row, node: MenuNode): seq<string> { Differing(MenuChecks(row, node)) }

  function ButtonChangedFields(row: Row, button: MenuButton): seq<string> { Differing(ButtonChecks(row, button)) }

  const MENU_FIELDS := [
    "name", "title", "component", "redirect", "icon", "link", "is_iframe", "is_hide", "is_hide_tab", "is_full_page",
    "is_first_level", "keep_alive", "fixed_tab", "show_badge", "show_text_badge", "active_path", "sort", "enabled"]

  const BUTTON_FIELDS := ["auth_name", "sort", "enabled"]

  function MenuKey(parentKey: string, path: string, name: string): string {
    var segment := if IsBlank(path) then name else path;
    if parentKey == "" then segment else parentKey + "/" + segment
  }

  // ----- tasks -----

  // parent is the position of the parent's task, or -1 at the root.
  datatype Task =
    | MenuTask(key: string, parent: int, node: MenuNode)
    | ButtonTask(key: string, parent: int, button: MenuButton)

  function ButtonTasks(buttons: seq<MenuButton>, key: string, parent: int): (tasks: seq<Task>)
    ensures |tasks| == |buttons|
  {
    seq(|buttons|, i requires 0 <= i < |buttons| => ButtonTask(key + "#" + buttons[i].authMark, parent, buttons[i]))
  }

  function NodeTasks(node: MenuNode, parent: int, key: string, start: nat): seq<Task>
    decreases node, 0
  {
    [MenuTask(key, parent, node)] + ButtonTasks(node.buttons, key, start)
    + Flatten(node.children, start, key, start + 1 + |node.buttons|)
  }

  function Flatten(nodes: seq<MenuNode>, parent: int, parentKey: string, start: nat): seq<Task>
    decreases nodes, 1
  {
    if nodes == [] then []
    else
      var own := NodeTasks(nodes[0], parent, MenuKey(parentKey, nodes[0].path, nodes[0].name), start);
      own + Flatten(nodes[1..], parent, parentKey, start + |own|)
  }

  // ----- one task against the rows read before -----

  predicate Matches(row: Row, parent: int, task: Task) {
    row.parent == parent &&
    match task
    case MenuTask(_, _, node) => row.kind == Menu && row.path == node.path
    case ButtonTask(_, _, button) => row.kind == Button && row.authMark == button.authMark
  }

  function Find(existing: seq<Row>, parent: int, task: Task): (row: Option<Row>)
    ensures row.Some? ==> row.value in existing && Matches(row.value, parent, task)
    ensures row.None? ==> forall other :: other in existing ==> !Matches(other, parent, task)
  {
    if existing == [] then None
    else if Matches(existing[0], parent, task) then Some(existing[0])
    else Find(existing[1..], parent, task)
  }

  // Another row of the same kind already carries the name or the mark.
  predicate Clashes(row: Row, task: Task) {
    match task
    case MenuTask(_, _, node) => row.kind == Menu && row.name == node.name
    case ButtonTask(_, _, button) => row.kind == Button && row.authMark == button.authMark
  }

  function IdOf(row: Option<Row>): Option<int> { if row.Some? then Some(row.value.id) else None }

  predicate Available(existing: seq<Row>, current: Option<int>, task: Task) {
    forall row :: row in existing && Clashes(row, task) ==> Some(row.id) == current
  }

  function TakenError(task: Task): MenuError {
    if task.MenuTask? then NameTaken(task.node.name) else MarkTaken(task.button.authMark)
  }

  function ChangedFields(row: Row, task: Task): seq<string> {
    match task
    case MenuTask(_, _, node) => MenuChangedFields(row, node)
    case ButtonTask(_, _, button) => ButtonChangedFields(row, button)
  }

  function Change(row: Option<Row>, task: Task): SyncChange {
    var fields := if row.Some? then ChangedFields(row.value, task)
                  else if task.MenuTask? then MENU_FIELDS else BUTTON_FIELDS;
    var action := if row.None? then Create else if fields == [] then Noop else Update;
    SyncChange(if task.MenuTask? then "menu" else "button", task.key, action, fields)
  }

  // ----- planning -----

  // Per task: the existing row's id, or nothing when the row is to be created.
  type Known = seq<Option<int>>

  function ParentOf(known: Known, task: Task): Option<int> {
    if 0 <= task.parent < |known| then known[task.parent] else Some(0)
  }

  // Below a menu that is to be created everything is created, without a look at the rows.
  function PlannedRow(existing: seq<Row>, known: Known, task: Task): Option<Row> {
    var parent := ParentOf(known, task);
    if parent.None? then None else Find(existing, parent.value, task)
  }

  predicate PlanRefuses(existing: seq<Row>, known: Known, task: Task) {
    ParentOf(known, task).Some? && !Available(existing, IdOf(PlannedRow(existing, known, task)), task)
  }

  function PlanTasks(existing: seq<Row>, tasks: seq<Task>, known: Known): Result<seq<SyncChange>, MenuError> {
    if tasks == [] then Ok([])
    else if PlanRefuses(existing, known, tasks[0]) then Err(TakenError(tasks[0]))
    else
      var row := PlannedRow(existing, known, tasks[0]);
      var others := PlanTasks(existing, tasks[1..], known + [IdOf(row)]);
      if others.Err? then others else Ok([Change(row, tasks[0])] + others.value)
  }

  // ----- applying -----

  datatype State = State(
    rows: map<int, Row>,        // the table, by id
    nextId: int,
    nextBit: int,
    ids: seq<int>,              // the row of each task done
    permissionChanged: bool)

  function ParentId(ids: seq<int>, task: Task): int {
    if 0 <= task.parent < |ids| then ids[task.parent] else 0
  }

  // The row after an update; nothing is written when nothing differs.
  function Patched(row: Row, task: Task): Row {
    if ChangedFields(row, task) == [] then row
    else
      match task
      case MenuTask(_, _, node) =>
        row.(name := node.name, title := node.title, look := DesiredLook(node), sort := Or(node.sort, 0),
             enabled := Or(node.enabled, true))
      case ButtonTask(_, _, button) =>
        row.(authName := button.authName, title := button.authName, sort := Or(button.sort, 0),
             enabled := Or(button.enabled, true))
  }

  function NewRow(task: Task, id: int, parent: int, bit: int): Row {
    match task
    case MenuTask(_, _, node) =>
      Row(id, parent, Menu, node.path, node.name, node.title, DesiredLook(node), "", "", None, Or(node.sort, 0),
          Or(node.enabled, true))
    case ButtonTask(_, _, button) =>
      Row(id, parent, Button, "", "", button.authName, PLAIN_LOOK, button.authName, button.authMark, Some(bit),
          Or(button.sort, 0), Or(button.enabled, true))
  }

  function Write(row: Row, task: Task, st: State): State {
    st.(rows := if ChangedFields(row, task) == [] then st.rows else st.rows[row.id := Patched(row, task)],
        ids := st.ids + [row.id],
        permissionChanged := st.permissionChanged || (task.ButtonTask? && row.enabled != Or(task.button.enabled, true)))
  }

  function Insert(task: Task, parent: int, st: State): State {
    State(st.rows[st.nextId := NewRow(task, st.nextId, parent, st.nextBit)],
          st.nextId + 1,
          if task.ButtonTask? then st.nextBit + 1 else st.nextBit,
          st.ids + [st.nextId],
          st.permissionChanged || task.ButtonTask?)
  }

  function ApplyTask(existing: seq<Row>, task: Task, st: State): Result<State, MenuError> {
    var parent := ParentId(st.ids, task);
    var row := Find(existing, parent, task);
    if !Available(existing, IdOf(row), task) then Err(TakenError(task))
    else if row.Some? then Ok(Write(row.value, task, st))
    else Ok(Insert(task, parent, st))
  }

  function ApplyTasks(existing: seq<Row>, tasks: seq<Task>, st: State): Result<State, MenuError> {
    if tasks == [] then Ok(st)
    else
      var first := ApplyTask(existing, tasks[0], st);
      if first.Err? then first else ApplyTasks(existing, tasks[1..], first.value)
  }

  function MaxBit(rows: seq<Row>): (max: Option<int>)
    ensures forall row :: row in rows && row.bit.Some? ==> max.Some? && row.bit.value <= max.value
    ensures max.Some? ==> exists i :: 0 <= i < |rows| && rows[i].bit == max
  {
    if rows == [] then None
    else
      var others := MaxBit(rows[1..]);
      var own := rows[0].bit;
      assert rows == [rows[0]] + rows[1..];
      assert others.Some? ==> exists i :: 0 <= i < |rows| && rows[i].bit == others by {
        if others.Some? {
          var i :| 0 <= i < |rows[1..]| && rows[1..][i].bit == others;
          assert rows[i + 1].bit == others;
        }
      }
      if own.None? || (others.Some? && others.value >= own.value) then others else own
  }

  function NextButtonBitPosition(rows: seq<Row>): (next: int)
    ensures forall row :: row in rows && row.bit.Some? ==> row.bit.value < next
    ensures (exists i :: 0 <= i < |rows| && rows[i].bit == Some(next - 1))
            || (next == 0 && forall row :: row in rows ==> row.bit.None?)
  {
    var max := MaxBit(rows);
    if max.Some? then max.value + 1 else 0
  }

  // ----- which trees are valid -----

  predicate PathsDistinct(nodes: seq<MenuNode>) {
    forall i, j :: 0 <= i < j < |nodes| ==> nodes[i].path != nodes[j].path
  }

  predicate SiblingsDistinct(nodes: seq<MenuNode>)
    decreases nodes
  {
    PathsDistinct(nodes) && forall node :: node in nodes ==> SiblingsDistinct(node.children)
  }

  function NameSet(task: Task): set<string> { if task.MenuTask? then {task.node.name} else {} }

  function MarkSet(task: Task): set<string> { if task.ButtonTask? then {task.button.authMark} else {} }

  predicate CleanTask(task: Task, names: set<string>, marks: set<string>) {
    match task
    case MenuTask(_, _, node) => !IsBlank(node.name) && !IsBlank(node.path) && !IsBlank(node.title)
      && node.name !in names
    case ButtonTask(_, _, button) => !IsBlank(button.authName) && !IsBlank(button.authMark) && button.authMark !in marks
  }

  // No blank field, no name and no mark used twice or already in the given sets.
  predicate Clean(tasks: seq<Task>, names: set<string>, marks: set<string>) {
    tasks == [] ||
    (CleanTask(tasks[0], names, marks) && Clean(tasks[1..], names + NameSet(tasks[0]), marks + MarkSet(tasks[0])))
  }

  predicate ValidSpec(nodes: seq<MenuNode>) {
    SiblingsDistinct(nodes) && Clean(Flatten(nodes, -1, "", 0), {}, {})
  }
}
