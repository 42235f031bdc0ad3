/**
 The task list of a valid specified tree: parents come before their children, and no two
 tasks ask for the same place, the same name or the same permission mark.
 */
module MenuTasks {
  import opened Text
  import opened MenuSpec

  predicate SameSlot(a: Task, b: Task) {
    && a.parent == b.parent
    && ((a.MenuTask? && b.MenuTask? && a.node.path == b.node.path)
        || (a.ButtonTask? && b.ButtonTask? && a.button.authMark == b.button.authMark))
  }

  predicate SameLabel(a: Task, b: Task) {
    || (a.MenuTask? && b.MenuTask? && a.node.name == b.node.name)
    || (a.ButtonTask? && b.ButtonTask? && a.button.authMark == b.button.authMark)
  }

  predicate ValidTasks(tasks: seq<Task>) {
    && (forall i :: 0 <= i < |tasks| ==> -1 <= tasks[i].parent < i)
    && (forall i, j :: 0 <= i < j < |tasks| ==> !SameSlot(tasks[i], tasks[j]))
    && (forall i, j :: 0 <= i < j < |tasks| ==> !SameLabel(tasks[i], tasks[j]))
  }

  // The tasks of a subtree that starts at position `start` hang below `parent` or below earlier tasks of the subtree.
  predicate ParentsWithin(tasks: seq<Task>, parent: int, start: nat) {
    forall i :: 0 <= i < |tasks| ==> tasks[i].parent == parent || start <= tasks[i].parent < start + i
  }

  predicate TopTasksAre(tasks: seq<Task>, parent: int, nodes: seq<MenuNode>) {
    forall i :: 0 <= i < |tasks| && tasks[i].parent == parent ==> tasks[i].MenuTask? && tasks[i].node in nodes
  }

  lemma {:induction false} NodeParents(node: MenuNode, parent: int, key: string, start: nat)
    ensures var own := NodeTasks(node, parent, key, start);
            && |own| >= 1 && own[0] == MenuTask(key, parent, node)
            && forall i :: 1 <= i < |own| ==> start <= own[i].parent < start + i
    decreases node, 0
  {
    var buttons := ButtonTasks(node.buttons, key, start);
    var next := start + 1 + |node.buttons|;
    var below := Flatten(node.children, start, key, next);
    FlattenParents(node.children, start, key, next);
    var own := NodeTasks(node, parent, key, start);
    assert own == [MenuTask(key, parent, node)] + buttons + below;
    forall i | 1 <= i < |own|
      ensures start <= own[i].parent < start + i
    {
      if i <= |buttons| {
        assert own[i] == buttons[i - 1];
      } else {
        assert own[i] == below[i - 1 - |buttons|];
      }
    }
  }

  lemma {:induction false} FlattenParents(nodes: seq<MenuNode>, parent: int, key: string, start: nat)
    requires parent < start
    ensures ParentsWithin(Flatten(nodes, parent, key, start), parent, start)
    decreases nodes, 1
  {
    hide MenuKey, NodeTasks;
    if nodes != [] {
      var nodeKey := MenuKey(key, nodes[0].path, nodes[0].name);
      var own := NodeTasks(nodes[0], parent, nodeKey, start);
      NodeParents(nodes[0], parent, nodeKey, start);
      var next := start + |own|;
      FlattenParents(nodes[1..], parent, key, next);
    }
  }

  lemma {:induction false} TopTasks(nodes: seq<MenuNode>, parent: int, key: string, start: nat)
    requires parent < start
    ensures TopTasksAre(Flatten(nodes, parent, key, start), parent, nodes)
    decreases nodes
  {
    hide MenuKey, NodeTasks;
    if nodes != [] {
      var nodeKey := MenuKey(key, nodes[0].path, nodes[0].name);
      var own := NodeTasks(nodes[0], parent, nodeKey, start);
      NodeParents(nodes[0], parent, nodeKey, start);
      var next := start + |own|;
      TopTasks(nodes[1..], parent, key, next);
    }
  }

  // Two menus in different positions of the task list do not share parent and path.
  ghost predicate PlacesDistinct(tasks: seq<Task>) {
    forall i, j ::
      0 <= i < j < |tasks| && tasks[i].MenuTask? && tasks[j].MenuTask? && tasks[i].parent == tasks[j].parent
      ==> tasks[i].node.path != tasks[j].node.path
  }

  lemma PlacesAppend(a: seq<Task>, b: seq<Task>)
    requires PlacesDistinct(a) && PlacesDistinct(b)
    requires forall i, j ::
               0 <= i < |a| && 0 <= j < |b| && a[i].MenuTask? && b[j].MenuTask? && a[i].parent == b[j].parent
               ==> a[i].node.path != b[j].node.path
    ensures PlacesDistinct(a + b)
  {
  }

  lemma {:induction false} NodePlaces(node: MenuNode, parent: int, key: string, start: nat)
    requires SiblingsDistinct(node.children) && parent < start
    ensures PlacesDistinct(NodeTasks(node, parent, key, start))
    decreases node, 0
  {
    hide SiblingsDistinct, Flatten, MenuKey;
    var first := [MenuTask(key, parent, node)];
    var buttons := ButtonTasks(node.buttons, key, start);
    var next := start + 1 + |node.buttons|;
    var below := Flatten(node.children, start, key, next);
    FlattenPlaces(node.children, start, key, next);
    FlattenParents(node.children, start, key, next);
    assert forall i :: 0 <= i < |buttons| ==> buttons[i].ButtonTask?;
    PlacesAppend(first, buttons);
    PlacesAppend(first + buttons, below);
  }

  lemma {:induction false} FlattenPlaces(nodes: seq<MenuNode>, parent: int, key: string, start: nat)
    requires SiblingsDistinct(nodes) && parent < start
    ensures PlacesDistinct(Flatten(nodes, parent, key, start))
    decreases nodes, 1
  {
    hide MenuKey, NodeTasks, PlacesDistinct;
    if nodes == [] {
      assert PlacesDistinct([]) by { NoPlaces(); }
    } else {
      var node := nodes[0];
      var nodeKey := MenuKey(key, node.path, node.name);
      var own := NodeTasks(node, parent, nodeKey, start);
      var next := start + |own|;
      var others := Flatten(nodes[1..], parent, key, next);
      NodePlaces(node, parent, nodeKey, start);
      NodeParents(node, parent, nodeKey, start);
      assert nodes == [node] + nodes[1..];
      assert PathsDistinct(nodes[1..]);
      FlattenPlaces(nodes[1..], parent, key, next);
      FlattenParents(nodes[1..], parent, key, next);
      TopTasks(nodes[1..], parent, key, next);
      forall i, j | 0 <= i < |own| && 0 <= j < |others| && own[i].MenuTask? && others[j].MenuTask?
          && own[i].parent == others[j].parent
        ensures own[i].node.path != others[j].node.path
      {
        assert i == 0 && others[j].node in nodes[1..];
      }
      PlacesAppend(own, others);
    }
  }

  lemma NoPlaces()
    ensures PlacesDistinct([])
  {
  }

  lemma {:induction false} CleanIsDistinct(tasks: seq<Task>, names: set<string>, marks: set<string>)
    requires Clean(tasks, names, marks)
    ensures forall i :: 0 <= i < |tasks| ==> NameSet(tasks[i]) !! names && MarkSet(tasks[i]) !! marks
    ensures forall i, j :: 0 <= i < j < |tasks| ==> !SameLabel(tasks[i], tasks[j])
  {
    if tasks != [] {
      var first := tasks[0];
      CleanIsDistinct(tasks[1..], names + NameSet(first), marks + MarkSet(first));
      forall i | 0 <= i < |tasks|
        ensures NameSet(tasks[i]) !! names && MarkSet(tasks[i]) !! marks
        ensures 0 < i ==> !SameLabel(first, tasks[i])
      {
        if i > 0 {
          assert tasks[i] == tasks[1..][i - 1];
        }
      }
      forall i, j | 0 <= i < j < |tasks|
        ensures !SameLabel(tasks[i], tasks[j])
      {
        if i > 0 {
          assert tasks[i] == tasks[1..][i - 1] && tasks[j] == tasks[1..][j - 1];
        }
      }
    }
  }

  predicate NotBlank(task: Task) {
    match task
    case MenuTask(_, _, node) => Trim(node.name) != "" && Trim(node.path) != "" && Trim(node.title) != ""
    case ButtonTask(_, _, button) => Trim(button.authName) != "" && Trim(button.authMark) != ""
  }

  // Neither used by the names and marks given.
  predicate IsUnused(task: Task, names: set<string>, marks: set<string>) {
    match task
    case MenuTask(_, _, node) => node.name !in names
    case ButtonTask(_, _, button) => button.authMark !in marks
  }

  // A list is clean exactly when no field is blank, and no name and no mark is used twice or was used before.
  lemma {:induction false} CleanIff(tasks: seq<Task>, names: set<string>, marks: set<string>)
    ensures Clean(tasks, names, marks) <==>
            && (forall i :: 0 <= i < |tasks| ==> NotBlank(tasks[i]) && IsUnused(tasks[i], names, marks))
            && (forall i, j :: 0 <= i < j < |tasks| ==> !SameLabel(tasks[i], tasks[j]))
  {
    if tasks != [] {
      var first := tasks[0];
      CleanIff(tasks[1..], names + NameSet(first), marks + MarkSet(first));
      assert forall i :: 0 < i < |tasks| ==> tasks[i] == tasks[1..][i - 1];
      assert CleanTask(first, names, marks) <==> NotBlank(first) && IsUnused(first, names, marks);
      forall i | 0 < i < |tasks|
        ensures IsUnused(tasks[i], names + NameSet(first), marks + MarkSet(first)) <==>
                IsUnused(tasks[i], names, marks) && !SameLabel(first, tasks[i])
      {
      }
      hide NotBlank, IsUnused, SameLabel, CleanTask, NameSet, MarkSet;
    }
  }

  // Validation of the tree gives a valid task list.
  lemma ValidSpecGivesValidTasks(nodes: seq<MenuNode>)
    requires ValidSpec(nodes)
    ensures ValidTasks(Flatten(nodes, -1, "", 0))
  {
    hide Flatten, SiblingsDistinct, Clean;
    var tasks := Flatten(nodes, -1, "", 0);
    FlattenParents(nodes, -1, "", 0);
    FlattenPlaces(nodes, -1, "", 0);
    CleanIsDistinct(tasks, {}, {});
    forall i, j | 0 <= i < j < |tasks|
      ensures !SameSlot(tasks[i], tasks[j])
    {
      assert !SameLabel(tasks[i], tasks[j]);
    }
  }
}
