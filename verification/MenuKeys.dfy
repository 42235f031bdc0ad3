/**
 The keys that a plan gives to its changes (crates/summer-domain/src/menu.rs:551-615, 820-827):
 they spell the path from the root.
 */
module MenuKeys {
  import opened Text
  import opened MenuSpec

  // The key of a task, given its parent's key.
  function Spelling(task: Task, parentKey: string): string {
    match task
    case MenuTask(_, _, node) => if parentKey == "" then node.path else parentKey + "/" + node.path
    case ButtonTask(_, _, button) => parentKey + "#" + button.authMark
  }

  ghost predicate PathsNotBlank(tasks: seq<Task>) {
    forall task :: task in tasks && task.MenuTask? ==> !IsBlank(task.node.path)
  }

  // The task continues its parent's key: the given one, or that of an earlier menu of the list.
  ghost predicate Continues(tasks: seq<Task>, i: int, parent: int, parentKey: string, start: int)
    requires 0 <= i < |tasks|
  {
    var task := tasks[i];
    if task.parent == parent then task.MenuTask? && task.key == Spelling(task, parentKey)
    else
      var k := task.parent - start;
      0 <= k < i && tasks[k].MenuTask? && tasks[k].key != "" && task.key == Spelling(task, tasks[k].key)
  }

  // In a list that starts at position `start` every key continues its parent's key.
  ghost predicate Spelled(tasks: seq<Task>, parent: int, parentKey: string, start: int) {
    forall i :: 0 <= i < |tasks| ==> Continues(tasks, i, parent, parentKey, start)
  }

  lemma BlankIsNotEmpty(s: string)
    requires !IsBlank(s)
    ensures s != ""
  {
  }

  lemma {:induction false} NodeSpells(node: MenuNode, parent: int, parentKey: string, start: nat)
    requires parent < start
    requires PathsNotBlank(NodeTasks(node, parent, MenuKey(parentKey, node.path, node.name), start))
    ensures Spelled(NodeTasks(node, parent, MenuKey(parentKey, node.path, node.name), start), parent, parentKey, start)
    decreases node, 0
  {
    hide Flatten, IsBlank, Spelled;
    var key := MenuKey(parentKey, node.path, node.name);
    var next: nat := start + 1 + |node.buttons|;
    var first := MenuTask(key, parent, node);
    var buttons := ButtonTasks(node.buttons, key, start);
    var below := Flatten(node.children, start, key, next);
    var own := NodeTasks(node, parent, key, start);
    assert own == [first] + buttons + below;
    assert first in own;
    BlankIsNotEmpty(node.path);
    assert key != "" && key == Spelling(first, parentKey);
    assert forall task :: task in below ==> task in own;
    FlattenSpells(node.children, start, key, next);
    NodeJoins(first, buttons, below, parent, parentKey, start);
  }

  lemma NodeJoins(first: Task, buttons: seq<Task>, below: seq<Task>, parent: int, parentKey: string, start: nat)
    requires first.MenuTask? && first.parent == parent < start && first.key != ""
             && first.key == Spelling(first, parentKey)
    requires forall i :: 0 <= i < |buttons| ==>
               buttons[i].ButtonTask? && buttons[i].parent == start && buttons[i].key == Spelling(buttons[i], first.key)
    requires Spelled(below, start, first.key, start + 1 + |buttons|)
    ensures Spelled([first] + buttons + below, parent, parentKey, start)
  {
    hide Spelling;
    var own := [first] + buttons + below;
    forall i | 0 <= i < |own|
      ensures Continues(own, i, parent, parentKey, start)
    {
      if 0 < i <= |buttons| {
        assert own[i] == buttons[i - 1];
      } else if i > |buttons| {
        var k := i - 1 - |buttons|;
        assert own[i] == below[k] && Continues(below, k, start, first.key, start + 1 + |buttons|);
        if below[k].parent != start {
          assert own[own[i].parent - start] == below[below[k].parent - (start + 1 + |buttons|)];
        }
      }
    }
  }

  lemma {:induction false} FlattenSpells(nodes: seq<MenuNode>, parent: int, parentKey: string, start: nat)
    requires parent < start
    requires PathsNotBlank(Flatten(nodes, parent, parentKey, start))
    ensures Spelled(Flatten(nodes, parent, parentKey, start), parent, parentKey, start)
    decreases nodes, 1
  {
    hide MenuKey, NodeTasks, Spelled, IsBlank;
    if nodes == [] {
      NothingSpells(parent, parentKey, start);
    } else {
      var key := MenuKey(parentKey, nodes[0].path, nodes[0].name);
      var own := NodeTasks(nodes[0], parent, key, start);
      var next: nat := start + |own|;
      var others := Flatten(nodes[1..], parent, parentKey, next);
      assert Flatten(nodes, parent, parentKey, start) == own + others;
      NodeSpells(nodes[0], parent, parentKey, start);
      FlattenSpells(nodes[1..], parent, parentKey, next);
      ListsJoin(own, others, parent, parentKey, start);
    }
  }

  lemma NothingSpells(parent: int, parentKey: string, start: int)
    ensures Spelled([], parent, parentKey, start)
  {
  }

  lemma ListsJoin(a: seq<Task>, b: seq<Task>, parent: int, parentKey: string, start: nat)
    requires parent < start && Spelled(a, parent, parentKey, start) && Spelled(b, parent, parentKey, start + |a|)
    ensures Spelled(a + b, parent, parentKey, start)
  {
    hide Spelling;
    var all := a + b;
    forall i | 0 <= i < |all|
      ensures Continues(all, i, parent, parentKey, start)
    {
      if i < |a| {
        assert all[i] == a[i] && Continues(a, i, parent, parentKey, start);
      } else {
        assert all[i] == b[i - |a|] && Continues(b, i - |a|, parent, parentKey, start + |a|);
        if all[i].parent != parent {
          assert all[all[i].parent - start] == b[all[i].parent - (start + |a|)];
        }
      }
    }
  }

  lemma {:induction false} CleanIsNotBlank(tasks: seq<Task>, names: set<string>, marks: set<string>)
    requires Clean(tasks, names, marks)
    ensures PathsNotBlank(tasks)
  {
    hide IsBlank;
    if tasks != [] {
      CleanIsNotBlank(tasks[1..], names + NameSet(tasks[0]), marks + MarkSet(tasks[0]));
      assert tasks == [tasks[0]] + tasks[1..];
    }
  }

  // Root keys are paths; every other key is the parent's key, a separator, and the path or the mark.
  lemma KeysSpellPaths(nodes: seq<MenuNode>)
    requires ValidSpec(nodes)
    ensures Spelled(Flatten(nodes, -1, "", 0), -1, "", 0)
  {
    hide Flatten, Clean, Spelled, SiblingsDistinct, PathsNotBlank;
    CleanIsNotBlank(Flatten(nodes, -1, "", 0), {}, {});
    FlattenSpells(nodes, -1, "", 0);
  }
}
