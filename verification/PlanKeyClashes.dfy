/**
 When two changes of a plan share a key, buttons included (crates/summer-domain/src/menu.rs:551-615,
 820-827): paths and marks may hold `/` and `#`, and the check on the specified tree that decides it is
 given here.
 */
module PlanKeyClashes {
  import opened Counting
  import opened Text
  import opened MenuSpec
  import opened MenuTasks
  import opened MenuKeys
  import opened MenuKeyClashes

  // ----- the keys of a tree -----

  function After(front: string, keys: seq<string>): (moved: seq<string>)
    ensures |moved| == |keys|
    ensures forall i :: 0 <= i < |keys| ==> moved[i] == front + keys[i]
  {
    seq(|keys|, i requires 0 <= i < |keys| => front + keys[i])
  }

  function Marks(buttons: seq<MenuButton>): (marks: seq<string>)
    ensures |marks| == |buttons|
    ensures forall i :: 0 <= i < |buttons| ==> marks[i] == buttons[i].authMark
  {
    seq(|buttons|, i requires 0 <= i < |buttons| => buttons[i].authMark)
  }

  // The keys of all changes of a forest, relative to where the forest stands.
  function PlanKeys(nodes: seq<MenuNode>): seq<string>
    decreases nodes, 2
  {
    if nodes == [] then [] else NodePlanKeys(nodes[0]) + PlanKeys(nodes[1..])
  }

  function NodePlanKeys(node: MenuNode): seq<string>
    decreases node, 1
  {
    [node.path] + After(node.path, Tails(node))
  }

  // What follows a menu's own key in the keys of its buttons and of everything below it.
  function Tails(node: MenuNode): seq<string>
    decreases node, 0
  {
    After("#", Marks(node.buttons)) + After("/", PlanKeys(node.children))
  }

  function TaskKeys(tasks: seq<Task>): (keys: seq<string>)
    ensures |keys| == |tasks|
    ensures forall i :: 0 <= i < |tasks| ==> keys[i] == tasks[i].key
  {
    seq(|tasks|, i requires 0 <= i < |tasks| => tasks[i].key)
  }

  lemma BelowIsAfter(key: string, keys: seq<string>)
    requires key != ""
    ensures Below(key, keys) == After(key, After("/", keys))
  {
    forall i | 0 <= i < |keys|
      ensures Below(key, keys)[i] == After(key, After("/", keys))[i]
    {
      assert key + ("/" + keys[i]) == key + "/" + keys[i];
    }
  }

  lemma ButtonTaskKeys(buttons: seq<MenuButton>, key: string, parent: int)
    ensures TaskKeys(ButtonTasks(buttons, key, parent)) == After(key, After("#", Marks(buttons)))
  {
    var tasks, keys := ButtonTasks(buttons, key, parent), After(key, After("#", Marks(buttons)));
    forall i | 0 <= i < |buttons|
      ensures tasks[i].key == keys[i]
    {
      assert key + ("#" + buttons[i].authMark) == key + "#" + buttons[i].authMark;
    }
  }

  // A menu's key and, below it, the keys of its tails.
  lemma {:induction false} NodeTaskKeysAre(node: MenuNode, parent: int, parentKey: string, start: nat)
    requires PathsNotBlank(NodeTasks(node, parent, MenuKey(parentKey, node.path, node.name), start))
    ensures TaskKeys(NodeTasks(node, parent, MenuKey(parentKey, node.path, node.name), start)) ==
            Below(parentKey, NodePlanKeys(node))
    decreases node, 0
  {
    hide Flatten, IsBlank, PlanKeys, Below, After, Marks, TaskKeys;
    var key := MenuKey(parentKey, node.path, node.name);
    var next: nat := start + 1 + |node.buttons|;
    var first, buttons := MenuTask(key, parent, node), ButtonTasks(node.buttons, key, start);
    var below := Flatten(node.children, start, key, next);
    assert NodeTasks(node, parent, key, start) == [first] + buttons + below;
    NotBlankInParts([first] + buttons, below);
    NotBlankInParts([first], buttons);
    assert first in [first];
    BlankIsNotEmpty(node.path);
    hide PathsNotBlank, NodeTasks, ButtonTasks;
    FlattenKeysAre(node.children, start, key, next);
    BelowIsAfter(key, PlanKeys(node.children));
    ButtonTaskKeys(node.buttons, key, start);
    AfterAppend(key, After("#", Marks(node.buttons)), After("/", PlanKeys(node.children)));
    OwnKeysBelow(parentKey, node.path, Tails(node));
    JoinedTaskKeys(first, buttons, below);
  }

  lemma JoinedTaskKeys(first: Task, buttons: seq<Task>, below: seq<Task>)
    ensures TaskKeys([first] + buttons + below) == [first.key] + (TaskKeys(buttons) + TaskKeys(below))
  {
  }

  lemma AfterAppend(front: string, a: seq<string>, b: seq<string>)
    ensures After(front, a + b) == After(front, a) + After(front, b)
  {
  }

  lemma OwnKeysBelow(parentKey: string, path: string, tails: seq<string>)
    ensures Below(parentKey, [path] + After(path, tails)) ==
            var key := if parentKey == "" then path else parentKey + "/" + path;
            [key] + After(key, tails)
  {
    hide Below, After;
    var key := if parentKey == "" then path else parentKey + "/" + path;
    var keys := [path] + After(path, tails);
    forall i | 0 <= i < |keys|
      ensures Below(parentKey, keys)[i] == ([key] + After(key, tails))[i]
    {
      if i > 0 {
        assert parentKey + "/" + (path + tails[i - 1]) == parentKey + "/" + path + tails[i - 1];
      }
    }
  }

  lemma {:induction false} FlattenKeysAre(nodes: seq<MenuNode>, parent: int, parentKey: string, start: nat)
    requires PathsNotBlank(Flatten(nodes, parent, parentKey, start))
    ensures TaskKeys(Flatten(nodes, parent, parentKey, start)) == Below(parentKey, PlanKeys(nodes))
    decreases nodes, 1
  {
    hide MenuKey, NodeTasks, NodePlanKeys, IsBlank, Below, PathsNotBlank, TaskKeys;
    if nodes == [] {
      assert Below(parentKey, []) == [];
    } else {
      var key := MenuKey(parentKey, nodes[0].path, nodes[0].name);
      var own := NodeTasks(nodes[0], parent, key, start);
      var others := Flatten(nodes[1..], parent, parentKey, start + |own|);
      assert Flatten(nodes, parent, parentKey, start) == own + others;
      NotBlankInParts(own, others);
      NodeTaskKeysAre(nodes[0], parent, parentKey, start);
      FlattenKeysAre(nodes[1..], parent, parentKey, start + |own|);
      BelowAppend(parentKey, NodePlanKeys(nodes[0]), PlanKeys(nodes[1..]));
      TaskKeysAppend(own, others);
    }
  }

  lemma TaskKeysAppend(a: seq<Task>, b: seq<Task>)
    ensures TaskKeys(a + b) == TaskKeys(a) + TaskKeys(b)
  {
  }

  // ----- the check on the tree -----

  // The path of y goes on from the path of x as something that hangs on x does: what is left of it is the
  // tail of a change there, or such a tail's beginning, with the rest hanging on y.
  predicate Meets(x: MenuNode, y: MenuNode) {
    && x.path < y.path
    && var rest := y.path[|x.path|..];
       || rest in Tails(x)
       || exists tail :: tail in Tails(y) && rest + tail in Tails(x)
  }

  predicate NoMeetings(nodes: seq<MenuNode>)
    decreases nodes
  {
    && (forall i, j :: 0 <= i < j < |nodes| ==> !Meets(nodes[i], nodes[j]) && !Meets(nodes[j], nodes[i]))
    && (forall node :: node in nodes ==> NoMeetings(node.children))
  }

  lemma InAfter(front: string, keys: seq<string>, key: string)
    ensures key in After(front, keys) <==> front <= key && key[|front|..] in keys
  {
    var moved := After(front, keys);
    if key in moved {
      var i :| 0 <= i < |moved| && moved[i] == key;
      assert key[|front|..] == keys[i];
    }
    if front <= key && key[|front|..] in keys {
      var i :| 0 <= i < |keys| && keys[i] == key[|front|..];
      assert moved[i] == key;
    }
  }

  lemma InNodeKeys(node: MenuNode, key: string)
    ensures key in NodePlanKeys(node) <==>
            key == node.path || (node.path <= key && key[|node.path|..] in Tails(node))
  {
    hide Tails;
    InAfter(node.path, Tails(node), key);
  }

  lemma MeetingGivesCommonKey(x: MenuNode, y: MenuNode)
    requires Meets(x, y)
    ensures !Disjoint(NodePlanKeys(x), NodePlanKeys(y))
  {
    hide Tails, NodePlanKeys;
    var rest := y.path[|x.path|..];
    assert y.path == x.path + rest;
    if rest in Tails(x) {
      InNodeKeys(x, y.path);
      InNodeKeys(y, y.path);
    } else {
      var tail :| tail in Tails(y) && rest + tail in Tails(x);
      var common := y.path + tail;
      assert common == x.path + (rest + tail);
      assert common[|x.path|..] == rest + tail && common[|y.path|..] == tail;
      InNodeKeys(x, common);
      InNodeKeys(y, common);
    }
  }

  // A common key of two siblings, the first of them with the shorter path.
  lemma CommonKeyGivesMeeting(x: MenuNode, y: MenuNode, key: string)
    requires |x.path| <= |y.path| && x.path != y.path && key in NodePlanKeys(x) && key in NodePlanKeys(y)
    ensures Meets(x, y)
  {
    hide Tails, NodePlanKeys;
    InNodeKeys(x, key);
    InNodeKeys(y, key);
    assert x.path == key[..|x.path|] && y.path == key[..|y.path|];
    assert key[..|x.path|] == key[..|y.path|][..|x.path|];
    var rest := y.path[|x.path|..];
    if key != y.path {
      var tail := key[|y.path|..];
      assert key == y.path + tail && key[|x.path|..] == rest + tail;
    }
  }

  lemma SiblingsDisjointIff(x: MenuNode, y: MenuNode)
    requires x.path != y.path
    ensures Disjoint(NodePlanKeys(x), NodePlanKeys(y)) <==> !Meets(x, y) && !Meets(y, x)
  {
    hide Meets, NodePlanKeys;
    if Meets(x, y) { MeetingGivesCommonKey(x, y); }
    if Meets(y, x) { MeetingGivesCommonKey(y, x); }
    forall key | key in NodePlanKeys(x) && key in NodePlanKeys(y)
      ensures Meets(x, y) || Meets(y, x)
    {
      if |x.path| <= |y.path| {
        CommonKeyGivesMeeting(x, y, key);
      } else {
        CommonKeyGivesMeeting(y, x, key);
      }
    }
  }

  // The first node against its later siblings.
  lemma {:induction false} FirstAloneIff(x: MenuNode, nodes: seq<MenuNode>)
    requires forall y :: y in nodes ==> y.path != x.path
    ensures Disjoint(NodePlanKeys(x), PlanKeys(nodes)) <==> forall y :: y in nodes ==> !Meets(x, y) && !Meets(y, x)
    decreases |nodes|
  {
    hide NodePlanKeys, Meets;
    if nodes != [] {
      SiblingsDisjointIff(x, nodes[0]);
      FirstAloneIff(x, nodes[1..]);
      assert nodes == [nodes[0]] + nodes[1..];
      assert forall key :: key in PlanKeys(nodes) <==> key in NodePlanKeys(nodes[0]) || key in PlanKeys(nodes[1..]);
    }
  }

  lemma NoMeetingsFirst(nodes: seq<MenuNode>)
    requires nodes != []
    ensures NoMeetings(nodes) <==>
            && (forall y :: y in nodes[1..] ==> !Meets(nodes[0], y) && !Meets(y, nodes[0]))
            && NoMeetings(nodes[0].children) && NoMeetings(nodes[1..])
  {
    hide Meets;
    var others := nodes[1..];
    assert nodes == [nodes[0]] + others;
    if NoMeetings(nodes) {
      forall y | y in others
        ensures !Meets(nodes[0], y) && !Meets(y, nodes[0])
      {
        var j :| 0 <= j < |others| && others[j] == y;
        assert nodes[j + 1] == y;
      }
    }
    if (forall y :: y in others ==> !Meets(nodes[0], y) && !Meets(y, nodes[0])) && NoMeetings(others) {
      forall i, j | 0 <= i < j < |nodes|
        ensures !Meets(nodes[i], nodes[j]) && !Meets(nodes[j], nodes[i])
      {
        assert nodes[j] == others[j - 1] && nodes[j] in others;
        if i > 0 {
          assert nodes[i] == others[i - 1];
        }
      }
    }
  }

  lemma DistinctAfter(front: string, keys: seq<string>)
    ensures Distinct(After(front, keys)) <==> Distinct(keys)
  {
    var moved := After(front, keys);
    assert forall i :: 0 <= i < |keys| ==> moved[i][|front|..] == keys[i];
    if Distinct(moved) {
      forall i, j | 0 <= i < j < |keys|
        ensures keys[i] != keys[j]
      {
        assert moved[i] != moved[j];
      }
    }
  }

  lemma NodeKeysDistinctIff(node: MenuNode)
    requires Distinct(Marks(node.buttons))
    ensures Distinct(NodePlanKeys(node)) <==> Distinct(PlanKeys(node.children))
  {
    hide PlanKeys, Marks, Distinct;
    var marks, below := After("#", Marks(node.buttons)), After("/", PlanKeys(node.children));
    DistinctAfter("#", Marks(node.buttons));
    DistinctAfter("/", PlanKeys(node.children));
    assert forall key :: key in marks ==> key[0] == '#';
    assert forall key :: key in below ==> key[0] == '/';
    DistinctAppend(marks, below);
    DistinctAfter(node.path, Tails(node));
    DistinctAppend([node.path], After(node.path, Tails(node)));
    OneIsDistinct(node.path);
    forall key | key in After(node.path, Tails(node))
      ensures key != node.path
    {
      InAfter(node.path, Tails(node), key);
    }
  }

  // The buttons of every menu have different marks.
  predicate MarksDiffer(nodes: seq<MenuNode>)
    decreases nodes
  {
    forall node :: node in nodes ==> Distinct(Marks(node.buttons)) && MarksDiffer(node.children)
  }

  lemma {:induction false} TreeKeysDistinctIff(nodes: seq<MenuNode>)
    requires SiblingsDistinct(nodes) && MarksDiffer(nodes)
    ensures Distinct(PlanKeys(nodes)) <==> NoMeetings(nodes)
    decreases nodes
  {
    hide Meets, NoMeetings, Distinct, NodePlanKeys;
    if nodes == [] {
      NothingMeets();
    } else {
      var x, others := nodes[0], nodes[1..];
      assert nodes == [x] + others;
      SiblingsRest(nodes);
      TreeKeysDistinctIff(x.children);
      TreeKeysDistinctIff(others);
      NodeKeysDistinctIff(x);
      DistinctAppend(NodePlanKeys(x), PlanKeys(others));
      FirstAloneIff(x, others);
      NoMeetingsFirst(nodes);
    }
  }

  lemma NothingMeets()
    ensures NoMeetings([]) && Distinct<string>([])
  {
  }

  // ----- valid configurations -----

  ghost predicate LabelsDiffer(tasks: seq<Task>) {
    forall i, j :: 0 <= i < j < |tasks| ==> !SameLabel(tasks[i], tasks[j])
  }

  lemma LabelsInParts(a: seq<Task>, b: seq<Task>)
    requires LabelsDiffer(a + b)
    ensures LabelsDiffer(a) && LabelsDiffer(b)
  {
    hide SameLabel;
    var s := a + b;
    forall i, j | 0 <= i < j < |a| ensures !SameLabel(a[i], a[j]) { assert s[i] == a[i] && s[j] == a[j]; }
    forall i, j | 0 <= i < j < |b|
      ensures !SameLabel(b[i], b[j])
    {
      assert s[|a| + i] == b[i] && s[|a| + j] == b[j];
    }
  }

  lemma {:induction false} NodeMarksDiffer(node: MenuNode, parent: int, key: string, start: nat)
    requires LabelsDiffer(NodeTasks(node, parent, key, start))
    ensures Distinct(Marks(node.buttons)) && MarksDiffer(node.children)
    decreases node, 0
  {
    var first, buttons := MenuTask(key, parent, node), ButtonTasks(node.buttons, key, start);
    var next: nat := start + 1 + |node.buttons|;
    var below := Flatten(node.children, start, key, next);
    assert NodeTasks(node, parent, key, start) == [first] + buttons + below;
    LabelsInParts([first] + buttons, below);
    LabelsInParts([first], buttons);
    forall i, j | 0 <= i < j < |node.buttons|
      ensures Marks(node.buttons)[i] != Marks(node.buttons)[j]
    {
      assert !SameLabel(buttons[i], buttons[j]);
    }
    hide Flatten, NodeTasks, LabelsDiffer;
    FlatMarksDiffer(node.children, start, key, next);
  }

  lemma {:induction false} FlatMarksDiffer(nodes: seq<MenuNode>, parent: int, parentKey: string, start: nat)
    requires LabelsDiffer(Flatten(nodes, parent, parentKey, start))
    ensures MarksDiffer(nodes)
    decreases nodes, 1
  {
    hide MenuKey, LabelsDiffer, NodeTasks, Distinct;
    if nodes != [] {
      var key := MenuKey(parentKey, nodes[0].path, nodes[0].name);
      var own := NodeTasks(nodes[0], parent, key, start);
      LabelsInParts(own, Flatten(nodes[1..], parent, parentKey, start + |own|));
      NodeMarksDiffer(nodes[0], parent, key, start);
      FlatMarksDiffer(nodes[1..], parent, parentKey, start + |own|);
      assert nodes == [nodes[0]] + nodes[1..];
    }
  }

  ghost predicate KeysDiffer(tasks: seq<Task>) {
    forall i, j :: 0 <= i < j < |tasks| ==> tasks[i].key != tasks[j].key
  }

  // All changes of a plan have distinct keys exactly when no path in a sibling list goes on from a
  // sibling's path as something that hangs on that sibling does.
  lemma PlanKeysDistinctIff(nodes: seq<MenuNode>)
    requires ValidSpec(nodes)
    ensures KeysDiffer(Flatten(nodes, -1, "", 0)) <==> NoMeetings(nodes)
  {
    var tasks := Flatten(nodes, -1, "", 0);
    ValidSpecGivesValidTasks(nodes);
    assert LabelsDiffer(tasks) && SiblingsDistinct(nodes);
    hide Flatten, Clean, SiblingsDistinct, PathsNotBlank, NoMeetings, PlanKeys, Distinct, LabelsDiffer, ValidTasks;
    CleanIsNotBlank(tasks, {}, {});
    FlattenKeysAre(nodes, -1, "", 0);
    assert Below("", PlanKeys(nodes)) == PlanKeys(nodes);
    FlatMarksDiffer(nodes, -1, "", 0);
    TreeKeysDistinctIff(nodes);
    KeysDifferIff(tasks);
  }

  lemma KeysDifferIff(tasks: seq<Task>)
    ensures KeysDiffer(tasks) <==> Distinct(TaskKeys(tasks))
  {
    if Distinct(TaskKeys(tasks)) {
      forall i, j | 0 <= i < j < |tasks|
        ensures tasks[i].key != tasks[j].key
      {
        assert TaskKeys(tasks)[i] != TaskKeys(tasks)[j];
      }
    }
  }

  // In particular they are distinct when no sibling's path goes on from another's with a `/` or a `#`.
  predicate NoPathRunsOn(nodes: seq<MenuNode>)
    decreases nodes
  {
    && (forall i, j :: 0 <= i < |nodes| && 0 <= j < |nodes| && i != j ==>
          !(nodes[i].path + "/" <= nodes[j].path) && !(nodes[i].path + "#" <= nodes[j].path))
    && (forall node :: node in nodes ==> NoPathRunsOn(node.children))
  }

  lemma MeetingRunsOn(x: MenuNode, y: MenuNode)
    requires Meets(x, y)
    ensures x.path + "/" <= y.path || x.path + "#" <= y.path
  {
    hide PlanKeys, Marks;
    assert forall tail :: tail in Tails(x) ==> tail != "" && (tail[0] == '/' || tail[0] == '#');
    hide Tails;
    var rest := y.path[|x.path|..];
    assert rest != "" && y.path == x.path + rest;
    if rest !in Tails(x) {
      var tail :| tail in Tails(y) && rest + tail in Tails(x);
      assert (rest + tail)[0] == rest[0];
    }
    assert y.path[..|x.path| + 1] == x.path + [rest[0]];
  }

  lemma {:induction false} SeparatePathsDoNotMeet(nodes: seq<MenuNode>)
    requires NoPathRunsOn(nodes)
    ensures NoMeetings(nodes)
    decreases nodes
  {
    hide Meets;
    forall i, j | 0 <= i < j < |nodes|
      ensures !Meets(nodes[i], nodes[j]) && !Meets(nodes[j], nodes[i])
    {
      if Meets(nodes[i], nodes[j]) { MeetingRunsOn(nodes[i], nodes[j]); }
      if Meets(nodes[j], nodes[i]) { MeetingRunsOn(nodes[j], nodes[i]); }
    }
    forall node | node in nodes
      ensures NoMeetings(node.children)
    {
      SeparatePathsDoNotMeet(node.children);
    }
  }

  // ----- paths without `#` -----

  predicate NoHashInPaths(nodes: seq<MenuNode>)
    decreases nodes
  {
    forall node :: node in nodes ==> '#' !in node.path && NoHashInPaths(node.children)
  }

  ghost predicate NoHashInMenus(tasks: seq<Task>) {
    forall task :: task in tasks && task.MenuTask? ==> '#' !in task.node.path
  }

  lemma {:induction false} FlatPathsHoldNoHash(nodes: seq<MenuNode>, parent: int, parentKey: string, start: nat)
    requires NoHashInPaths(nodes)
    ensures NoHashInMenus(Flatten(nodes, parent, parentKey, start))
    decreases nodes
  {
    hide MenuKey;
    if nodes != [] {
      var node := nodes[0];
      var key := MenuKey(parentKey, node.path, node.name);
      var own := NodeTasks(node, parent, key, start);
      assert node in nodes && forall other :: other in nodes[1..] ==> other in nodes;
      FlatPathsHoldNoHash(node.children, start, key, start + 1 + |node.buttons|);
      FlatPathsHoldNoHash(nodes[1..], parent, parentKey, start + |own|);
    }
  }

  // What KeysSpellPaths says about a button.
  lemma ButtonKey(tasks: seq<Task>, i: nat)
    requires Spelled(tasks, -1, "", 0) && i < |tasks| && tasks[i].ButtonTask?
    ensures 0 <= tasks[i].parent < |tasks| && tasks[tasks[i].parent].MenuTask?
    ensures tasks[i].key == tasks[tasks[i].parent].key + ['#'] + tasks[i].button.authMark
  {
    assert Continues(tasks, i, -1, "", 0);
  }

  lemma {:induction false} MenuKeysHoldNoHash(tasks: seq<Task>, i: nat)
    requires Spelled(tasks, -1, "", 0) && NoHashInMenus(tasks) && i < |tasks| && tasks[i].MenuTask?
    ensures '#' !in tasks[i].key
  {
    assert Continues(tasks, i, -1, "", 0) && tasks[i] in tasks;
    if tasks[i].parent != -1 {
      MenuKeysHoldNoHash(tasks, tasks[i].parent);
    }
  }

  ghost predicate MenuKeysDiffer(tasks: seq<Task>) {
    forall i, j :: 0 <= i < j < |tasks| && tasks[i].MenuTask? && tasks[j].MenuTask? ==> tasks[i].key != tasks[j].key
  }

  lemma {:induction false} InKeyList(tasks: seq<Task>, key: string)
    ensures key in MenuKeyList(tasks) <==> exists i :: 0 <= i < |tasks| && tasks[i].MenuTask? && tasks[i].key == key
  {
    if tasks != [] {
      InKeyList(tasks[1..], key);
      if i :| 0 <= i < |tasks| && tasks[i].MenuTask? && tasks[i].key == key {
        if i > 0 {
          assert tasks[1..][i - 1] == tasks[i];
        }
      }
      if key in MenuKeyList(tasks[1..]) {
        var i :| 0 <= i < |tasks[1..]| && tasks[1..][i].MenuTask? && tasks[1..][i].key == key;
        assert tasks[i + 1] == tasks[1..][i];
      }
    }
  }

  lemma {:induction false} MenuKeysDifferIff(tasks: seq<Task>)
    ensures MenuKeysDiffer(tasks) <==> Distinct(MenuKeyList(tasks))
    decreases |tasks|
  {
    hide Distinct;
    if tasks == [] {
      NothingSplits();
    } else {
      var first, others := tasks[0], tasks[1..];
      MenuKeysDifferIff(others);
      InKeyList(others, first.key);
      DistinctAppend([first.key], MenuKeyList(others));
      assert [] + MenuKeyList(others) == MenuKeyList(others);
      assert Distinct([first.key]) by { OneIsDistinct(first.key); }
      assert forall i :: 0 <= i < |others| ==> others[i] == tasks[i + 1];
      if MenuKeysDiffer(others) && (first.MenuTask? ==> first.key !in MenuKeyList(others)) {
        forall i, j | 0 <= i < j < |tasks| && tasks[i].MenuTask? && tasks[j].MenuTask?
          ensures tasks[i].key != tasks[j].key
        {
          assert tasks[j] == others[j - 1];
          if i > 0 {
            assert tasks[i] == others[i - 1];
          }
        }
      }
    }
  }

  lemma OneIsDistinct(key: string)
    ensures Distinct([key])
  {
  }

  // With no `#` in any path the buttons' keys never meet others.
  lemma ButtonStandsAlone(tasks: seq<Task>, i: nat, j: nat)
    requires Spelled(tasks, -1, "", 0) && NoHashInMenus(tasks) && LabelsDiffer(tasks)
    requires i < |tasks| && j < |tasks| && i != j && tasks[i].ButtonTask?
    ensures tasks[i].key != tasks[j].key
  {
    hide Spelled, NoHashInMenus;
    ButtonKey(tasks, i);
    var a, mark := tasks[tasks[i].parent].key, tasks[i].button.authMark;
    assert tasks[i].key[|a|] == '#';
    if tasks[j].MenuTask? {
      MenuKeysHoldNoHash(tasks, j);
    } else {
      ButtonKey(tasks, j);
      var b, other := tasks[tasks[j].parent].key, tasks[j].button.authMark;
      MenuKeysHoldNoHash(tasks, tasks[i].parent);
      MenuKeysHoldNoHash(tasks, tasks[j].parent);
      assert !SameLabel(tasks[i], tasks[j]) && !SameLabel(tasks[j], tasks[i]);
      if tasks[i].key == tasks[j].key {
        FirstHash(a, mark, b, other);
      }
    }
  }

  lemma FirstHash(a: string, x: string, b: string, y: string)
    requires '#' !in a && '#' !in b && a + ['#'] + x == b + ['#'] + y
    ensures a == b && x == y
  {
    var s := a + ['#'] + x;
    assert s[|a|] == '#' && s[|b|] == '#';
    assert forall i :: 0 <= i < |a| ==> s[i] == a[i] && a[i] in a;
    assert forall i :: 0 <= i < |b| ==> s[i] == b[i] && b[i] in b;
    assert |a| == |b|;
    FrontsAgree(a, x, b, y, '#');
  }

  // Then the menus alone decide.
  lemma WithoutHashMenusDecide(nodes: seq<MenuNode>)
    requires ValidSpec(nodes) && NoHashInPaths(nodes)
    ensures KeysDiffer(Flatten(nodes, -1, "", 0)) <==> NoSplits(nodes)
  {
    var tasks := Flatten(nodes, -1, "", 0);
    ValidSpecGivesValidTasks(nodes);
    assert LabelsDiffer(tasks);
    hide Flatten, ValidSpec, Spelled, ValidTasks, NoSplits, MenuKeyList, Distinct, LabelsDiffer, NoHashInMenus;
    KeysSpellPaths(nodes);
    FlatPathsHoldNoHash(nodes, -1, "", 0);
    MenuKeysDistinctIff(nodes);
    MenuKeysDifferIff(tasks);
    forall i, j | 0 <= i < j < |tasks| && (tasks[i].ButtonTask? || tasks[j].ButtonTask?)
      ensures tasks[i].key != tasks[j].key
    {
      if tasks[i].ButtonTask? {
        ButtonStandsAlone(tasks, i, j);
      } else {
        ButtonStandsAlone(tasks, j, i);
      }
    }
  }
}
