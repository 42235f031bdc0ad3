/**
 When two menus of a plan share a key (crates/summer-domain/src/menu.rs:551-615, 820-827).
 Paths may hold `/` themselves, so a key does not always name one menu; the check on the
 specified tree that decides it is given here.
 */
module MenuKeyClashes {
  import opened Counting
  import opened Text
  import opened MenuSpec
  import opened MenuKeys

  // ----- the menu keys of a tree -----

  // Keys moved below a menu with the given key.
  function Below(parentKey: string, keys: seq<string>): (moved: seq<string>)
    ensures |moved| == |keys|
    ensures forall i :: 0 <= i < |keys| ==>
              moved[i] == if parentKey == "" then keys[i] else parentKey + "/" + keys[i]
  {
    seq(|keys|, i requires 0 <= i < |keys| => if parentKey == "" then keys[i] else parentKey + "/" + keys[i])
  }

  // The keys of all menus of a forest, relative to where the forest stands.
  function KeyList(nodes: seq<MenuNode>): seq<string>
    decreases nodes, 1
  {
    if nodes == [] then [] else NodeKeys(nodes[0]) + KeyList(nodes[1..])
  }

  function NodeKeys(node: MenuNode): seq<string>
    decreases node, 0
  {
    [node.path] + Below(node.path, KeyList(node.children))
  }

  function MenuKeyList(tasks: seq<Task>): seq<string> {
    if tasks == [] then []
    else (if tasks[0].MenuTask? then [tasks[0].key] else []) + MenuKeyList(tasks[1..])
  }

  lemma BelowAppend(parentKey: string, a: seq<string>, b: seq<string>)
    ensures Below(parentKey, a + b) == Below(parentKey, a) + Below(parentKey, b)
  {
  }

  lemma BelowTwice(parentKey: string, path: string, keys: seq<string>)
    requires path != ""
    ensures Below(parentKey, Below(path, keys)) ==
            Below(if parentKey == "" then path else parentKey + "/" + path, keys)
  {
    var full := if parentKey == "" then path else parentKey + "/" + path;
    forall i | 0 <= i < |keys|
      ensures Below(parentKey, Below(path, keys))[i] == Below(full, keys)[i]
    {
      assert parentKey + "/" + path + "/" + keys[i] == parentKey + "/" + (path + "/" + keys[i]);
    }
  }

  lemma {:induction false} KeyListAppend(a: seq<Task>, b: seq<Task>)
    ensures MenuKeyList(a + b) == MenuKeyList(a) + MenuKeyList(b)
    decreases |a|
  {
    if a == [] {
      assert a + b == b;
    } else {
      assert (a + b)[1..] == a[1..] + b;
      KeyListAppend(a[1..], b);
    }
  }

  lemma {:induction false} ButtonsAddNoMenuKey(tasks: seq<Task>)
    requires forall task :: task in tasks ==> task.ButtonTask?
    ensures MenuKeyList(tasks) == []
  {
    if tasks != [] {
      assert tasks[0] in tasks;
      ButtonsAddNoMenuKey(tasks[1..]);
    }
  }

  lemma {:induction false} NodeTaskKeys(node: MenuNode, parent: int, parentKey: string, start: nat)
    requires PathsNotBlank(NodeTasks(node, parent, MenuKey(parentKey, node.path, node.name), start))
    ensures MenuKeyList(NodeTasks(node, parent, MenuKey(parentKey, node.path, node.name), start)) ==
            Below(parentKey, NodeKeys(node))
    decreases node, 0
  {
    hide Flatten, IsBlank, KeyList, MenuKeyList, Below;
    var key := MenuKey(parentKey, node.path, node.name);
    var next: nat := start + 1 + |node.buttons|;
    var first := MenuTask(key, parent, node);
    var buttons := ButtonTasks(node.buttons, key, start);
    var below := Flatten(node.children, start, key, next);
    assert NodeTasks(node, parent, key, start) == [first] + buttons + below;
    NotBlankInParts([first] + buttons, below);
    NotBlankInParts([first], buttons);
    assert first in [first];
    BlankIsNotEmpty(node.path);
    JoinedMenuKeys(first, buttons, below);
    hide PathsNotBlank, NodeTasks, ButtonTasks;
    FlattenKeys(node.children, start, key, next);
    KeysBelow(parentKey, node);
  }

  lemma JoinedMenuKeys(first: Task, buttons: seq<Task>, below: seq<Task>)
    requires first.MenuTask? && forall task :: task in buttons ==> task.ButtonTask?
    ensures MenuKeyList([first] + buttons + below) == [first.key] + MenuKeyList(below)
  {
    hide MenuKeyList;
    KeyListAppend([first] + buttons, below);
    KeyListAppend([first], buttons);
    ButtonsAddNoMenuKey(buttons);
    OneMenuKey(first);
  }

  lemma KeysBelow(parentKey: string, node: MenuNode)
    requires node.path != ""
    ensures var key := if parentKey == "" then node.path else parentKey + "/" + node.path;
            Below(parentKey, NodeKeys(node)) == [key] + Below(key, KeyList(node.children))
  {
    hide KeyList, Below;
    BelowAppend(parentKey, [node.path], Below(node.path, KeyList(node.children)));
    BelowTwice(parentKey, node.path, KeyList(node.children));
    OneBelow(parentKey, node.path);
  }

  lemma OneMenuKey(task: Task)
    requires task.MenuTask?
    ensures MenuKeyList([task]) == [task.key]
  {
  }

  lemma OneBelow(parentKey: string, path: string)
    ensures Below(parentKey, [path]) == [if parentKey == "" then path else parentKey + "/" + path]
  {
  }

  lemma {:induction false} FlattenKeys(nodes: seq<MenuNode>, parent: int, parentKey: string, start: nat)
    requires PathsNotBlank(Flatten(nodes, parent, parentKey, start))
    ensures MenuKeyList(Flatten(nodes, parent, parentKey, start)) == Below(parentKey, KeyList(nodes))
    decreases nodes, 1
  {
    hide MenuKey, NodeTasks, NodeKeys, IsBlank, Below;
    if nodes == [] {
      assert Below(parentKey, []) == [];
    } else {
      var key := MenuKey(parentKey, nodes[0].path, nodes[0].name);
      var own := NodeTasks(nodes[0], parent, key, start);
      var next: nat := start + |own|;
      var others := Flatten(nodes[1..], parent, parentKey, next);
      assert Flatten(nodes, parent, parentKey, start) == own + others;
      NodeTaskKeys(nodes[0], parent, parentKey, start);
      FlattenKeys(nodes[1..], parent, parentKey, next);
      KeyListAppend(own, others);
      BelowAppend(parentKey, NodeKeys(nodes[0]), KeyList(nodes[1..]));
    }
  }

  // ----- the check on the tree -----

  // The path of y goes on from the path of x with a `/`, and what follows is met again below x:
  // as the key of a menu there, or as its beginning, with the rest below y.
  predicate Splits(x: MenuNode, y: MenuNode) {
    && x.path + "/" <= y.path
    && var rest := y.path[|x.path| + 1..];
       || rest in KeyList(x.children)
       || exists key :: key in KeyList(y.children) && rest + "/" + key in KeyList(x.children)
  }

  predicate NoSplits(nodes: seq<MenuNode>)
    decreases nodes
  {
    && (forall i, j :: 0 <= i < j < |nodes| ==> !Splits(nodes[i], nodes[j]) && !Splits(nodes[j], nodes[i]))
    && (forall node :: node in nodes ==> NoSplits(node.children))
  }

  ghost predicate Disjoint(a: seq<string>, b: seq<string>) {
    forall key :: key in a ==> key !in b
  }

  lemma DistinctAppend(a: seq<string>, b: seq<string>)
    ensures Distinct(a + b) <==> Distinct(a) && Distinct(b) && Disjoint(a, b)
  {
    var s := a + b;
    if Distinct(s) {
      forall i, j | 0 <= i < j < |a| ensures a[i] != a[j] { assert s[i] == a[i] && s[j] == a[j]; }
      forall i, j | 0 <= i < j < |b| ensures b[i] != b[j] { assert s[|a| + i] == b[i] && s[|a| + j] == b[j]; }
      forall i, j | 0 <= i < |a| && 0 <= j < |b| ensures a[i] != b[j] { assert s[i] == a[i] && s[|a| + j] == b[j]; }
    }
    if Distinct(a) && Distinct(b) && Disjoint(a, b) {
      forall i, j | 0 <= i < j < |s|
        ensures s[i] != s[j]
      {
        if j < |a| {
          assert s[i] == a[i] && s[j] == a[j];
        } else if i < |a| {
          assert s[i] in a && s[j] in b;
        } else {
          assert s[i] == b[i - |a|] && s[j] == b[j - |a|];
        }
      }
    }
  }

  lemma DistinctBelow(path: string, keys: seq<string>)
    requires path != ""
    ensures Distinct([path] + Below(path, keys)) <==> Distinct(keys)
  {
    var moved := Below(path, keys);
    DistinctAppend([path], moved);
    assert forall i :: 0 <= i < |keys| ==> moved[i][|path| + 1..] == keys[i] && |moved[i]| > |path|;
    if Distinct(moved) {
      forall i, j | 0 <= i < j < |keys| ensures keys[i] != keys[j] { assert moved[i] != moved[j]; }
    }
  }

  // Two texts around a separator are equal only if the longer front goes on from the shorter one.
  lemma FrontsExtend(a: string, x: string, b: string, y: string, c: char)
    requires a + [c] + x == b + [c] + y && |a| < |b|
    ensures a + [c] <= b && x == b[|a| + 1..] + [c] + y
  {
    var s := a + [c] + x;
    assert s[..|b|] == b && s[..|a| + 1] == a + [c];
    assert s[|a| + 1..] == x && s[|a| + 1..] == b[|a| + 1..] + [c] + y;
  }

  lemma FrontsAgree(a: string, x: string, b: string, y: string, c: char)
    requires a + [c] + x == b + [c] + y && |a| == |b|
    ensures a == b && x == y
  {
    var s := a + [c] + x;
    assert s[..|a|] == a && s[..|b|] == b && s[|a| + 1..] == x && s[|b| + 1..] == y;
  }

  lemma NodeKeysAre(node: MenuNode, key: string)
    requires node.path != ""
    ensures key in NodeKeys(node) <==>
            key == node.path || (node.path + "/" <= key && key[|node.path| + 1..] in KeyList(node.children))
  {
    hide KeyList;
    var keys := KeyList(node.children);
    var moved := Below(node.path, keys);
    if key in moved {
      var i :| 0 <= i < |moved| && moved[i] == key;
      assert key[|node.path| + 1..] == keys[i];
    }
    if node.path + "/" <= key && key[|node.path| + 1..] in keys {
      var i :| 0 <= i < |keys| && keys[i] == key[|node.path| + 1..];
      assert moved[i] == key;
    }
  }

  lemma SplitGivesCommonKey(x: MenuNode, y: MenuNode)
    requires x.path != "" && y.path != "" && Splits(x, y)
    ensures !Disjoint(NodeKeys(x), NodeKeys(y))
  {
    hide KeyList, NodeKeys;
    var rest := y.path[|x.path| + 1..];
    assert y.path == x.path + "/" + rest;
    if rest in KeyList(x.children) {
      NodeKeysAre(x, y.path);
      NodeKeysAre(y, y.path);
    } else {
      var key :| key in KeyList(y.children) && rest + "/" + key in KeyList(x.children);
      var common := y.path + "/" + key;
      assert common == x.path + "/" + (rest + "/" + key);
      assert common[|x.path| + 1..] == rest + "/" + key && common[|y.path| + 1..] == key;
      NodeKeysAre(x, common);
      NodeKeysAre(y, common);
    }
  }

  // A common key of two siblings, the first of them with the shorter path.
  lemma CommonKeyGivesSplit(x: MenuNode, y: MenuNode, key: string)
    requires x.path != "" && |x.path| < |y.path| && key in NodeKeys(x) && key in NodeKeys(y)
    ensures Splits(x, y)
  {
    hide KeyList, NodeKeys;
    NodeKeysAre(x, key);
    NodeKeysAre(y, key);
    var below := key[|x.path| + 1..];
    var rest := y.path[|x.path| + 1..];
    assert key == x.path + ['/'] + below;
    if key != y.path {
      var tail := key[|y.path| + 1..];
      assert key == y.path + ['/'] + tail;
      FrontsExtend(x.path, below, y.path, tail, '/');
      assert below == rest + "/" + tail;
    }
  }

  lemma SiblingKeysDisjointIff(x: MenuNode, y: MenuNode)
    requires x.path != "" && y.path != "" && x.path != y.path
    ensures Disjoint(NodeKeys(x), NodeKeys(y)) <==> !Splits(x, y) && !Splits(y, x)
  {
    hide Splits, NodeKeys;
    if Splits(x, y) { SplitGivesCommonKey(x, y); }
    if Splits(y, x) { SplitGivesCommonKey(y, x); }
    forall key | key in NodeKeys(x) && key in NodeKeys(y)
      ensures Splits(x, y) || Splits(y, x)
    {
      if |x.path| < |y.path| {
        CommonKeyGivesSplit(x, y, key);
      } else if |y.path| < |x.path| {
        CommonKeyGivesSplit(y, x, key);
      } else {
        SameLengthNoCommonKey(x, y, key);
      }
    }
  }

  lemma SameLengthNoCommonKey(x: MenuNode, y: MenuNode, key: string)
    requires x.path != "" && y.path != "" && |x.path| == |y.path| && key in NodeKeys(x) && key in NodeKeys(y)
    ensures x.path == y.path
  {
    hide KeyList, NodeKeys;
    NodeKeysAre(x, key);
    NodeKeysAre(y, key);
    assert key[..|x.path|] == x.path && key[..|y.path|] == y.path;
  }

  predicate NoEmptyPath(nodes: seq<MenuNode>)
    decreases nodes
  {
    forall node :: node in nodes ==> node.path != "" && NoEmptyPath(node.children)
  }

  // The first node against its later siblings.
  lemma {:induction false} FirstDisjointIff(x: MenuNode, nodes: seq<MenuNode>)
    requires x.path != "" && forall y :: y in nodes ==> y.path != "" && y.path != x.path
    ensures Disjoint(NodeKeys(x), KeyList(nodes)) <==>
            forall y :: y in nodes ==> !Splits(x, y) && !Splits(y, x)
    decreases |nodes|
  {
    hide NodeKeys, Splits;
    if nodes != [] {
      SiblingKeysDisjointIff(x, nodes[0]);
      FirstDisjointIff(x, nodes[1..]);
      assert nodes == [nodes[0]] + nodes[1..];
      assert forall key :: key in KeyList(nodes) <==> key in NodeKeys(nodes[0]) || key in KeyList(nodes[1..]);
    }
  }

  lemma NoSplitsFirst(nodes: seq<MenuNode>)
    requires nodes != []
    ensures NoSplits(nodes) <==>
            && (forall y :: y in nodes[1..] ==> !Splits(nodes[0], y) && !Splits(y, nodes[0]))
            && NoSplits(nodes[0].children) && NoSplits(nodes[1..])
  {
    hide Splits;
    var others := nodes[1..];
    assert nodes == [nodes[0]] + others;
    if NoSplits(nodes) {
      forall y | y in others
        ensures !Splits(nodes[0], y) && !Splits(y, nodes[0])
      {
        var j :| 0 <= j < |others| && others[j] == y;
        assert nodes[j + 1] == y;
      }
    }
    if (forall y :: y in others ==> !Splits(nodes[0], y) && !Splits(y, nodes[0])) && NoSplits(others) {
      forall i, j | 0 <= i < j < |nodes|
        ensures !Splits(nodes[i], nodes[j]) && !Splits(nodes[j], nodes[i])
      {
        assert nodes[j] == others[j - 1] && nodes[j] in others;
        if i > 0 {
          assert nodes[i] == others[i - 1];
        }
      }
    }
  }

  lemma {:induction false} KeysDistinctIff(nodes: seq<MenuNode>)
    requires SiblingsDistinct(nodes) && NoEmptyPath(nodes)
    ensures Distinct(KeyList(nodes)) <==> NoSplits(nodes)
    decreases nodes
  {
    hide Splits, NoSplits, Distinct, Below;
    if nodes == [] {
      NothingSplits();
    } else {
      var x, others := nodes[0], nodes[1..];
      assert nodes == [x] + others;
      SiblingsRest(nodes);
      KeysDistinctIff(x.children);
      KeysDistinctIff(others);
      DistinctBelow(x.path, KeyList(x.children));
      DistinctAppend(NodeKeys(x), KeyList(others));
      FirstDisjointIff(x, others);
      NoSplitsFirst(nodes);
    }
  }

  lemma NothingSplits()
    ensures NoSplits([]) && Distinct<string>([])
  {
  }

  lemma SiblingsRest(nodes: seq<MenuNode>)
    requires nodes != [] && SiblingsDistinct(nodes)
    ensures SiblingsDistinct(nodes[1..]) && SiblingsDistinct(nodes[0].children)
    ensures forall y :: y in nodes[1..] ==> y.path != nodes[0].path
  {
    assert nodes == [nodes[0]] + nodes[1..];
    forall y | y in nodes[1..]
      ensures y.path != nodes[0].path
    {
      var j :| 0 <= j < |nodes[1..]| && nodes[1..][j] == y;
      assert nodes[j + 1] == y;
    }
  }

  lemma NotBlankInParts(a: seq<Task>, b: seq<Task>)
    requires PathsNotBlank(a + b)
    ensures PathsNotBlank(a) && PathsNotBlank(b)
  {
    hide IsBlank;
    assert forall task :: task in a || task in b ==> task in a + b;
  }

  lemma NoEmptyPathFirst(nodes: seq<MenuNode>)
    requires nodes != [] && nodes[0].path != "" && NoEmptyPath(nodes[0].children) && NoEmptyPath(nodes[1..])
    ensures NoEmptyPath(nodes)
  {
    assert nodes == [nodes[0]] + nodes[1..];
  }

  lemma {:induction false} NotBlankNode(node: MenuNode, parent: int, key: string, start: nat)
    requires PathsNotBlank(NodeTasks(node, parent, key, start))
    ensures node.path != "" && NoEmptyPath(node.children)
    decreases node, 0
  {
    var first := [MenuTask(key, parent, node)] + ButtonTasks(node.buttons, key, start);
    var next: nat := start + 1 + |node.buttons|;
    assert NodeTasks(node, parent, key, start) == first + Flatten(node.children, start, key, next);
    hide Flatten, NodeTasks, IsBlank, NoEmptyPath, ButtonTasks;
    NotBlankInParts(first, Flatten(node.children, start, key, next));
    assert first[0] in first;
    BlankIsNotEmpty(node.path);
    NotBlankMeansNotEmpty(node.children, start, key, next);
  }

  lemma {:induction false} NotBlankMeansNotEmpty(nodes: seq<MenuNode>, parent: int, parentKey: string, start: nat)
    requires PathsNotBlank(Flatten(nodes, parent, parentKey, start))
    ensures NoEmptyPath(nodes)
    decreases nodes, 1
  {
    hide IsBlank, MenuKey, PathsNotBlank, NodeTasks;
    if nodes != [] {
      var key := MenuKey(parentKey, nodes[0].path, nodes[0].name);
      var own := NodeTasks(nodes[0], parent, key, start);
      NotBlankInParts(own, Flatten(nodes[1..], parent, parentKey, start + |own|));
      NotBlankNode(nodes[0], parent, key, start);
      NotBlankMeansNotEmpty(nodes[1..], parent, parentKey, start + |own|);
      NoEmptyPathFirst(nodes);
    }
  }

  // The menu changes of a plan have distinct keys exactly when no path of a sibling list goes on
  // from a sibling's path with what is found below that sibling.
  lemma MenuKeysDistinctIff(nodes: seq<MenuNode>)
    requires ValidSpec(nodes)
    ensures Distinct(MenuKeyList(Flatten(nodes, -1, "", 0))) <==> NoSplits(nodes)
  {
    hide Flatten, Clean, SiblingsDistinct, PathsNotBlank, NoSplits, MenuKeyList, KeyList, Distinct;
    CleanIsNotBlank(Flatten(nodes, -1, "", 0), {}, {});
    FlattenKeys(nodes, -1, "", 0);
    assert Below("", KeyList(nodes)) == KeyList(nodes);
    NotBlankMeansNotEmpty(nodes, -1, "", 0);
    KeysDistinctIff(nodes);
  }

  // In particular they are distinct when no sibling's path goes on from another's with a `/`,
  // whatever slashes the paths hold otherwise.
  predicate NoPathGoesOn(nodes: seq<MenuNode>)
    decreases nodes
  {
    && (forall i, j :: 0 <= i < |nodes| && 0 <= j < |nodes| && i != j ==> !(nodes[i].path + "/" <= nodes[j].path))
    && (forall node :: node in nodes ==> NoPathGoesOn(node.children))
  }

  lemma {:induction false} SeparatePathsDoNotSplit(nodes: seq<MenuNode>)
    requires NoPathGoesOn(nodes)
    ensures NoSplits(nodes)
    decreases nodes
  {
    hide KeyList;
    forall node | node in nodes
      ensures NoSplits(node.children)
    {
      SeparatePathsDoNotSplit(node.children);
    }
  }
}
