/**
 Validation of a menu configuration (crates/summer-domain/src/menu.rs:460-528).
 */
module MenuValidation {
  import opened Wrappers
  import opened Text
  import opened MenuSpec

  function NamesIn(tasks: seq<Task>): set<string> {
    if tasks == [] then {} else NameSet(tasks[0]) + NamesIn(tasks[1..])
  }

  function MarksIn(tasks: seq<Task>): set<string> {
    if tasks == [] then {} else MarkSet(tasks[0]) + MarksIn(tasks[1..])
  }

  lemma {:induction false} CleanAppend(a: seq<Task>, b: seq<Task>, names: set<string>, marks: set<string>)
    ensures Clean(a + b, names, marks) <==> Clean(a, names, marks) && Clean(b, names + NamesIn(a), marks + MarksIn(a))
    ensures NamesIn(a + b) == NamesIn(a) + NamesIn(b) && MarksIn(a + b) == MarksIn(a) + MarksIn(b)
    decreases |a|
  {
    hide CleanTask, NameSet, MarkSet;
    if a == [] {
      assert a + b == b;
      assert names + {} == names && marks + {} == marks;
    } else {
      assert (a + b)[1..] == a[1..] + b;
      CleanAppend(a[1..], b, names + NameSet(a[0]), marks + MarkSet(a[0]));
      assert names + NamesIn(a) == names + NameSet(a[0]) + NamesIn(a[1..]);
      assert marks + MarksIn(a) == marks + MarkSet(a[0]) + MarksIn(a[1..]);
    }
  }

  lemma CleanOne(task: Task, names: set<string>, marks: set<string>)
    ensures Clean([task], names, marks) <==> CleanTask(task, names, marks)
    ensures NamesIn([task]) == NameSet(task) && MarksIn([task]) == MarkSet(task)
  {
    assert [task][1..] == [];
  }

  method ValidateButtons(
      buttons: seq<MenuButton>, marks: set<string>, ghost key: string, ghost parent: int, ghost names: set<string>)
    returns (error: Option<MenuError>, marks': set<string>)
    ensures error.None? <==> Clean(ButtonTasks(buttons, key, parent), names, marks)
    ensures error.None? ==> marks' == marks + MarksIn(ButtonTasks(buttons, key, parent))
  {
    hide CleanTask, IsBlank, Clean, MarksIn;
    ghost var tasks := ButtonTasks(buttons, key, parent);
    var siblings: set<string> := {};
    marks' := marks;
    NothingIsClean();
    for i := 0 to |buttons|
      invariant siblings <= marks'
      invariant Clean(tasks[..i], names, marks)
      invariant marks' == marks + MarksIn(tasks[..i])
    {
      var button := buttons[i];
      OneMoreButton(tasks, i, names, marks);
      ButtonIsClean(tasks[i], {}, marks');
      StaysDirty(tasks, i + 1, names, marks);
      if IsBlank(button.authName) || IsBlank(button.authMark) {
        return Some(BlankField), marks';
      }
      if button.authMark in siblings {
        return Some(DuplicateMark(button.authMark)), marks';
      }
      siblings := siblings + {button.authMark};
      if button.authMark in marks' {
        return Some(DuplicateMark(button.authMark)), marks';
      }
      marks' := marks' + {button.authMark};
    }
    assert tasks[..|buttons|] == tasks;
    error := None;
  }

  lemma NothingIsClean()
    ensures forall names, marks :: Clean([], names, marks)
    ensures NamesIn([]) == {} && MarksIn([]) == {}
  {
  }

  lemma ButtonIsClean(task: Task, names: set<string>, marks: set<string>)
    requires task.ButtonTask?
    ensures CleanTask(task, names, marks) <==>
            !IsBlank(task.button.authName) && !IsBlank(task.button.authMark) && task.button.authMark !in marks
    ensures MarkSet(task) == {task.button.authMark} && NameSet(task) == {}
  {
    hide IsBlank;
  }

  lemma OneMoreButton(tasks: seq<Task>, i: nat, names: set<string>, marks: set<string>)
    requires i < |tasks| && tasks[i].ButtonTask?
    requires Clean(tasks[..i], names, marks)
    ensures Clean(tasks[..i + 1], names, marks) <==> CleanTask(tasks[i], {}, marks + MarksIn(tasks[..i]))
    ensures MarksIn(tasks[..i + 1]) == MarksIn(tasks[..i]) + {tasks[i].button.authMark}
  {
    hide Clean, NamesIn, MarksIn, IsBlank;
    assert tasks[..i + 1] == tasks[..i] + [tasks[i]];
    CleanAppend(tasks[..i], [tasks[i]], names, marks);
    CleanOne(tasks[i], names + NamesIn(tasks[..i]), marks + MarksIn(tasks[..i]));
    ButtonIsClean(tasks[i], names + NamesIn(tasks[..i]), marks + MarksIn(tasks[..i]));
    ButtonIsClean(tasks[i], {}, marks + MarksIn(tasks[..i]));
  }

  lemma StaysDirty(tasks: seq<Task>, i: nat, names: set<string>, marks: set<string>)
    requires i <= |tasks|
    ensures Clean(tasks, names, marks) ==> Clean(tasks[..i], names, marks)
  {
    hide Clean;
    assert tasks == tasks[..i] + tasks[i..];
    CleanAppend(tasks[..i], tasks[i..], names, marks);
  }

  // The tasks of a node: the node, its buttons, its children.
  lemma NodeIsClean(node: MenuNode, parent: int, key: string, start: nat, names: set<string>, marks: set<string>)
    ensures var own := NodeTasks(node, parent, key, start);
            var first := MenuTask(key, parent, node);
            var buttons := ButtonTasks(node.buttons, key, start);
            var below := Flatten(node.children, start, key, start + 1 + |node.buttons|);
            && (Clean(own, names, marks) <==>
                CleanTask(first, names, marks) && Clean(buttons, names + {node.name}, marks)
                && Clean(below, names + {node.name}, marks + MarksIn(buttons)))
            && NamesIn(own) == {node.name} + NamesIn(below)
            && MarksIn(own) == MarksIn(buttons) + MarksIn(below)
  {
    hide Clean, CleanTask, Flatten, ButtonTasks, NamesIn, MarksIn;
    var first := MenuTask(key, parent, node);
    var buttons := ButtonTasks(node.buttons, key, start);
    var below := Flatten(node.children, start, key, start + 1 + |node.buttons|);
    CleanOne(first, names, marks);
    CleanAppend([first], buttons, names, marks);
    CleanAppend([first] + buttons, below, names, marks);
    ButtonsHaveNoNames(node.buttons, key, start);
    assert marks + {} == marks;
    assert {} + MarksIn(buttons) == MarksIn(buttons);
    assert names + ({node.name} + {}) == names + {node.name};
  }

  lemma ButtonsHaveNoNames(buttons: seq<MenuButton>, key: string, parent: int)
    ensures NamesIn(ButtonTasks(buttons, key, parent)) == {}
  {
    NoNames(ButtonTasks(buttons, key, parent));
  }

  lemma {:induction false} NoNames(tasks: seq<Task>)
    requires forall task :: task in tasks ==> task.ButtonTask?
    ensures NamesIn(tasks) == {}
  {
    if tasks != [] {
      assert tasks[0] in tasks;
      NoNames(tasks[1..]);
    }
  }

  lemma SiblingsSplit(nodes: seq<MenuNode>, i: nat)
    requires i < |nodes|
    requires PathsDistinct(nodes[..i])
    ensures SiblingsDistinct(nodes) ==> SiblingsDistinct(nodes[i].children) && PathsDistinct(nodes)
    ensures PathsDistinct(nodes) ==> forall k :: 0 <= k < i ==> nodes[k].path != nodes[i].path
    ensures (forall k :: 0 <= k < i ==> nodes[k].path != nodes[i].path) ==> PathsDistinct(nodes[..i + 1])
  {
    hide SiblingsDistinct;
    SiblingsBelow(nodes, i);
    if forall k :: 0 <= k < i ==> nodes[k].path != nodes[i].path {
      OneMorePath(nodes, i);
    }
  }

  lemma OneMorePath(nodes: seq<MenuNode>, i: nat)
    requires i < |nodes| && PathsDistinct(nodes[..i])
    requires forall k :: 0 <= k < i ==> nodes[k].path != nodes[i].path
    ensures PathsDistinct(nodes[..i + 1])
  {
    var shorter, longer := nodes[..i], nodes[..i + 1];
    forall a, b | 0 <= a < b < |longer|
      ensures longer[a].path != longer[b].path
    {
      if b < i {
        assert longer[a] == shorter[a] && longer[b] == shorter[b];
      }
    }
  }

  lemma SiblingsBelow(nodes: seq<MenuNode>, i: nat)
    requires i < |nodes|
    ensures SiblingsDistinct(nodes) ==> SiblingsDistinct(nodes[i].children) && PathsDistinct(nodes)
  {
    hide PathsDistinct;
    assert nodes[i] in nodes;
  }

  lemma SiblingsDone(nodes: seq<MenuNode>)
    requires PathsDistinct(nodes) && forall k :: 0 <= k < |nodes| ==> SiblingsDistinct(nodes[k].children)
    ensures SiblingsDistinct(nodes)
  {
  }

  method ValidateMenuNodes(nodes: seq<MenuNode>, names: set<string>, marks: set<string>,
                           ghost parent: int, ghost key: string, ghost start: nat)
    returns (error: Option<MenuError>, names': set<string>, marks': set<string>)
    ensures error.None? <==> SiblingsDistinct(nodes) && Clean(Flatten(nodes, parent, key, start), names, marks)
    ensures error.None? ==>
              && names' == names + NamesIn(Flatten(nodes, parent, key, start))
              && marks' == marks + MarksIn(Flatten(nodes, parent, key, start))
    decreases nodes
  {
    hide Clean, CleanTask, Flatten, NodeTasks, IsBlank, SiblingsDistinct, NamesIn, MarksIn, MenuKey, PathsDistinct;
    var siblings: set<string> := {};
    names', marks' := names, marks;
    ghost var here: nat := start;
    ghost var all := Flatten(nodes, parent, key, start);
    ghost var rest := all;
    ghost var done: seq<Task> := [];
    NothingIsClean();
    assert nodes[0..] == nodes;
    assert PathsDistinct(nodes[..0]) by { NoPaths(); }
    var i := 0;
    while i < |nodes|
      invariant 0 <= i <= |nodes|
      invariant rest == Flatten(nodes[i..], parent, key, here) && all == done + rest
      invariant Clean(done, names, marks)
      invariant names' == names + NamesIn(done) && marks' == marks + MarksIn(done)
      invariant PathsDistinct(nodes[..i])
      invariant forall k :: 0 <= k < i ==> SiblingsDistinct(nodes[k].children)
      invariant forall path :: path in siblings <==> exists k :: 0 <= k < i && nodes[k].path == path
    {
      var node := nodes[i];
      ghost var nodeKey := MenuKey(key, node.path, node.name);
      ghost var own := NodeTasks(node, parent, nodeKey, here);
      ghost var others := Flatten(nodes[i + 1..], parent, key, here + |own|);
      assert rest == own + others by { FlattenFirst(nodes, i, parent, key, here); }
      assert all == done + own + others;
      CleanAppend(done, own, names, marks);
      CleanAppend(done + own, others, names, marks);
      NodeIsClean(node, parent, nodeKey, here, names', marks');
      MenuIsClean(node, parent, nodeKey, names', marks');
      SiblingsSplit(nodes, i);
      if IsBlank(node.name) || IsBlank(node.path) || IsBlank(node.title) {
        return Some(BlankField), names', marks';
      }
      if node.path in siblings {
        return Some(DuplicatePath(node.path)), names', marks';
      }
      siblings := siblings + {node.path};
      if node.name in names' {
        return Some(DuplicateName(node.name)), names', marks';
      }
      names' := names' + {node.name};
      var buttonError;
      buttonError, marks' := ValidateButtons(node.buttons, marks', nodeKey, here, names');
      if buttonError.Some? {
        return buttonError, names', marks';
      }
      var childError;
      childError, names', marks' := ValidateMenuNodes(node.children, names', marks', here, nodeKey,
          here + 1 + |node.buttons|);
      if childError.Some? {
        return childError, names', marks';
      }
      done := done + own;
      rest := others;
      here := here + |own|;
      i := i + 1;
    }
    assert nodes[..i] == nodes && nodes[i..] == [];
    assert rest == [] by { FlattenNothing(parent, key, here); }
    assert done == all;
    SiblingsDone(nodes);
    error := None;
  }

  lemma NoPaths()
    ensures PathsDistinct([])
  {
  }

  lemma FlattenNothing(parent: int, key: string, start: nat)
    ensures Flatten([], parent, key, start) == []
  {
  }

  lemma FlattenFirst(nodes: seq<MenuNode>, i: nat, parent: int, key: string, start: nat)
    requires i < |nodes|
    ensures var own := NodeTasks(nodes[i], parent, MenuKey(key, nodes[i].path, nodes[i].name), start);
            Flatten(nodes[i..], parent, key, start) == own + Flatten(nodes[i + 1..], parent, key, start + |own|)
  {
    hide NodeTasks, MenuKey;
    assert nodes[i..][0] == nodes[i] && nodes[i..][1..] == nodes[i + 1..];
  }

  lemma MenuIsClean(node: MenuNode, parent: int, key: string, names: set<string>, marks: set<string>)
    ensures CleanTask(MenuTask(key, parent, node), names, marks) <==>
            !IsBlank(node.name) && !IsBlank(node.path) && !IsBlank(node.title) && node.name !in names
  {
    hide IsBlank;
  }

  method ValidateMenuConfigSpec(nodes: seq<MenuNode>) returns (error: Option<MenuError>)
    ensures error.None? <==> ValidSpec(nodes)
  {
    var names, marks;
    error, names, marks := ValidateMenuNodes(nodes, {}, {}, -1, "", 0);
  }
}
