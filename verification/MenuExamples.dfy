/**
 Small configurations for the cases that the laws of planning leave out.
 */
module MenuExamples {
  import opened Wrappers
  import opened Text
  import opened MenuSpec

  // A menu with a name, a path, the title `t` and nothing else.
  function PlainNode(name: string, path: string, children: seq<MenuNode>): MenuNode {
    MenuNode(
      name, path, None, None, None, "t", None, None, None, None, None, None, None, None, None, None, None, None, None,
      [], children)
  }

  lemma PlainTextIsNotBlank()
    ensures !IsBlank("b") && !IsBlank("c") && !IsBlank("x") && !IsBlank("y") && !IsBlank("t")
    ensures !IsBlank("a") && !IsBlank("z") && !IsBlank("a/b") && !IsBlank("a#b")
  {
  }

  // Below `a` stands `b`, and beside it `a/b`.
  const INNER := PlainNode("x", "b", [])
  const SLASH_EXAMPLE := [PlainNode("y", "a", [INNER]), PlainNode("z", "a/b", [])]

  lemma SlashTasks()
    ensures Flatten(SLASH_EXAMPLE, -1, "", 0) ==
            [MenuTask("a", -1, SLASH_EXAMPLE[0]), MenuTask("a/b", 0, INNER), MenuTask("a/b", -1, SLASH_EXAMPLE[1])]
  {
    hide IsBlank;
    PlainTextIsNotBlank();
    var first, last := SLASH_EXAMPLE[0], SLASH_EXAMPLE[1];
    assert MenuKey("", "a", "y") == "a" && MenuKey("a", "b", "x") == "a/b" && MenuKey("", "a/b", "z") == "a/b";
    assert Flatten([], 0, "a", 2) == [] && Flatten([], 1, "a/b", 2) == [];
    assert Flatten([], 2, "a/b", 3) == [] && Flatten([], -1, "", 3) == [];
    assert NodeTasks(INNER, 0, "a/b", 1) == [MenuTask("a/b", 0, INNER)];
    assert Flatten([INNER], 0, "a", 1) == [MenuTask("a/b", 0, INNER)];
    assert NodeTasks(first, -1, "a", 0) == [MenuTask("a", -1, first), MenuTask("a/b", 0, INNER)];
    assert NodeTasks(last, -1, "a/b", 2) == [MenuTask("a/b", -1, last)];
    assert SLASH_EXAMPLE[1..] == [last] && [last][1..] == [];
    assert Flatten([last], -1, "", 2) == [MenuTask("a/b", -1, last)];
  }

  // Three menus without buttons, with different names and no blank field.
  lemma ThreeMenusAreClean(tasks: seq<Task>)
    requires |tasks| == 3 && tasks[0].MenuTask? && tasks[1].MenuTask? && tasks[2].MenuTask?
    requires forall task :: task in tasks ==>
               !IsBlank(task.node.name) && !IsBlank(task.node.path) && !IsBlank(task.node.title)
    requires tasks[0].node.name != tasks[1].node.name && tasks[0].node.name != tasks[2].node.name
    requires tasks[1].node.name != tasks[2].node.name
    ensures Clean(tasks, {}, {})
  {
    hide IsBlank;
    var a, b, c := tasks[0], tasks[1], tasks[2];
    assert a in tasks && b in tasks && c in tasks;
    assert tasks[1..] == [b, c] && [b, c][1..] == [c] && [c][1..] == [];
    var names1 := {} + NameSet(a);
    var names2 := names1 + NameSet(b);
    assert Clean([c], names2, {} + MarkSet(a) + MarkSet(b));
    assert Clean([b, c], names1, {} + MarkSet(a));
  }

  // Two menus of a valid configuration may have one key.
  lemma MenusMayShareAKey()
    ensures ValidSpec(SLASH_EXAMPLE)
    ensures var tasks := Flatten(SLASH_EXAMPLE, -1, "", 0);
            |tasks| == 3 && tasks[1].MenuTask? && tasks[2].MenuTask? && tasks[1].key == tasks[2].key == "a/b"
  {
    hide IsBlank, Flatten;
    SlashTasks();
    PlainTextIsNotBlank();
    ThreeMenusAreClean(Flatten(SLASH_EXAMPLE, -1, "", 0));
    assert SiblingsDistinct([]) && SiblingsDistinct([INNER]);
    assert SLASH_EXAMPLE[0].path != SLASH_EXAMPLE[1].path;
  }

  // The menu `a` with a button marked `b`, and beside it the menu `a#b`.
  const MARKED := PlainNode("y", "a", []).(buttons := [MenuButton("t", "b", None, None)])
  const HASH_EXAMPLE := [MARKED, PlainNode("z", "a#b", [])]

  lemma HashTasks()
    ensures Flatten(HASH_EXAMPLE, -1, "", 0) ==
            [MenuTask("a", -1, MARKED), ButtonTask("a#b", 0, MARKED.buttons[0]), MenuTask("a#b", -1, HASH_EXAMPLE[1])]
  {
    hide IsBlank;
    PlainTextIsNotBlank();
    var last := HASH_EXAMPLE[1];
    assert MenuKey("", "a", "y") == "a" && MenuKey("", "a#b", "z") == "a#b";
    assert Flatten([], 0, "a", 2) == [] && Flatten([], 2, "a#b", 3) == [] && Flatten([], -1, "", 3) == [];
    assert MARKED.buttons[0].authMark == "b" && "a" + "#" + "b" == "a#b";
    assert ButtonTasks(MARKED.buttons, "a", 0) == [ButtonTask("a#b", 0, MARKED.buttons[0])];
    assert NodeTasks(MARKED, -1, "a", 0) == [MenuTask("a", -1, MARKED), ButtonTask("a#b", 0, MARKED.buttons[0])];
    assert NodeTasks(last, -1, "a#b", 2) == [MenuTask("a#b", -1, last)];
    assert HASH_EXAMPLE[1..] == [last] && [last][1..] == [];
    assert Flatten([last], -1, "", 2) == [MenuTask("a#b", -1, last)];
  }

  // A button and a menu of a valid configuration may have one key.
  lemma ButtonAndMenuMayShareAKey()
    ensures ValidSpec(HASH_EXAMPLE)
    ensures var tasks := Flatten(HASH_EXAMPLE, -1, "", 0);
            |tasks| == 3 && tasks[1].ButtonTask? && tasks[2].MenuTask? && tasks[1].key == tasks[2].key == "a#b"
  {
    hide IsBlank, Flatten;
    HashTasks();
    PlainTextIsNotBlank();
    var tasks := Flatten(HASH_EXAMPLE, -1, "", 0);
    var a, b, c := tasks[0], tasks[1], tasks[2];
    assert tasks[1..] == [b, c] && [b, c][1..] == [c] && [c][1..] == [];
    var names1 := {} + NameSet(a);
    assert Clean([c], names1 + NameSet(b), {} + MarkSet(a) + MarkSet(b));
    assert Clean([b, c], names1, {} + MarkSet(a));
    assert SiblingsDistinct([]);
    assert HASH_EXAMPLE[0].path != HASH_EXAMPLE[1].path;
  }
}
