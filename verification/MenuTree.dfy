/**
 The menu tree (crates/summer-domain/src/menu.rs:1060-1122): built from parent 0, it ends even
 when other rows form parent cycles, and holds every Menu row whose parents lead to 0, once.
 */
module MenuTree {
  import opened Counting
  import opened MenuSpec

  datatype Tree = Tree(row: Row, authList: seq<Row>, children: seq<Tree>)

  predicate UniqueIds(menus: seq<Row>) {
    && (forall i, j :: 0 <= i < j < |menus| ==> menus[i].id != menus[j].id)
    && (forall row :: row in menus ==> row.id != 0)
  }

  // The rows of a kind below a parent, in the order of the table.
  function Below(menus: seq<Row>, parent: int, kind: Kind): (rows: seq<Row>)
    ensures forall row :: row in rows <==> row in menus && row.parent == parent && row.kind == kind
  {
    if menus == [] then []
    else
      assert menus == [menus[0]] + menus[1..];
      (if menus[0].parent == parent && menus[0].kind == kind then [menus[0]] else []) + Below(menus[1..], parent, kind)
  }

  function LastId(path: seq<Row>): int { if path == [] then 0 else path[|path| - 1].id }

  // Menu rows from the root downwards, each below the one before it.
  ghost predicate Chain(menus: seq<Row>, path: seq<Row>) {
    forall i :: 0 <= i < |path| ==> path[i] in menus && path[i].kind == Menu && path[i].parent == LastId(path[..i])
  }

  lemma ChainGrows(menus: seq<Row>, path: seq<Row>, row: Row)
    requires Chain(menus, path) && row in menus && row.kind == Menu && row.parent == LastId(path)
    ensures Chain(menus, path + [row])
  {
    var longer := path + [row];
    forall i | 0 <= i < |longer|
      ensures longer[i] in menus && longer[i].kind == Menu && longer[i].parent == LastId(longer[..i])
    {
      if i < |path| {
        assert longer[..i] == path[..i];
      } else {
        assert longer[..i] == path;
      }
    }
  }

  lemma ChainShrinks(menus: seq<Row>, path: seq<Row>, n: nat)
    requires Chain(menus, path) && n <= |path|
    ensures Chain(menus, path[..n])
  {
    forall i | 0 <= i < n
      ensures path[..n][i] in menus && path[..n][i].kind == Menu && path[..n][i].parent == LastId(path[..n][..i])
    {
      assert path[..n][..i] == path[..i] && path[..n][i] == path[i];
    }
  }

  lemma SameIdSameRow(menus: seq<Row>, a: Row, b: Row)
    requires UniqueIds(menus) && a in menus && b in menus && a.id == b.id
    ensures a == b
  {
    var i :| 0 <= i < |menus| && menus[i] == a;
    var j :| 0 <= j < |menus| && menus[j] == b;
    assert i == j;
  }

  // A row has one way down to it.
  lemma {:induction false} ChainIsUnique(menus: seq<Row>, p: seq<Row>, q: seq<Row>)
    requires UniqueIds(menus) && Chain(menus, p) && Chain(menus, q) && LastId(p) == LastId(q)
    ensures p == q
    decreases |p|
  {
    hide UniqueIds;
    if p == [] || q == [] {
      RootHasNoChain(menus, p);
      RootHasNoChain(menus, q);
    } else {
      var m, n := |p| - 1, |q| - 1;
      SameIdSameRow(menus, p[m], q[n]);
      ChainShrinks(menus, p, m);
      ChainShrinks(menus, q, n);
      ChainIsUnique(menus, p[..m], q[..n]);
      assert p == p[..m] + [p[m]] && q == q[..n] + [q[n]];
    }
  }

  lemma RootHasNoChain(menus: seq<Row>, path: seq<Row>)
    requires UniqueIds(menus) && Chain(menus, path)
    ensures LastId(path) == 0 ==> path == []
  {
  }

  // Pigeonhole: no chain is longer than the table.
  lemma ChainFits(menus: seq<Row>, path: seq<Row>)
    requires UniqueIds(menus) && Chain(menus, path)
    ensures |path| <= |menus|
  {
    hide UniqueIds;
    forall i, j | 0 <= i < j < |path|
      ensures path[i] != path[j]
    {
      if path[i] == path[j] {
        ChainShrinks(menus, path, i + 1);
        ChainShrinks(menus, path, j + 1);
        var a, b := path[..i + 1], path[..j + 1];
        assert |a| == i + 1 && |b| == j + 1;
        ChainIsUnique(menus, a, b);
        assert false;
      }
    }
    DistinctFits(path, menus);
  }

  // path is the chain down to the parent; the program does not carry it.
  function BuildMenuTree(menus: seq<Row>, parent: int, ghost path: seq<Row>): seq<Tree>
    requires UniqueIds(menus) && Chain(menus, path) && parent == LastId(path) && |path| <= |menus|
    decreases |menus| - |path|, 1, 0
  {
    BuildNodes(menus, Below(menus, parent, Menu), path)
  }

  function BuildNodes(menus: seq<Row>, rows: seq<Row>, ghost path: seq<Row>): (trees: seq<Tree>)
    requires UniqueIds(menus) && Chain(menus, path) && |path| <= |menus|
    requires forall row :: row in rows ==> row in menus && row.kind == Menu && row.parent == LastId(path)
    ensures |trees| == |rows|
    decreases |menus| - |path|, 0, |rows|
  {
    if rows == [] then []
    else
      ChainGrows(menus, path, rows[0]);
      ChainFits(menus, path + [rows[0]]);
      [Tree(rows[0], Below(menus, rows[0].id, Button), BuildMenuTree(menus, rows[0].id, path + [rows[0]]))]
      + BuildNodes(menus, rows[1..], path)
  }

  lemma FirstTree(menus: seq<Row>, rows: seq<Row>, path: seq<Row>)
    requires UniqueIds(menus) && Chain(menus, path) && |path| <= |menus|
    requires forall row :: row in rows ==> row in menus && row.kind == Menu && row.parent == LastId(path)
    requires rows != []
    ensures var longer := path + [rows[0]];
            && Chain(menus, longer) && |longer| <= |menus|
            && RowsOf(BuildNodes(menus, rows, path)) ==
               [rows[0]] + RowsOf(BuildMenuTree(menus, rows[0].id, longer)) + RowsOf(BuildNodes(menus, rows[1..], path))
  {
    hide UniqueIds, Chain, Below, BuildMenuTree;
    ChainGrows(menus, path, rows[0]);
    ChainFits(menus, path + [rows[0]]);
    assert BuildNodes(menus, rows, path)[1..] == BuildNodes(menus, rows[1..], path);
  }

  // The rows of a forest, each node before its children.
  function RowsOf(trees: seq<Tree>): seq<Row> {
    if trees == [] then [] else [trees[0].row] + RowsOf(trees[0].children) + RowsOf(trees[1..])
  }

  ghost predicate Reaches(menus: seq<Row>, row: Row) {
    exists path: seq<Row> :: Chain(menus, path) && path != [] && path[|path| - 1] == row
  }

  lemma NoTrees(menus: seq<Row>, path: seq<Row>)
    requires UniqueIds(menus) && Chain(menus, path) && |path| <= |menus|
    ensures RowsOf(BuildNodes(menus, [], path)) == [] && Distinct<Row>([])
  {
  }

  // A row of the forest below `path` has a chain that goes through `path`.
  lemma {:induction false} RowsHaveChains(menus: seq<Row>, rows: seq<Row>, path: seq<Row>, row: Row)
    returns (chain: seq<Row>)
    requires UniqueIds(menus) && Chain(menus, path) && |path| <= |menus|
    requires forall r :: r in rows ==> r in menus && r.kind == Menu && r.parent == LastId(path)
    requires row in RowsOf(BuildNodes(menus, rows, path))
    ensures Chain(menus, chain) && |chain| > |path| && chain[..|path|] == path && chain[|path|] in rows
    ensures chain[|chain| - 1] == row
    decreases |menus| - |path|, |rows|
  {
    hide UniqueIds, Chain, Below, BuildNodes, RowsOf;
    assert rows != [] by { NoTrees(menus, path); }
    FirstTree(menus, rows, path);
    var longer := path + [rows[0]];
    var below := Below(menus, rows[0].id, Menu);
    if row == rows[0] {
      chain := longer;
    } else if row in RowsOf(BuildMenuTree(menus, rows[0].id, longer)) {
      chain := RowsHaveChains(menus, below, longer, row);
      assert chain[..|path|] == chain[..|longer|][..|path|];
      assert chain[|path|] == chain[..|longer|][|path|];
    } else {
      chain := RowsHaveChains(menus, rows[1..], path, row);
    }
  }

  // The rows at the end of a chain through `path` are in the forest below `path`.
  lemma {:induction false} ChainsHaveRows(menus: seq<Row>, rows: seq<Row>, path: seq<Row>, chain: seq<Row>)
    requires UniqueIds(menus) && Chain(menus, path) && |path| <= |menus|
    requires forall r :: r in rows ==> r in menus && r.kind == Menu && r.parent == LastId(path)
    requires Chain(menus, chain) && |chain| > |path| && chain[..|path|] == path && chain[|path|] in rows
    ensures chain[|chain| - 1] in RowsOf(BuildNodes(menus, rows, path))
    decreases |menus| - |path|, |rows|
  {
    hide UniqueIds, Below, BuildNodes, RowsOf;
    FirstTree(menus, rows, path);
    var longer := path + [rows[0]];
    if chain[|path|] != rows[0] {
      ChainsHaveRows(menus, rows[1..], path, chain);
    } else if |chain| > |longer| {
      assert chain[..|longer|] == longer;
      var next := chain[|longer|];
      assert next in menus && next.kind == Menu && next.parent == LastId(chain[..|longer|]);
      ChainsHaveRows(menus, Below(menus, rows[0].id, Menu), longer, chain);
    }
  }

  predicate DistinctIds(rows: seq<Row>) { forall i, j :: 0 <= i < j < |rows| ==> rows[i].id != rows[j].id }

  lemma {:induction false} BelowIsDistinct(menus: seq<Row>, parent: int, kind: Kind)
    requires DistinctIds(menus)
    ensures DistinctIds(Below(menus, parent, kind))
  {
    if menus != [] {
      BelowIsDistinct(menus[1..], parent, kind);
      assert forall row :: row in Below(menus[1..], parent, kind) ==> row.id != menus[0].id;
    }
  }

  lemma {:induction false} RowsAreDistinct(menus: seq<Row>, rows: seq<Row>, path: seq<Row>)
    requires UniqueIds(menus) && Chain(menus, path) && |path| <= |menus|
    requires forall r :: r in rows ==> r in menus && r.kind == Menu && r.parent == LastId(path)
    requires DistinctIds(rows)
    ensures Distinct(RowsOf(BuildNodes(menus, rows, path)))
    decreases |menus| - |path|, |rows|
  {
    hide UniqueIds, Chain, BuildNodes, RowsOf, Below, Distinct;
    if rows == [] {
      NoTrees(menus, path);
    } else {
      FirstTree(menus, rows, path);
      var longer := path + [rows[0]];
      var below := Below(menus, rows[0].id, Menu);
      MenusAreDistinct(menus);
      BelowIsDistinct(menus, rows[0].id, Menu);
      RowsAreDistinct(menus, below, longer);
      RowsAreDistinct(menus, rows[1..], path);
      var inside := RowsOf(BuildMenuTree(menus, rows[0].id, longer));
      var beside := RowsOf(BuildNodes(menus, rows[1..], path));
      forall row | row in inside
        ensures row != rows[0] && row !in beside
      {
        NotTwice(menus, rows, path, row);
      }
      forall row | row in beside
        ensures row != rows[0]
      {
        NotBeside(menus, rows, path, row);
      }
      Joined(rows[0], inside, beside);
    }
  }

  lemma MenusAreDistinct(menus: seq<Row>)
    requires UniqueIds(menus)
    ensures DistinctIds(menus)
  {
  }

  lemma Joined(row: Row, inside: seq<Row>, beside: seq<Row>)
    requires Distinct(inside) && Distinct(beside)
    requires forall r :: r in inside ==> r != row && r !in beside
    requires row !in beside
    ensures Distinct([row] + inside + beside)
  {
    var all := [row] + inside + beside;
    forall i, j | 0 <= i < j < |all|
      ensures all[i] != all[j]
    {
      if i > |inside| {
        assert all[i] == beside[i - 1 - |inside|] && all[j] == beside[j - 1 - |inside|];
      } else if 0 < i {
        assert all[i] == inside[i - 1];
        if j <= |inside| { assert all[j] == inside[j - 1]; } else { assert all[j] in beside; }
      } else if j <= |inside| {
        assert all[j] in inside;
      } else {
        assert all[j] in beside;
      }
    }
  }

  // A row below the first row is neither that row nor below a later one.
  lemma NotTwice(menus: seq<Row>, rows: seq<Row>, path: seq<Row>, row: Row)
    requires UniqueIds(menus) && Chain(menus, path) && |path| < |menus|
    requires rows != [] && DistinctIds(rows)
    requires forall r :: r in rows ==> r in menus && r.kind == Menu && r.parent == LastId(path)
    requires Chain(menus, path + [rows[0]])
    requires row in RowsOf(BuildMenuTree(menus, rows[0].id, path + [rows[0]]))
    ensures row != rows[0] && row !in RowsOf(BuildNodes(menus, rows[1..], path))
  {
    hide UniqueIds, Chain;
    var longer := path + [rows[0]];
    var chain := RowsHaveChains(menus, Below(menus, rows[0].id, Menu), longer, row);
    if row == rows[0] {
      ChainIsUnique(menus, chain, longer);
      assert false;
    }
    if row in RowsOf(BuildNodes(menus, rows[1..], path)) {
      var other := RowsHaveChains(menus, rows[1..], path, row);
      ChainIsUnique(menus, chain, other);
      assert chain[|path|] == chain[..|longer|][|path|];
      LaterDiffers(rows, other[|path|]);
      assert false;
    }
  }

  lemma LaterDiffers(rows: seq<Row>, row: Row)
    requires rows != [] && DistinctIds(rows) && row in rows[1..]
    ensures row != rows[0]
  {
  }

  lemma NotBeside(menus: seq<Row>, rows: seq<Row>, path: seq<Row>, row: Row)
    requires UniqueIds(menus) && Chain(menus, path) && |path| <= |menus|
    requires rows != [] && DistinctIds(rows)
    requires forall r :: r in rows ==> r in menus && r.kind == Menu && r.parent == LastId(path)
    requires row in RowsOf(BuildNodes(menus, rows[1..], path))
    ensures row != rows[0]
  {
    hide UniqueIds, Chain;
    if row == rows[0] {
      var chain := RowsHaveChains(menus, rows[1..], path, row);
      ChainGrows(menus, path, row);
      LaterDiffers(rows, chain[|path|]);
      ChainIsUnique(menus, chain, path + [row]);
      assert false;
    }
  }

  // The tree holds exactly the Menu rows whose parents lead to 0, each once.
  lemma TreeHoldsReachableRowsOnce(menus: seq<Row>, row: Row)
    requires UniqueIds(menus)
    ensures Chain(menus, [])
    ensures row in RowsOf(BuildMenuTree(menus, 0, [])) <==> Reaches(menus, row)
    ensures Distinct(RowsOf(BuildMenuTree(menus, 0, [])))
  {
    var tops := Below(menus, 0, Menu);
    MenusAreDistinct(menus);
    BelowIsDistinct(menus, 0, Menu);
    RowsAreDistinct(menus, tops, []);
    if row in RowsOf(BuildMenuTree(menus, 0, [])) {
      var chain := RowsHaveChains(menus, tops, [], row);
    }
    if Reaches(menus, row) {
      var path: seq<Row> :| Chain(menus, path) && path != [] && path[|path| - 1] == row;
      assert path[..0] == [] && path[0].parent == LastId(path[..0]);
      ChainsHaveRows(menus, tops, [], path);
    }
  }

  // ----- where the rows stand -----

  function Roots(trees: seq<Tree>): (rows: seq<Row>)
    ensures |rows| == |trees| && forall i :: 0 <= i < |trees| ==> rows[i] == trees[i].row
  {
    seq(|trees|, i requires 0 <= i < |trees| => trees[i].row)
  }

  // Exactly the rows of a kind below a parent, each once, in the order of the table.
  ghost predicate IsSelection(menus: seq<Row>, rows: seq<Row>, parent: int, kind: Kind) {
    && (forall row :: row in rows <==> row in menus && row.parent == parent && row.kind == kind)
    && DistinctIds(rows)
    && AllInOrder(menus, rows)
  }

  ghost predicate AllInOrder(menus: seq<Row>, rows: seq<Row>) {
    forall i, j :: 0 <= i < j < |rows| ==> InOrder(menus, rows[i], rows[j])
  }

  ghost predicate InOrder(menus: seq<Row>, first: Row, second: Row) {
    exists a, b :: 0 <= a < b < |menus| && menus[a] == first && menus[b] == second
  }

  // At every depth the nodes below a node are its Menu rows, and its buttons are its Button rows.
  ghost predicate Placed(menus: seq<Row>, trees: seq<Tree>, parent: int)
    decreases trees
  {
    && IsSelection(menus, Roots(trees), parent, Menu)
    && forall tree :: tree in trees ==> NodePlaced(menus, tree)
  }

  ghost predicate NodePlaced(menus: seq<Row>, tree: Tree)
    decreases tree
  {
    IsSelection(menus, tree.authList, tree.row.id, Button) && Placed(menus, tree.children, tree.row.id)
  }

  lemma OrderStays(menus: seq<Row>, first: Row, second: Row)
    requires menus != [] && InOrder(menus[1..], first, second)
    ensures InOrder(menus, first, second)
  {
    var a, b :| 0 <= a < b < |menus[1..]| && menus[1..][a] == first && menus[1..][b] == second;
    assert menus[a + 1] == first && menus[b + 1] == second;
  }

  lemma FirstIsFirst(menus: seq<Row>, row: Row)
    requires menus != [] && row in menus[1..]
    ensures InOrder(menus, menus[0], row)
  {
    var b :| 0 <= b < |menus[1..]| && menus[1..][b] == row;
    assert menus[b + 1] == row;
  }

  lemma HeadKeepsOrder(menus: seq<Row>, head: seq<Row>, later: seq<Row>)
    requires menus != [] && (head == [] || head == [menus[0]])
    requires AllInOrder(menus[1..], later) && forall row :: row in later ==> row in menus[1..]
    ensures AllInOrder(menus, head + later)
  {
    hide InOrder;
    forall i, j | 0 <= i < j < |head + later|
      ensures InOrder(menus, (head + later)[i], (head + later)[j])
    {
      var second := later[j - |head|];
      assert second in later;
      if |head| <= i {
        OrderStays(menus, later[i - |head|], second);
      } else {
        FirstIsFirst(menus, second);
      }
    }
  }

  lemma {:induction false} BelowKeepsOrder(menus: seq<Row>, parent: int, kind: Kind)
    ensures AllInOrder(menus, Below(menus, parent, kind))
  {
    hide AllInOrder;
    if menus == [] {
      NothingInOrder();
    } else {
      var head := if menus[0].parent == parent && menus[0].kind == kind then [menus[0]] else [];
      BelowKeepsOrder(menus[1..], parent, kind);
      HeadKeepsOrder(menus, head, Below(menus[1..], parent, kind));
    }
  }

  lemma NothingInOrder()
    ensures AllInOrder([], [])
  {
  }

  lemma BelowSelects(menus: seq<Row>, parent: int, kind: Kind)
    requires DistinctIds(menus)
    ensures IsSelection(menus, Below(menus, parent, kind), parent, kind)
  {
    hide Below, AllInOrder, DistinctIds;
    BelowIsDistinct(menus, parent, kind);
    BelowKeepsOrder(menus, parent, kind);
  }

  lemma {:induction false} NodesArePlaced(menus: seq<Row>, rows: seq<Row>, path: seq<Row>)
    requires UniqueIds(menus) && Chain(menus, path) && |path| <= |menus|
    requires forall row :: row in rows ==> row in menus && row.kind == Menu && row.parent == LastId(path)
    ensures Roots(BuildNodes(menus, rows, path)) == rows
    ensures forall tree :: tree in BuildNodes(menus, rows, path) ==> NodePlaced(menus, tree)
    decreases |menus| - |path|, 0, |rows|
  {
    hide UniqueIds, Chain, Below, IsSelection, Placed, BuildMenuTree;
    if rows != [] {
      var longer := path + [rows[0]];
      ChainGrows(menus, path, rows[0]);
      ChainFits(menus, longer);
      MenusAreDistinct(menus);
      BelowSelects(menus, rows[0].id, Button);
      TreeIsPlaced(menus, rows[0].id, longer);
      var first := Tree(rows[0], Below(menus, rows[0].id, Button), BuildMenuTree(menus, rows[0].id, longer));
      var others := BuildNodes(menus, rows[1..], path);
      assert NodePlaced(menus, first);
      assert BuildNodes(menus, rows, path) == [first] + others;
      hide BuildNodes, NodePlaced, DistinctIds;
      NodesArePlaced(menus, rows[1..], path);
      assert Roots([first] + others) == [rows[0]] + Roots(others);
    }
  }

  // The tree below any parent, and so the whole one from 0, has every row in its place.
  lemma {:induction false} TreeIsPlaced(menus: seq<Row>, parent: int, path: seq<Row>)
    requires UniqueIds(menus) && Chain(menus, path) && parent == LastId(path) && |path| <= |menus|
    ensures Placed(menus, BuildMenuTree(menus, parent, path), parent)
    decreases |menus| - |path|, 1, 0
  {
    hide UniqueIds, Chain, IsSelection;
    MenusAreDistinct(menus);
    BelowSelects(menus, parent, Menu);
    NodesArePlaced(menus, Below(menus, parent, Menu), path);
  }
}
