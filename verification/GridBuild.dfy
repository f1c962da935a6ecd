/**
Building the static grid (mux/grid.go:171-324): the panes and pointers that
`Grid.Screen` plans. Spawning always succeeds here.
*/
module GridBuild {
  import opened Wrappers
  import opened LayoutTree
  import opened Boxes
  import opened Layout
  import Grid

  /** The boxes of the nodes are those of the plan. */
  ghost predicate SameBoxes(t: Tree<Pane>, p: Grid.Plan)
    reads Nodes(t)`box
  {
    TopIn(t);
    match (t, p)
    case (Leaf(x), Cell(_, b)) => x.box == b
    case (Node(n, st, _, a, c), Halves(st', b, first, second)) =>
      st == st' && n.box == b && SameBoxes(a, first) && SameBoxes(c, second)
    case _ => false
  }

  ghost predicate AllFaithful(t: Tree<Pane>)
    reads Nodes(t)
  {
    forall x :: x in Nodes(t) ==> Faithful(t, x) && !x.closed && !x.hidden
  }

  ghost predicate Built(t: Tree<Pane>, leaves: seq<Pane>, p: Grid.Plan)
    reads Nodes(t)
  {
    && WellFormed(t) && AllFaithful(t) && SameBoxes(t, p)
    && Leaves(t) == leaves
  }

  /** The leaves have the boxes the plan gives the commands, in command order. */
  lemma {:induction false} LeavesAreCells(t: Tree<Pane>, p: Grid.Plan)
    requires SameBoxes(t, p)
    ensures |Leaves(t)| == |Grid.Cells(p)|
    ensures forall i :: 0 <= i < |Leaves(t)| ==> Leaves(t)[i].box == Grid.Cells(p)[i].1
    decreases t
  {
    if t.Node? {
      LeavesAreCells(t.first, p.first);
      LeavesAreCells(t.second, p.second);
    }
  }

  method NewPane(b: Box) returns (p: Pane, ghost t: Tree<Pane>)
    ensures fresh(p) && t == Leaf(p) && AllFaithful(t) && p.box == b
  {
    p := new Pane(b, false);
    t := Leaf(p);
    assert Faithful(t, p);
  }

  /** A new split over two built halves. */
  method Join(st: SplitType, ratio: real, b: Box, c1: Pane, c2: Pane, ghost t1: Tree<Pane>, ghost t2: Tree<Pane>)
    returns (par: Pane, ghost t: Tree<Pane>)
    requires GoodSplit(st, ratio) && c1 == Top(t1) && c2 == Top(t2)
    requires WellFormed(t1) && WellFormed(t2) && AllFaithful(t1) && AllFaithful(t2) && Nodes(t1) !! Nodes(t2)
    modifies c1`parent, c2`parent
    ensures fresh(par) && par.box == b
    ensures t == Node(par, st, ratio, t1, t2) && WellFormed(t) && AllFaithful(t)
  {
    NodesAllocated(t1);
    NodesAllocated(t2);
    TopIn(t1);
    TopIn(t2);
    par := new Pane.Split(st, b, ratio, null, c1, c2);
    c1.parent, c2.parent := par, par;
    t := Node(par, st, ratio, t1, t2);
    forall x | x in Nodes(t) ensures Faithful(t, x) && !x.closed && !x.hidden {
      if x in Nodes(t1) {
        assert old(Faithful(t1, x));
      } else if x in Nodes(t2) {
        assert old(Faithful(t2, x));
      }
    }
  }

  /** buildColumn; made counts the panes started on the way, whatever becomes of them. */
  method BuildColumn(from: nat, k: nat, b: Box)
    returns (node: Pane?, leaves: seq<Pane>, ghost t: Option<Tree<Pane>>, ghost made: nat)
    requires k > 0
    ensures made == Grid.Started(k, b)
    ensures (node == null <==> Grid.Column(from, k, b).None?) && (node == null <==> t.None?)
    ensures node != null ==>
      && node == Top(t.value) && Built(t.value, leaves, Grid.Column(from, k, b).value)
      && forall x :: x in Nodes(t.value) ==> fresh(x)
    decreases k
  {
    hide Grid.Quo, Grid.Column, Grid.Started, WellFormed, AllFaithful, Nodes, Built;
    Grid.ColumnStep(from, k, b);
    Grid.StartedStep(from, k, b);
    node, leaves, t, made := null, [], None, 0;
    if k == 1 {
      if b.h < MIN_PANE_ROWS || b.w < MIN_PANE_COLS {
        return;
      }
      node, leaves, t := BuildOne(from, b);
      made := 1;
      return;
    }
    var topN := (k + 1) / 2;
    var topH := Grid.Quo(b.h * topN, k);
    var botH := b.h - topH - 1;
    if topH < MIN_PANE_ROWS || botH < MIN_PANE_ROWS {
      return;
    }
    var top, topLeaves, t1, made1 := BuildColumn(from, topN, b.(h := topH));
    made := made1;
    if top == null {
      return;
    }
    NodesAllocated(t1.value);
    TopIn(t1.value);
    var bottom, bottomLeaves, t2, made2 :=
      BuildColumn(from + topN, k - topN, Box(b.y + topH + 1, b.x, botH, b.w));
    made := made + made2;
    if bottom == null {
      return;
    }
    TopIn(t2.value);
    ghost var p1 := Grid.Column(from, topN, b.(h := topH)).value;
    ghost var p2 := Grid.Column(from + topN, k - topN, Box(b.y + topH + 1, b.x, botH, b.w)).value;
    node, t := Halve(SplitVertical, topH as real / b.h as real, b, top, bottom, t1.value, t2.value,
                     topLeaves, bottomLeaves, p1, p2);
    leaves := topLeaves + bottomLeaves;
  }

  method BuildOne(from: nat, b: Box) returns (node: Pane, leaves: seq<Pane>, ghost t: Option<Tree<Pane>>)
    ensures t.Some? && node == Top(t.value) && Built(t.value, leaves, Grid.Cell(from, b))
    ensures forall x :: x in Nodes(t.value) ==> fresh(x)
  {
    ghost var leaf;
    node, leaf := NewPane(b);
    leaves, t := [node], Some(leaf);
  }

  /** Two built halves make a built whole. */
  method Halve(st: SplitType, ratio: real, b: Box, c1: Pane, c2: Pane, ghost t1: Tree<Pane>, ghost t2: Tree<Pane>,
               ghost leaves1: seq<Pane>, ghost leaves2: seq<Pane>, ghost p1: Grid.Plan, ghost p2: Grid.Plan)
    returns (par: Pane, ghost t: Option<Tree<Pane>>)
    requires GoodSplit(st, ratio) && c1 == Top(t1) && c2 == Top(t2) && Nodes(t1) !! Nodes(t2)
    requires Built(t1, leaves1, p1) && Built(t2, leaves2, p2)
    modifies c1`parent, c2`parent
    ensures fresh(par) && t.Some? && par == Top(t.value) && Nodes(t.value) == {par} + Nodes(t1) + Nodes(t2)
    ensures Built(t.value, leaves1 + leaves2, Grid.Halves(st, b, p1, p2))
  {
    hide WellFormed, AllFaithful;
    NodesAllocated(t1);
    NodesAllocated(t2);
    ghost var tree;
    par, tree := Join(st, ratio, b, c1, c2, t1, t2);
    t := Some(tree);
    assert SameBoxes(t1, p1) && SameBoxes(t2, p2);
  }

  /** The branch for one command. */
  method BuildSingle(h: int, w: int) returns (node: Pane?, leaves: seq<Pane>, ghost t: Option<Tree<Pane>>)
    ensures (node == null <==> Grid.Screen(1, h, w).None?) && (node == null <==> t.None?)
    ensures node != null ==>
      && node == Top(t.value) && Built(t.value, leaves, Grid.Screen(1, h, w).value)
      && forall x :: x in Nodes(t.value) ==> fresh(x)
  {
    hide Built;
    node, leaves, t := null, [], None;
    if h < MIN_PANE_ROWS || w < MIN_PANE_COLS {
      return;
    }
    node, leaves, t := BuildOne(0, Box(0, 0, h, w));
  }

  /** The branch for two commands. */
  method BuildPair(h: int, w: int) returns (node: Pane?, leaves: seq<Pane>, ghost t: Option<Tree<Pane>>)
    ensures (node == null <==> Grid.Screen(2, h, w).None?) && (node == null <==> t.None?)
    ensures node != null ==>
      && node == Top(t.value) && Built(t.value, leaves, Grid.Screen(2, h, w).value)
      && forall x :: x in Nodes(t.value) ==> fresh(x)
  {
    hide Built, WellFormed, AllFaithful;
    node, leaves, t := null, [], None;
    var w1 := Grid.Quo(w, 2);
    var w2 := w - w1 - 1;
    if h < MIN_PANE_ROWS || w1 < MIN_PANE_COLS || w2 < MIN_PANE_COLS {
      return;
    }
    var p1, leaves1, t1 := BuildOne(0, Box(0, 0, h, w1));
    NodesAllocated(t1.value);
    TopIn(t1.value);
    var p2, leaves2, t2 := BuildOne(1, Box(0, w1 + 1, h, w2));
    node, t := Halve(SplitHorizontal, 0.5, Box(0, 0, h, w), p1, p2, t1.value, t2.value, leaves1, leaves2,
                     Grid.Cell(0, Box(0, 0, h, w1)), Grid.Cell(1, Box(0, w1 + 1, h, w2)));
    leaves := leaves1 + leaves2;
  }

  /** The branch for three and more. */
  method BuildColumns(n: nat, h: int, w: int)
    returns (node: Pane?, leaves: seq<Pane>, ghost t: Option<Tree<Pane>>, ghost made: nat)
    requires n >= 3
    ensures made == Grid.StartedOnScreen(n, h, w)
    ensures (node == null <==> Grid.Screen(n, h, w).None?) && (node == null <==> t.None?)
    ensures node != null ==>
      && node == Top(t.value) && Built(t.value, leaves, Grid.Screen(n, h, w).value)
      && forall x :: x in Nodes(t.value) ==> fresh(x)
  {
    hide Grid.Quo, Grid.Column, Grid.Started, Built, WellFormed, AllFaithful, Nodes;
    node, leaves, t, made := null, [], None, 0;
    var leftN := (n + 1) / 2;
    var leftW := Grid.Quo(w, 2);
    var rightW := w - leftW - 1;
    if leftW < MIN_PANE_COLS || rightW < MIN_PANE_COLS {
      return;
    }
    var left, leftLeaves, t1, made1 := BuildColumn(0, leftN, Box(0, 0, h, leftW));
    made := made1;
    if left == null {
      return;
    }
    NodesAllocated(t1.value);
    TopIn(t1.value);
    var right, rightLeaves, t2, made2 := BuildColumn(leftN, n - leftN, Box(0, leftW + 1, h, rightW));
    made := made + made2;
    if right == null {
      return;
    }
    TopIn(t2.value);
    ghost var p1 := Grid.Column(0, leftN, Box(0, 0, h, leftW)).value;
    ghost var p2 := Grid.Column(leftN, n - leftN, Box(0, leftW + 1, h, rightW)).value;
    node, t := Halve(SplitHorizontal, leftW as real / w as real, Box(0, 0, h, w), left, right, t1.value, t2.value,
                     leftLeaves, rightLeaves, p1, p2);
    leaves := leftLeaves + rightLeaves;
  }

  lemma LeavesAreWhole(t: Tree<Pane>)
    requires WellFormed(t) && AllFaithful(t)
    ensures forall i :: 0 <= i < |Leaves(t)| ==> KidsOk(Leaves(t)[i], None)
  {
    LeavesIn(t);
    forall i | 0 <= i < |Leaves(t)| ensures KidsOk(Leaves(t)[i], None) {
      assert Leaves(t)[i] in LeafSet(t);
      LeafHasNoKids(t, Leaves(t)[i]);
      assert Faithful(t, Leaves(t)[i]);
    }
  }

  /** The built panes become the layout. */
  method Install(m: Magmux, node: Pane, leaves: seq<Pane>, ghost t: Tree<Pane>, ghost p: Grid.Plan)
    requires Built(t, leaves, p) && node == Top(t) && leaves != []
    modifies m`root, m`tree, m`allPanes, m`focused, leaves`id
    ensures m.Placed() && m.focused in m.LeafNodes() && (m.panel == null ==> m.Valid())
    ensures m.root == node && m.allPanes == leaves && m.focused == leaves[0]
    ensures m.tree == Some(t) && SameBoxes(t, p)
  {
    hide WellFormed, Nodes, SameBoxes, Leaves;
    NodesAllocated(t);
    LeavesDistinct(t);
    LeavesIn(t);
    m.root, m.tree := node, Some(t);
    m.allPanes := leaves;
    m.focused := leaves[0];
    m.StampPaneIDs();
    LeavesAreWhole(t);
  }

  /** buildGrid: there is a layout exactly when `Grid.Screen` has one, with those boxes,
      and it is a valid layout, for no panel is known yet when the grid is built. A refusal
      leaves the layout alone, but not always without panes started. */
  method BuildGrid(m: Magmux, n: nat) returns (ok: bool, ghost made: nat)
    modifies m
    ensures made == Grid.StartedOnScreen(n, ScreenRows(m), m.cols)
    ensures ok <==> Grid.Screen(n, ScreenRows(m), m.cols).Some?
    ensures m.rows == old(m.rows) && m.cols == old(m.cols) && m.hideStatus == old(m.hideStatus)
    ensures m.panel == old(m.panel)
    ensures !ok ==> unchanged(m)
    ensures ok ==>
      && m.Placed() && m.focused in m.LeafNodes() && (m.panel == null ==> m.Valid())
      && |m.allPanes| == n && m.focused == m.allPanes[0]
      && m.tree.Some? && Leaves(m.tree.value) == m.allPanes
      && SameBoxes(m.tree.value, Grid.Screen(n, ScreenRows(m), m.cols).value)
      && forall p :: p in m.allPanes ==> Usable(p.box)
  {
    hide Grid.Quo, Grid.Screen, Nodes, WellFormed, SameBoxes, AllFaithful;
    var h, w := ScreenRows(m), m.cols;
    Grid.ScreenFits(n, h, w);
    if n == 0 {
      return false, 0;
    }
    var node: Pane?, leaves: seq<Pane>;
    ghost var t: Option<Tree<Pane>>;
    if n == 1 {
      node, leaves, t := BuildSingle(h, w);
      made := if node == null then 0 else 1;
    } else if n == 2 {
      node, leaves, t := BuildPair(h, w);
      made := if node == null then 0 else 2;
    } else {
      node, leaves, t, made := BuildColumns(n, h, w);
    }
    if node == null {
      return false, made;
    }
    Grid.ScreenTiles(n, h, w);
    LeavesIn(t.value);
    forall i | 0 <= i < |leaves| ensures fresh(leaves[i]) {
      assert leaves[i] in LeafSet(t.value);
    }
    LeavesAreCells(t.value, Grid.Screen(n, h, w).value);
    Install(m, node, leaves, t.value, Grid.Screen(n, h, w).value);
    ok := true;
  }

  function ScreenRows(m: Magmux): int
    reads m`rows, m`hideStatus
  {
    m.rows - if m.hideStatus then 0 else 1
  }
}
