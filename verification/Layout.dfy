/**
The layout on the heap: panes, their pointers, and the operations that splice them
(mux/dynpanes.go, mux/chrome.go).

The object carries the tree its pointers are meant to spell out. Every method is
proved to leave the pointers spelling out the tree `LayoutTree` says it should.
*/
module Layout {
  import opened Wrappers
  import opened LayoutTree
  import opened Boxes
  import opened LayoutBoxes

  // ── panes ────────────────────────────────────────────────────────────────

  class Pane {
    var id: int
    const isControl: bool
    var splitType: SplitType
    var ratio: real
    var parent: Pane?
    var child1: Pane?
    var child2: Pane?
    var box: Box
    var closed: bool
    var hidden: bool

    /** A pane that is no part of any layout yet. */
    constructor (box: Box, isControl: bool)
      ensures IsLoose(this) && !closed && !hidden
      ensures this.box == box && this.isControl == isControl
    {
      id, splitType, ratio := 0, SplitNone, 0.0;
      parent, child1, child2 := null, null, null;
      closed, hidden := false, false;
      this.box, this.isControl := box, isControl;
    }

    /** A split node over two others, which do not point back yet. */
    constructor Split(st: SplitType, box: Box, ratio: real, parent: Pane?, child1: Pane, child2: Pane)
      ensures splitType == st && this.ratio == ratio && this.box == box && this.parent == parent
      ensures this.child1 == child1 && this.child2 == child2 && !closed && !hidden
    {
      id, isControl, closed, hidden := 0, false, false, false;
      this.splitType, this.ratio, this.box, this.parent := st, ratio, box, parent;
      this.child1, this.child2 := child1, child2;
    }
  }

  predicate IsLoose(p: Pane)
    reads p
  {
    p.splitType == SplitNone && p.parent == null && p.child1 == null && p.child2 == null
  }

  ghost function Pointer(x: Option<Pane>): Pane? {
    if x.Some? then x.value else null
  }

  ghost predicate KidsOk(x: Pane, k: Option<Inner<Pane>>)
    reads x`splitType, x`ratio, x`child1, x`child2
  {
    Holds(k, x.splitType, x.ratio, x.child1, x.child2)
  }

  ghost predicate Holds(k: Option<Inner<Pane>>, st: SplitType, ratio: real, child1: Pane?, child2: Pane?) {
    match k
    case None => st == SplitNone && child1 == null && child2 == null
    case Some(k) => st == k.st && ratio == k.ratio && child1 == k.first && child2 == k.second
  }

  /** The pointers of x are those the tree gives it. */
  ghost predicate Faithful(t: Tree<Pane>, x: Pane)
    reads x`parent, x`splitType, x`ratio, x`child1, x`child2
  {
    x.parent == Pointer(Parent(t, x)) && KidsOk(x, Kids(t, x))
  }

  /** The same, from the top down and for the child pointers alone: what a walk from
      the top needs. */
  ghost predicate Shaped(t: Tree<Pane>)
    reads Nodes(t)`splitType, Nodes(t)`ratio, Nodes(t)`child1, Nodes(t)`child2
  {
    match t
    case Leaf(p) => KidsOk(p, None)
    case Node(n, st, ratio, a, b) =>
      KidsOk(n, Some(Inner(st, ratio, Top(a), Top(b)))) && TopsIn(a, b) && Shaped(a) && Shaped(b)
  }

  ghost predicate TopsIn(a: Tree<Pane>, b: Tree<Pane>) {
    Top(a) in Nodes(a) && Top(b) in Nodes(b)
  }

  lemma {:induction false} ShapedFrom(t: Tree<Pane>)
    requires WellFormed(t)
    requires forall x :: x in Nodes(t) ==> KidsOk(x, Kids(t, x))
    ensures Shaped(t)
  {
    if t.Node? {
      TopIn(t.first);
      TopIn(t.second);
      assert KidsOk(t.node, Kids(t, t.node));
      forall x | x in Nodes(t.first) ensures KidsOk(x, Kids(t.first, x)) {
        assert Kids(t, x) == Kids(t.first, x);
      }
      forall x | x in Nodes(t.second) ensures KidsOk(x, Kids(t.second, x)) {
        assert Kids(t, x) == Kids(t.second, x);
      }
      ShapedFrom(t.first);
      ShapedFrom(t.second);
    } else {
      assert KidsOk(t.pane, Kids(t, t.pane));
    }
  }

  lemma ShapedAt(t: Tree<Pane>, x: Pane)
    requires WellFormed(t) && x in Nodes(t)
    requires forall y :: y in Nodes(t) ==> KidsOk(y, Kids(t, y))
    ensures WellFormed(At(t, x)) && Shaped(At(t, x))
  {
    forall y | y in Nodes(At(t, x)) ensures WellFormed(At(t, x)) && KidsOk(y, Kids(At(t, x), y)) {
      AtKids(t, x, y);
    }
    TopIn(At(t, x));
    ShapedFrom(At(t, x));
  }

  lemma {:induction false} NodesAllocated(t: Tree<Pane>)
    ensures forall x :: x in Nodes(t) ==> allocated(x)
  {
    if t.Node? {
      NodesAllocated(t.first);
      NodesAllocated(t.second);
    }
  }

  // ── reflow ───────────────────────────────────────────────────────────────

  /** Every box below the top is the one its split gives it. */
  ghost predicate LaidOut(t: Tree<Pane>, b: Box)
    reads Nodes(t)`box
  {
    TopIn(t);
    && Top(t).box == b
    && (t.Node? ==>
          var (b1, b2) := SplitBoxes(t.st, t.ratio, b);
          LaidOut(t.first, b1) && LaidOut(t.second, b2))
  }

  /** Laid out, node by node. */
  lemma {:induction false} LaidOutIs(t: Tree<Pane>, b: Box)
    requires WellFormed(t)
    ensures LaidOut(t, b) <==> forall x :: x in Nodes(t) ==> x.box == BoxIn(t, b, x)
  {
    hide SplitBoxes;
    TopIn(t);
    if t.Node? {
      var (b1, b2) := SplitBoxes(t.st, t.ratio, b);
      TopIn(t.first);
      TopIn(t.second);
      LaidOutIs(t.first, b1);
      LaidOutIs(t.second, b2);
      assert BoxIn(t, b, t.node) == b;
      assert forall x :: x in Nodes(t.first) ==> BoxIn(t, b, x) == BoxIn(t.first, b1, x);
      assert forall x :: x in Nodes(t.second) ==> BoxIn(t, b, x) == BoxIn(t.second, b2, x);
    }
  }

  method Resize(n: Pane, b: Box, ghost t: Tree<Pane>)
    requires n == Top(t) && WellFormed(t) && Shaped(t)
    modifies Nodes(t)`box
    ensures LaidOut(t, b)
    decreases t, 1
  {
    TopIn(t);
    n.box := b;
    if n.splitType != SplitNone {
      ReshapeChildren(n, t);
    }
  }

  method ReshapeChildren(n: Pane, ghost t: Tree<Pane>)
    requires n == Top(t) && t.Node? && WellFormed(t) && Shaped(t)
    modifies (Nodes(t) - {n})`box
    ensures LaidOut(t, n.box)
    decreases t, 0
  {
    hide SplitBoxes, Part;
    NodesAllocated(t);
    var (c1, c2) := SplitBoxes(n.splitType, n.ratio, n.box);
    TopIn(t.first);
    TopIn(t.second);
    Resize(n.child1, c1, t.first);
    Resize(n.child2, c2, t.second);
  }

  // ── walks ────────────────────────────────────────────────────────────────

  ghost predicate AllControl(ps: seq<Pane>) {
    forall q :: q in ps ==> q.isControl
  }

  ghost predicate FirstSessionIs(ps: seq<Pane>, p: Pane) {
    !p.isControl && exists i :: 0 <= i < |ps| && p == ps[i] && forall j :: 0 <= j < i ==> ps[j].isControl
  }

  /** Where focus goes among these leaves: the first that is a session, or else the
      first there is. */
  ghost predicate IsFocusChoice(ps: seq<Pane>, p: Pane?) {
    if ps == [] then p == null
    else p != null && (FirstSessionIs(ps, p) || (AllControl(ps) && p == ps[0]))
  }

  lemma FirstSessionAfter(a: seq<Pane>, b: seq<Pane>, p: Pane)
    requires AllControl(a) && FirstSessionIs(b, p)
    ensures FirstSessionIs(a + b, p)
  {
    var i :| 0 <= i < |b| && p == b[i] && forall j :: 0 <= j < i ==> b[j].isControl;
    assert (a + b)[|a| + i] == p;
    forall j | 0 <= j < |a| + i ensures (a + b)[j].isControl {
      if j < |a| {
        assert a[j] in a;
      }
    }
  }

  lemma FirstSessionWithin(a: seq<Pane>, b: seq<Pane>, p: Pane)
    requires FirstSessionIs(a, p)
    ensures FirstSessionIs(a + b, p)
  {
    var i :| 0 <= i < |a| && p == a[i] && forall j :: 0 <= j < i ==> a[j].isControl;
    assert (a + b)[i] == p;
  }

  lemma {:induction false} SomeLeaf(t: Tree<Pane>)
    ensures Leaves(t) != []
  {
    if t.Node? {
      SomeLeaf(t.first);
    }
  }

  /** The closure inside firstLiveLeaf: a session if there is one, and the first
      panel met before it. */
  method Walk(p: Pane, fallback: Pane?, ghost t: Tree<Pane>) returns (found: Pane?, fallback': Pane?)
    requires p == Top(t) && Shaped(t) && WellFormed(t) && forall x :: x in Nodes(t) ==> !x.closed
    ensures found != null ==> FirstSessionIs(Leaves(t), found)
    ensures found == null ==>
      && AllControl(Leaves(t)) && Leaves(t) != []
      && fallback' == if fallback != null then fallback else Leaves(t)[0]
    decreases t
  {
    TopIn(t);
    NodesAllocated(t);
    SomeLeaf(t);
    if p.closed {
      return null, fallback;
    }
    if p.splitType == SplitNone {
      if p.isControl {
        return null, if fallback == null then p else fallback;
      }
      assert Leaves(t)[0] == p;
      return p, fallback;
    }
    SomeLeaf(t.first);
    found, fallback' := Walk(p.child1, fallback, t.first);
    if found != null {
      FirstSessionWithin(Leaves(t.first), Leaves(t.second), found);
      return;
    }
    found, fallback' := Walk(p.child2, fallback', t.second);
    if found != null {
      FirstSessionAfter(Leaves(t.first), Leaves(t.second), found);
    }
  }

  /** firstLiveLeaf. */
  method FirstLiveLeaf(node: Pane?, ghost t: Option<Tree<Pane>>) returns (p: Pane?)
    requires node == TopOf(t)
    requires t.Some? ==> Shaped(t.value) && WellFormed(t.value) && forall x :: x in Nodes(t.value) ==> !x.closed
    ensures IsFocusChoice(if t.Some? then Leaves(t.value) else [], p)
  {
    if node == null {
      return null;
    }
    SomeLeaf(t.value);
    var found, fallback := Walk(node, null, t.value);
    p := if found != null then found else fallback;
  }

  ghost function TopOf(t: Option<Tree<Pane>>): Pane? {
    if t.Some? then Top(t.value) else null
  }

  ghost function FirstOf(t: Tree<Pane>): Tree<Pane> {
    if t.Node? then t.first else t
  }

  ghost function SecondOf(t: Tree<Pane>): Tree<Pane> {
    if t.Node? then t.second else t
  }

  /** The closure inside nodeInTreeLocked; t is of no use under a null p. */
  method Reaches(p: Pane?, n: Pane, ghost t: Tree<Pane>) returns (r: bool)
    requires p != null ==> p == Top(t) && Shaped(t) && WellFormed(t)
    ensures r <==> p != null && n in Nodes(t)
    decreases p != null, t
  {
    if p == null {
      return false;
    }
    TopIn(t);
    NodesAllocated(t);
    if p == n {
      return true;
    }
    r := Reaches(p.child1, n, FirstOf(t));
    if !r {
      r := Reaches(p.child2, n, SecondOf(t));
    }
  }

  // ── the layout ───────────────────────────────────────────────────────────

  const TARGET_FOCUSED := -1

  datatype Plan = ShuttingDown | NoPlace | TooSmall | Planned(t: Pane, st: SplitType, ratio: real, box: Box)

  function Area(p: Pane): int
    reads p`box
  {
    p.box.h * p.box.w
  }

  /** A pane on screen and so, in a layout, a leaf of it. */
  predicate Splittable(p: Pane)
    reads p`closed, p`hidden, p`splitType
  {
    !p.closed && !p.hidden && p.splitType == SplitNone
  }

  /** The first pane of those with the most cells, among sessions or among panels. */
  function LargestOf(ps: seq<Pane>, control: bool): (best: Pane?)
    reads ps
    ensures best != null ==> best in ps
  {
    if ps == [] then null
    else
      var best, p := LargestOf(ps[..|ps| - 1], control), ps[|ps| - 1];
      if Splittable(p) && p.isControl == control && Area(p) > (if best == null then -1 else Area(best)) then p else best
  }

  /** best is the one at i: none has more cells, and none before it as many. */
  ghost predicate IsLargest(ps: seq<Pane>, control: bool, best: Pane, i: nat)
    reads ps
  {
    && i < |ps| && ps[i] == best && Splittable(best) && best.isControl == control && Area(best) >= 0
    && forall j :: 0 <= j < |ps| && Splittable(ps[j]) && ps[j].isControl == control ==>
         if j < i then Area(ps[j]) < Area(best) else Area(ps[j]) <= Area(best)
  }

  lemma {:induction false} LargestMeans(ps: seq<Pane>, control: bool)
    ensures var best := LargestOf(ps, control);
      if best == null then forall p :: p in ps && Splittable(p) && p.isControl == control ==> Area(p) < 0
      else exists i: nat :: IsLargest(ps, control, best, i)
    decreases |ps|
  {
    if ps != [] {
      var n := |ps| - 1;
      var init, p := ps[..n], ps[n];
      LargestMeans(init, control);
      var before, best := LargestOf(init, control), LargestOf(ps, control);
      if before == null && best != null {
        assert forall j :: 0 <= j < n ==> ps[j] in init;
        assert IsLargest(ps, control, best, n);
      } else if before != null {
        var i: nat :| IsLargest(init, control, before, i);
        assert forall j :: 0 <= j < n ==> ps[j] == init[j];
        var k: nat := if best == before then i else n;
        assert IsLargest(ps, control, best, k);
      }
    }
  }

  /** The axis asked for, or else the longer one. */
  function Axis(split: SplitType, b: Box): SplitType {
    if split != SplitNone then split else if b.w >= 2 * b.h then SplitHorizontal else SplitVertical
  }

  function RatioOr(ratio: real): real {
    if ratio <= 0.0 || ratio >= 1.0 then 0.5 else ratio
  }

  function SplitOr(st: SplitType): SplitType {
    if st == SplitNone then SplitHorizontal else st
  }

  datatype Outcome = Opened(id: nat) | Closing | TargetGone

  class Magmux {
    var root: Pane?
    var allPanes: seq<Pane>
    var focused: Pane?
    var closing: bool
    var rows: int
    var cols: int
    var hideStatus: bool
    var panel: Pane?
    var panelAnchor: Pane?
    var panelSplit: SplitType
    var panelRatio: real
    var panelFirst: bool
    /** What the pointers spell out; None is the empty layout. */
    ghost var tree: Option<Tree<Pane>>

    ghost function TreeNodes(): set<Pane>
      reads this`tree
    {
      if tree.Some? then Nodes(tree.value) else {}
    }

    ghost function LeafNodes(): set<Pane>
      reads this`tree
    {
      if tree.Some? then LeafSet(tree.value) else {}
    }

    ghost function InnerNodes(): set<Pane>
      reads this`tree
    {
      TreeNodes() - LeafNodes()
    }

    /** The pointers reachable from the root spell out the tree. */
    ghost predicate Drawn()
      reads this`root, this`tree
      reads TreeNodes()`parent, TreeNodes()`splitType, TreeNodes()`ratio, TreeNodes()`child1, TreeNodes()`child2
    {
      && root == TopOf(tree)
      && (tree.Some? ==> WellFormed(tree.value) && forall x :: x in Nodes(tree.value) ==> Faithful(tree.value, x))
    }

    /** A pane's id is its index, and a pane is never a split. */
    ghost predicate TableOk()
      reads this`allPanes, allPanes
    {
      forall i :: 0 <= i < |allPanes| ==>
        && allPanes[i].id == i
        && allPanes[i].splitType == SplitNone && allPanes[i].child1 == null && allPanes[i].child2 == null
    }

    ghost predicate OnScreen(p: Pane)
      reads p`closed, p`hidden
    {
      !p.closed && !p.hidden
    }

    /** The leaves are exactly the panes neither closed nor hidden; those hang from
        nothing. */
    ghost predicate LeavesOk()
      reads this`allPanes, this`tree, allPanes, TreeNodes()`closed, TreeNodes()`hidden
    {
      && (forall p :: p in allPanes ==> (p in LeafNodes() <==> OnScreen(p)))
      && (forall p :: p in allPanes && !OnScreen(p) ==> p.parent == null && p !in TreeNodes())
      && LeafNodes() <= (set p | p in allPanes)
      && (forall x :: x in TreeNodes() ==> OnScreen(x))
    }

    /** What the layout is given of the terminal. */
    function Screen(): Box
      reads this`rows, this`cols, this`hideStatus
    {
      Box(0, 0, Max(0, rows - if hideStatus then 0 else 1), Max(0, cols))
    }

    /** Every node has the box that laying out the whole in the screen gives it. A reflow
        makes it so; nothing that splices the layout undoes it. */
    ghost predicate FillsScreen()
      reads this`tree, this`rows, this`cols, this`hideStatus, TreeNodes()`box
    {
      tree.Some? ==> LaidOut(tree.value, Screen())
    }

    ghost predicate Valid()
      reads this, allPanes, TreeNodes()
    {
      && Placed()
      && (focused == null || focused in LeafNodes())
      && (panel == null || panel in allPanes)
    }

    /** Valid, whatever has focus. */
    ghost predicate Placed()
      reads this`root, this`allPanes, this`tree, allPanes, TreeNodes()
    {
      Drawn() && TableOk() && LeavesOk()
    }

    /** What x hangs from takes y in its place. */
    method ReplaceChild(x: Pane, y: Pane)
      requires x in TreeNodes() && Held(TreeNodes(), InnerNodes(), x)
      modifies this`root, InnerNodes()`child1, InnerNodes()`child2
      ensures root == if x.parent == null then y else old(root)
      ensures forall z :: z in TreeNodes() ==>
        && z.child1 == SwapPointer(old(z.child1), x, y)
        && z.child2 == SwapPointer(old(z.child2), x, y)
    {
      if x.parent == null {
        root := y;
      } else if x.parent.child1 == x {
        x.parent.child1 := y;
      } else {
        x.parent.child2 := y;
      }
    }

    // ── the two splices ────────────────────────────────────────────────────

    method SplitNodeLocked(t: Pane, np: Pane, st: SplitType, ratio: real, npFirst: bool) returns (ghost par: Pane)
      requires Drawn() && t in TreeNodes() && GoodSplit(st, ratio)
      requires np !in TreeNodes() && np.splitType == SplitNone && np.child1 == null && np.child2 == null
      modifies this`root, this`tree, TreeNodes()`parent, InnerNodes()`child1, InnerNodes()`child2, TreeNodes()`box
      modifies np`parent, np`box
      ensures fresh(par) && OnScreen(par)
      ensures Drawn()
      ensures tree == Some(SplitAt(old(tree.value), t, par, st, ratio, np, npFirst))
      ensures TreeNodes() == old(TreeNodes()) + {par, np} && LeafNodes() == old(LeafNodes()) + {np}
      ensures LaidOut(At(tree.value, par), old(t.box))
      ensures
        var (b1, b2) := SplitBoxes(st, ratio, old(t.box));
        if npFirst then np.box == b1 && t.box == b2 else t.box == b1 && np.box == b2
      ensures old(FillsScreen()) ==> FillsScreen()
    {
      hide WellFormed, Parent, Kids, SplitAt, At, Nodes, LaidOut, LeafSet, Faithful, SplitBoxes;
      NodesAllocated(tree.value);
      var node: Pane;
      if npFirst {
        node := new Pane.Split(st, t.box, ratio, t.parent, np, t);
      } else {
        node := new Pane.Split(st, t.box, ratio, t.parent, t, np);
      }
      par := node;
      ghost var before := tree.value;
      PutSplit(t, node, np, npFirst);
      SplitAtNodes(before, t, node, st, ratio, np, npFirst);
      SplitAtTop(before, t, node, st, ratio, np, npFirst);
      PairBoxes(At(before, t), node, st, ratio, np, npFirst, node.box);
    }

    /** par, which has the box and the parent of t, takes its place and lays out t and np. */
    method PutSplit(t: Pane, par: Pane, np: Pane, ghost npFirst: bool)
      requires Drawn() && t in TreeNodes() && GoodSplit(par.splitType, par.ratio)
      requires np !in TreeNodes() && par !in TreeNodes() && np != par && KidsOk(np, None)
      requires par.parent == t.parent && par.box == t.box
      requires par.child1 == (if npFirst then np else t) && par.child2 == (if npFirst then t else np)
      modifies this`root, this`tree, TreeNodes()`parent, InnerNodes()`child1, InnerNodes()`child2, TreeNodes()`box
      modifies np`parent, np`box
      ensures Drawn()
      ensures tree == Some(SplitAt(old(tree.value), t, par, par.splitType, par.ratio, np, npFirst))
      ensures TreeNodes() == old(TreeNodes()) + {par, np}
      ensures LaidOut(At(tree.value, par), par.box)
      ensures old(FillsScreen()) ==> FillsScreen()
    {
      hide WellFormed, Parent, Kids, SplitAt, At, Nodes, LaidOut, LeafSet, Faithful, BoxIn, KidsOk;
      ghost var before := tree.value;
      NodesAllocated(before);
      LaidOutIs(before, Screen());
      LinkSplit(t, par, np, npFirst);
      SplitAtNodes(before, t, par, par.splitType, par.ratio, np, npFirst);
      SplitAtTop(before, t, par, par.splitType, par.ratio, np, npFirst);
      Reflow(tree.value, par);
      if old(FillsScreen()) {
        SplitFills(before, t, par, par.splitType, par.ratio, np, npFirst, Screen());
      }
    }

    /** The pointers that change to put par above t and np. */
    method LinkSplit(t: Pane, par: Pane, np: Pane, ghost npFirst: bool)
      requires Drawn() && t in TreeNodes() && GoodSplit(par.splitType, par.ratio)
      requires np !in TreeNodes() && par !in TreeNodes() && np != par && KidsOk(np, None)
      requires par.parent == t.parent
      requires par.child1 == (if npFirst then np else t) && par.child2 == (if npFirst then t else np)
      modifies this`root, this`tree, TreeNodes()`parent, InnerNodes()`child1, InnerNodes()`child2, np`parent
      ensures Drawn()
      ensures tree == Some(SplitAt(old(tree.value), t, par, par.splitType, par.ratio, np, npFirst))
      ensures TreeNodes() == old(TreeNodes()) + {par, np} && Kids(tree.value, par).Some?
    {
      hide WellFormed, Parent, Kids, SplitAt, Nodes, LeafSet, Holds;
      ghost var before := tree.value;
      NodesAllocated(before);
      OneHolder(before, t);
      ReplaceChild(t, par);
      t.parent := par;
      np.parent := par;
      ghost var after := SplitAt(before, t, par, par.splitType, par.ratio, np, npFirst);
      tree := Some(after);
      SplitAtNodes(before, t, par, par.splitType, par.ratio, np, npFirst);
      forall y | y in Nodes(before) ensures Faithful(after, y) {
        assert old(Faithful(before, y));
        SplitStays(before, t, par, par.splitType, par.ratio, np, npFirst, y, old(y.parent), old(y.child1),
          old(y.child2));
      }
      SplitAdds(before, t, par, par.splitType, par.ratio, np, npFirst);
    }

    /** par.reshapeChildren() */
    method Reflow(ghost t: Tree<Pane>, n: Pane)
      requires WellFormed(t) && n in Nodes(t) && Kids(t, n).Some?
      requires forall y :: y in Nodes(t) ==> Faithful(t, y)
      modifies (Nodes(At(t, n)) - {n})`box
      ensures LaidOut(At(t, n), n.box)
    {
      ShapedAt(t, n);
      AtSplit(t, n);
      ReshapeChildren(n, At(t, n));
    }

    /** Takes leaf t out: its sibling gets its parent's place and its parent's exact
        box. A pane that is in no tree stays as it is. */
    method RemoveLeafLocked(t: Pane)
      requires Drawn() && if t in TreeNodes() then t in LeafNodes() else t.parent == null
      modifies this`root, this`tree, TreeNodes()`parent, InnerNodes()`child1, InnerNodes()`child2, TreeNodes()`box
      ensures Drawn() && WellFormedLayout(old(tree))
      ensures tree == Without(old(tree), t)
      ensures t.parent == null && LeafNodes() == old(LeafNodes()) - {t} && TreeNodes() <= old(TreeNodes()) - {t}
      ensures old(t.parent) != null ==>
        var sib := old(OtherChild(t));
        && sib != null && sib in TreeNodes() && sib.box == old(t.parent.box)
        && LaidOut(At(tree.value, sib), sib.box)
      ensures old(FillsScreen()) ==> FillsScreen()
    {
      hide WellFormed, Parent, Kids, Nodes, LaidOut, Shaped, Faithful, LeafSet, RemoveLeaf, At, BoxIn, Sibling;
      var par := t.parent;
      if tree.Some? {
        TopIn(tree.value);
        LeavesIn(tree.value);
        LeafSetLeaf(t);
        if t in TreeNodes() {
          TopNode(tree.value, t);
        }
      }
      if par == null {
        if root == t {
          root := null;
          tree := None;
        }
        return;
      }
      var sib := OtherChild(t);
      NodesAllocated(tree.value);
      OtherIs(tree.value, t);
      ghost var before := tree.value;
      LaidOutIs(before, Screen());
      RemoveNodes(before, t);
      LinkRemove(t, par, sib);
      ResizeAt(tree.value, sib, par.box);
      if old(FillsScreen()) {
        RemoveFills(before, t, Screen());
      }
    }

    /** The pointers that change to put sib in its parent's place. */
    method LinkRemove(t: Pane, par: Pane, sib: Pane)
      requires Drawn() && t in LeafNodes() && t in TreeNodes() && t.parent == par && sib == OtherChild(t)
      modifies this`root, this`tree, TreeNodes()`parent, InnerNodes()`child1, InnerNodes()`child2
      ensures Drawn() && t.parent == null
      ensures WellFormed(old(tree.value)) && old(tree.value).Node?
      ensures tree == Some(RemoveLeaf(old(tree.value), t))
      ensures TreeNodes() == old(TreeNodes()) - {t, par} && sib in TreeNodes()
      ensures LeafNodes() == old(LeafNodes()) - {t}
    {
      hide WellFormed, Parent, Kids, Nodes, LeafSet, RemoveLeaf, Sibling, Holds;
      ghost var before := tree.value;
      NodesAllocated(before);
      OtherIs(before, t);
      OneHolder(before, par);
      RemoveNodes(before, t);
      sib.parent := par.parent;
      ReplaceChild(par, sib);
      t.parent := null;
      ghost var after := RemoveLeaf(before, t);
      tree := Some(after);
      forall y | y in Nodes(after) ensures Faithful(after, y) {
        assert old(Faithful(before, y));
        RemoveStays(before, t, y, old(y.parent), old(y.child1), old(y.child2));
      }
    }

    /** sib.resize(par's box) */
    method ResizeAt(ghost t: Tree<Pane>, n: Pane, b: Box)
      requires WellFormed(t) && n in Nodes(t)
      requires forall y :: y in Nodes(t) ==> Faithful(t, y)
      modifies Nodes(At(t, n))`box
      ensures LaidOut(At(t, n), b) && n.box == b
    {
      ShapedAt(t, n);
      TopIn(At(t, n));
      Resize(n, b, At(t, n));
    }

    // ── the id table ───────────────────────────────────────────────────────

    /** The live pane with this id. */
    function PaneByID(id: int): Pane?
      reads this`allPanes, allPanes
    {
      if id < 0 || id >= |allPanes| then null
      else if allPanes[id].closed then null
      else allPanes[id]
    }

    predicate SplitTargetIntact(t: Pane?)
      reads this`allPanes, allPanes, t
    {
      t != null && PaneByID(t.id) == t && !t.hidden
    }

    /** The check after the fork is exactly that the target is a leaf of the layout. */
    lemma IntactMeansLeaf(t: Pane?)
      requires Valid()
      ensures SplitTargetIntact(t) <==> t != null && t in LeafNodes()
    {}

    /** Every pane's id becomes its index. */
    method StampPaneIDs()
      requires forall i, j :: 0 <= i < j < |allPanes| ==> allPanes[i] != allPanes[j]
      modifies allPanes`id
      ensures forall i :: 0 <= i < |allPanes| ==> allPanes[i].id == i
    {
      for i := 0 to |allPanes|
        invariant forall j :: 0 <= j < i ==> allPanes[j].id == j
      {
        allPanes[i].id := i;
      }
    }

    /** Adds the control panel to the table and leaves it out of the tree. No id
        moves. */
    method InstallHiddenPanel() returns (p: Pane)
      requires Valid()
      modifies this`allPanes, this`panel, allPanes`id
      ensures Valid() && panel == p && !p.closed
      ensures old(panel != null && !panel.closed) ==> unchanged(this)
      ensures old(panel == null || panel.closed) ==>
        fresh(p) && p.hidden && p.isControl && allPanes == old(allPanes) + [p]
    {
      hide Drawn, Nodes, LeafSet;
      if panel != null && !panel.closed {
        return panel;
      }
      Footprint();
      var h := Max(1, rows - if hideStatus then 0 else 1);
      var w := Max(1, cols / 2);
      p := new Pane(Box(0, Max(0, cols - w), h, w), true);
      p.hidden := true;
      AppendHidden(p);
      panel := p;
    }

    method AppendHidden(p: Pane)
      requires Valid() && p !in allPanes && p !in TreeNodes() && IsLoose(p) && p.hidden
      modifies this`allPanes, p`id, allPanes`id
      ensures Valid() && allPanes == old(allPanes) + [p]
    {
      hide Drawn, Nodes, LeafSet;
      Footprint();
      ghost var before := allPanes;
      allPanes := allPanes + [p];
      assert forall i :: 0 <= i < |before| ==> allPanes[i] == before[i];
      StampPaneIDs();
    }

    // ── open ───────────────────────────────────────────────────────────────

    /** A fresh pane gets its id and its place in the layout. */
    method Attach(t: Pane, np: Pane, st: SplitType, ratio: real) returns (ghost par: Pane)
      requires Valid() && GoodSplit(st, ratio) && t in LeafNodes() && t in TreeNodes()
      requires np !in TreeNodes() && np !in allPanes && IsLoose(np) && OnScreen(np)
      modifies this`root, this`tree, this`allPanes
      modifies TreeNodes()`parent, InnerNodes()`child1, InnerNodes()`child2, TreeNodes()`box
      modifies np`parent, np`box, np`id
      ensures Valid()
      ensures TreeNodes() == old(TreeNodes()) + {par, np} && LeafNodes() == old(LeafNodes()) + {np}
      ensures fresh(par) && np.id == |old(allPanes)| && allPanes == old(allPanes) + [np]
      ensures tree == Some(SplitAt(old(tree.value), t, par, st, ratio, np, false))
      ensures np.box == SplitBoxes(st, ratio, old(t.box)).1 && t.box == SplitBoxes(st, ratio, old(t.box)).0
      ensures old(FillsScreen()) ==> FillsScreen()
    {
      hide WellFormed, SplitAt, At, Nodes, LaidOut, LeafSet, Faithful, Drawn, SplitBoxes;
      Footprint();
      np.id := |allPanes|;
      allPanes := allPanes + [np];
      par := SplitNodeLocked(t, np, st, ratio, false);
    }

    /** The publishing step of OpenPane: np was spawned while no lock was held, so
        the layout may have closed or lost the target t meanwhile. */
    method Publish(t: Pane?, np: Pane, st: SplitType, ratio: real, focus: bool) returns (r: Outcome, ghost par: Pane?)
      requires Valid() && GoodSplit(st, ratio)
      requires np !in TreeNodes() && np !in allPanes && IsLoose(np) && OnScreen(np)
      modifies this`root, this`tree, this`allPanes, this`focused
      modifies TreeNodes()`parent, InnerNodes()`child1, InnerNodes()`child2, TreeNodes()`box
      modifies np`parent, np`box, np`id
      ensures Valid()
      ensures r.Closing? <==> closing
      ensures r.TargetGone? <==> !closing && (t == null || t !in old(LeafNodes()))
      ensures !r.Opened? ==> unchanged(this) && unchanged(np)
      ensures r.Opened? ==>
        && t != null && t in old(TreeNodes())
        && r.id == |old(allPanes)| && allPanes == old(allPanes) + [np]
        && par != null && fresh(par)
        && tree == Some(SplitAt(old(tree.value), t, par, st, ratio, np, false))
        && TreeNodes() == old(TreeNodes()) + {par, np} && LeafNodes() == old(LeafNodes()) + {np}
        && np.box == SplitBoxes(st, ratio, old(t.box)).1
        && t.box == SplitBoxes(st, ratio, old(t.box)).0
        && (Usable(t.box) && Usable(np.box) <==> SplitFits(old(t.box), st, ratio))
        && focused == if focus then np else old(focused)
      ensures old(FillsScreen()) ==> FillsScreen()
    {
      hide WellFormed, SplitAt, At, Nodes, LaidOut, LeafSet, Faithful, Drawn, SplitBoxes, SplitFits;
      par := null;
      if closing {
        return Closing, null;
      }
      if !SplitTargetIntact(t) {
        return TargetGone, null;
      }
      IntactMeansLeaf(t);
      LeavesIn(tree.value);
      r := Opened(|allPanes|);
      FitsMeansUsable(t.box, st, ratio);
      par := Attach(t, np, st, ratio);
      if focus {
        focused := np;
      }
    }

    /** Two opens planned on one target and published one after the other. Both were planned
        when the target fitted; the second pair is usable only if the first half of it
        still does. */
    method OpenTwice(t: Pane, np1: Pane, np2: Pane, st: SplitType, ratio: real)
      requires Valid() && GoodSplit(st, ratio) && !closing && t in LeafNodes()
      requires np1 !in TreeNodes() && np1 !in allPanes && IsLoose(np1) && OnScreen(np1)
      requires np2 !in TreeNodes() && np2 !in allPanes && IsLoose(np2) && OnScreen(np2) && np1 != np2
      modifies this, TreeNodes(), np1, np2
      ensures Valid() && allPanes == old(allPanes) + [np1, np2]
      ensures Usable(t.box) && Usable(np2.box) <==> SplitFits(SplitBoxes(st, ratio, old(t.box)).0, st, ratio)
      ensures old(FillsScreen()) ==> FillsScreen()
    {
      hide FillsScreen, Drawn, Nodes, LeafSet, SplitAt, SplitBoxes, SplitFits, Usable, Placed;
      var r1, _ := Publish(t, np1, st, ratio, false);
      var r2, _ := Publish(t, np2, st, ratio, false);
    }

    /** The session with the most cells, or else the panel. */
    method LargestLiveLeaf() returns (largest: Pane?)
      ensures largest == LargestLive()
    {
      var best: Pane?, fallback: Pane?, bestArea, fallbackArea := null, null, -1, -1;
      for i := 0 to |allPanes|
        invariant best == LargestOf(allPanes[..i], false) && bestArea == if best == null then -1 else Area(best)
        invariant fallback == LargestOf(allPanes[..i], true)
        invariant fallbackArea == if fallback == null then -1 else Area(fallback)
      {
        var p := allPanes[i];
        assert allPanes[..i + 1][..i] == allPanes[..i];
        if Splittable(p) {
          var a := Area(p);
          if p.isControl {
            if a > fallbackArea {
              fallback, fallbackArea := p, a;
            }
          } else if a > bestArea {
            best, bestArea := p, a;
          }
        }
      }
      assert allPanes[..|allPanes|] == allPanes;
      largest := if best != null then best else fallback;
    }

    function LargestLive(): Pane?
      reads this`allPanes, allPanes
    {
      if LargestOf(allPanes, false) != null then LargestOf(allPanes, false) else LargestOf(allPanes, true)
    }

    lemma LargestIsLeaf()
      requires Valid()
      ensures LargestLive() != null ==> LargestLive() in LeafNodes()
    {
      LargestMeans(allPanes, false);
      LargestMeans(allPanes, true);
    }

    /** The pane a target stands for: the leaf with that id; for -1 the focused session;
        and for any other negative one, or without such a session, the largest leaf. */
    ghost function TargetOf(target: int): Pane?
      reads this, allPanes
    {
      if target >= 0 then if PaneByID(target) in LeafNodes() then PaneByID(target) else null
      else if target == TARGET_FOCUSED && focused != null && !focused.isControl then focused
      else LargestLive()
    }

    method ResolveSplitTarget(target: int) returns (t: Pane?)
      requires Valid()
      ensures t == TargetOf(target) && (t != null ==> t in LeafNodes())
    {
      if target >= 0 {
        var p := PaneByID(target);
        return if p == null || p.hidden || p.splitType != SplitNone then null else p;
      }
      if target == TARGET_FOCUSED {
        var p := focused;
        if p != null && !p.isControl && Splittable(p) {
          return p;
        }
      }
      LargestIsLeaf();
      t := LargestLiveLeaf();
    }

    /** OpenPane before the fork: refused while closing, for want of a target, or because a
        half of that target would not be usable; else the target, how it is split, and
        the box of the new half, as things stand. */
    method PlanOpen(target: int, split: SplitType, wanted: real) returns (plan: Plan)
      requires Valid()
      ensures plan.ShuttingDown? <==> closing
      ensures plan.NoPlace? <==> !closing && TargetOf(target) == null
      ensures !closing && TargetOf(target) != null ==>
        var t := TargetOf(target);
        var st, ratio := Axis(split, t.box), RatioOr(wanted);
        && t in LeafNodes() && GoodSplit(st, ratio)
        && plan ==
             if SplitFits(t.box, st, ratio) then Planned(t, st, ratio, SplitBoxes(st, ratio, t.box).1) else TooSmall
    {
      hide Part, Valid, LeafSet, TargetOf;
      if closing {
        return ShuttingDown;
      }
      var t := ResolveSplitTarget(target);
      if t == null {
        return NoPlace;
      }
      var b := t.box;
      var st := Axis(split, b);
      var ratio := RatioOr(wanted);
      if st == SplitHorizontal {
        var w1 := Part(b.w, ratio);
        var w2 := b.w - w1 - 1;
        if w1 < MIN_PANE_COLS || w2 < MIN_PANE_COLS || b.h < MIN_PANE_ROWS {
          return TooSmall;
        }
        plan := Planned(t, st, ratio, Box(b.y, b.x + w1 + 1, b.h, w2));
      } else {
        var h1 := Part(b.h, ratio);
        var h2 := b.h - h1 - 1;
        if h1 < MIN_PANE_ROWS || h2 < MIN_PANE_ROWS || b.w < MIN_PANE_COLS {
          return TooSmall;
        }
        plan := Planned(t, st, ratio, Box(b.y + h1 + 1, b.x, h2, b.w));
      }
    }

    // ── close ──────────────────────────────────────────────────────────────

    /** Nothing is left to show, or no session where there was one. */
    ghost predicate NothingLeft()
      reads this`allPanes, allPanes`closed
    {
      || (forall q :: q in allPanes ==> q.closed)
      || ((exists q :: q in allPanes && !q.isControl) && forall q :: q in allPanes && !q.isControl ==> q.closed)
    }

    method LastOne() returns (last: bool)
      ensures last <==> NothingLeft()
    {
      var liveTotal, liveSessions, everSession := 0, 0, false;
      for i := 0 to |allPanes|
        invariant liveTotal >= 0 && liveSessions >= 0
        invariant liveTotal == 0 <==> forall q :: q in allPanes[..i] ==> q.closed
        invariant liveSessions == 0 <==> forall q :: q in allPanes[..i] && !q.isControl ==> q.closed
        invariant everSession <==> exists q :: q in allPanes[..i] && !q.isControl
      {
        var q := allPanes[i];
        assert allPanes[..i + 1] == allPanes[..i] + [q];
        everSession := everSession || !q.isControl;
        if !q.closed {
          liveTotal := liveTotal + 1;
          if !q.isControl {
            liveSessions := liveSessions + 1;
          }
        }
      }
      assert allPanes[..|allPanes|] == allPanes;
      last := liveTotal == 0 || (everSession && liveSessions == 0);
    }

    /** ClosePane under the lock: the pane becomes a tombstone, its space goes to its
        sibling, and focus that would be lost goes near where it was. */
    method ClosePane(id: int) returns (ok: bool, last: bool)
      requires Valid()
      modifies this`root, this`tree, this`focused, allPanes`closed
      modifies TreeNodes()`parent, InnerNodes()`child1, InnerNodes()`child2, TreeNodes()`box
      ensures Valid()
      ensures ok <==> old(PaneByID(id)) != null
      ensures last <==> ok && NothingLeft()
      ensures !ok ==> unchanged(this) && unchanged(allPanes)
      ensures ok ==> WellFormedLayout(old(tree)) && tree == Without(old(tree), allPanes[id])
      ensures ok ==> forall q :: q in allPanes ==> q.closed == (old(q.closed) || q == allPanes[id])
      ensures ok && old(focused) != null && old(focused) != allPanes[id] ==> focused == old(focused)
      ensures ok ==> (focused == null <==> tree.None?)
      ensures ok && (old(focused) == null || old(focused) == allPanes[id]) && old(allPanes[id].parent) != null ==>
        var sib := old(OtherChild(allPanes[id]));
        sib != null && sib in TreeNodes() && IsFocusChoice(Leaves(At(tree.value, sib)), focused)
      ensures old(FillsScreen()) ==> FillsScreen()
    {
      hide Drawn, FillsScreen, At, Without, Leaves, IsFocusChoice, Nodes, LeafSet;
      ok, last := false, false;
      var p := PaneByID(id);
      if p == null {
        return;
      }
      ok := true;
      var sib := OtherChild(p);
      Tombstone(p);
      if focused == p || focused == null || focused.closed {
        Refocus(sib);
      }
      Footprint();
      last := LastOne();
    }

    /** The pane is marked and taken out of the tree. */
    method Tombstone(p: Pane)
      requires Placed() && p in allPanes
      modifies this`root, this`tree, p`closed
      modifies TreeNodes()`parent, InnerNodes()`child1, InnerNodes()`child2, TreeNodes()`box
      ensures Placed() && p.closed
      ensures WellFormedLayout(old(tree)) && tree == Without(old(tree), p)
      ensures LeafNodes() == old(LeafNodes()) - {p} && forall q :: q in LeafNodes() ==> !q.closed
      ensures old(p.parent) != null ==> old(OtherChild(p)) != null && old(OtherChild(p)) in TreeNodes()
      ensures old(FillsScreen()) ==> FillsScreen()
    {
      hide Drawn, At, Without, Nodes, LaidOut, LeafSet, Faithful;
      Footprint();
      p.closed := true;
      RemoveLeafLocked(p);
    }

    lemma Footprint()
      requires Drawn()
      ensures LeafNodes() <= TreeNodes() && forall x :: x in TreeNodes() ==> allocated(x)
      ensures WellFormedLayout(tree)
      ensures tree.Some? <==> root != null
      ensures root != null ==> root in TreeNodes() && At(tree.value, root) == tree.value
    {
      if tree.Some? {
        NodesAllocated(tree.value);
        LeavesIn(tree.value);
        TopIn(tree.value);
      }
    }

    /** Focus goes to the first session under sib, or under the root. */
    method Refocus(sib: Pane?)
      requires Placed() && (sib != null ==> sib in TreeNodes())
      modifies this`focused
      ensures Placed() && (focused == null || focused in LeafNodes())
      ensures focused == null <==> tree.None?
      ensures sib != null ==> Drawn() && IsFocusChoice(Leaves(At(tree.value, sib)), focused)
      ensures sib == null && tree.Some? ==> IsFocusChoice(Leaves(tree.value), focused)
      ensures old(FillsScreen()) ==> FillsScreen()
    {
      hide Drawn, FillsScreen, TableOk, Leaves, IsFocusChoice, LeafSet, Nodes;
      Footprint();
      focused := FocusUnder(sib);
      if focused == null {
        focused := FocusUnder(root);
      }
    }

    /** firstLiveLeaf of a node of the layout, or of none. */
    method FocusUnder(node: Pane?) returns (p: Pane?)
      requires Drawn() && (forall x :: x in TreeNodes() ==> OnScreen(x)) && (node != null ==> node in TreeNodes())
      ensures node == null ==> p == null
      ensures node != null ==> p != null && p in LeafNodes() && IsFocusChoice(Leaves(At(tree.value, node)), p)
    {
      if node == null {
        return null;
      }
      ghost var t := At(tree.value, node);
      NodesAllocated(tree.value);
      ShapedAt(tree.value, node);
      TopIn(t);
      SomeLeaf(t);
      AtLeaves(tree.value, node);
      p := FirstLiveLeaf(node, Some(t));
    }

    // ── hide and show ──────────────────────────────────────────────────────

    /** Takes the panel out of the layout and remembers where it was. */
    method HidePanelLocked(p: Pane)
      requires Valid() && p in allPanes && OnScreen(p)
      modifies this`root, this`tree, this`focused, p`hidden
      modifies this`panelAnchor, this`panelSplit, this`panelRatio, this`panelFirst
      modifies TreeNodes()`parent, InnerNodes()`child1, InnerNodes()`child2, TreeNodes()`box
      ensures Valid() && p.hidden && TreeNodes() <= old(TreeNodes())
      ensures WellFormedLayout(old(tree)) && tree == Without(old(tree), p)
      ensures old(p.parent) != null ==>
        && panelAnchor == old(OtherChild(p)) && panelAnchor != null && panelAnchor in TreeNodes()
        && panelSplit == old(p.parent.splitType) && panelRatio == old(p.parent.ratio)
        && panelFirst == old(p.parent.child1 == p)
        && panelAnchor.box == old(p.parent.box)
      ensures old(p.parent) == null ==> tree == None && panelAnchor == null
      ensures old(focused) != p ==> focused == old(focused)
      ensures old(focused) == p ==> if tree.Some? then IsFocusChoice(Leaves(tree.value), focused) else focused == null
      ensures old(FillsScreen()) ==> FillsScreen()
    {
      hide Drawn, FillsScreen, At, Without, Nodes, LeafSet, Leaves, IsFocusChoice;
      Footprint();
      RememberPlace(p);
      Vanish(p);
      if focused == p {
        Footprint();
        Refocus(root);
        Footprint();
      }
    }

    method RememberPlace(p: Pane)
      modifies this`panelAnchor, this`panelSplit, this`panelRatio, this`panelFirst
      ensures panelAnchor == OtherChild(p)
      ensures p.parent != null ==>
        panelSplit == p.parent.splitType && panelRatio == p.parent.ratio && panelFirst == (p.parent.child1 == p)
      ensures p.parent == null ==> panelSplit == SplitHorizontal && panelRatio == 0.5 && !panelFirst
    {
      var par := p.parent;
      if par != null {
        panelAnchor := OtherChild(p);
        panelSplit, panelRatio, panelFirst := par.splitType, par.ratio, par.child1 == p;
      } else {
        panelAnchor, panelSplit, panelRatio, panelFirst := null, SplitHorizontal, 0.5, false;
      }
    }

    /** The pane is taken out of the tree and marked. */
    method Vanish(p: Pane)
      requires Placed() && p in allPanes && OnScreen(p)
      modifies this`root, this`tree, p`hidden
      modifies TreeNodes()`parent, InnerNodes()`child1, InnerNodes()`child2, TreeNodes()`box
      ensures Placed() && p.hidden
      ensures WellFormedLayout(old(tree)) && tree == Without(old(tree), p)
      ensures LeafNodes() == old(LeafNodes()) - {p} && (root != null ==> root in TreeNodes())
      ensures TreeNodes() <= old(TreeNodes())
      ensures old(p.parent) == null ==> tree == None
      ensures old(p.parent) != null ==>
        var sib := old(OtherChild(p));
        sib != null && sib in TreeNodes() && sib.box == old(p.parent.box)
      ensures old(FillsScreen()) ==> FillsScreen()
    {
      hide Drawn, At, Without, Nodes, LaidOut, LeafSet, Faithful;
      Footprint();
      if p.parent == null {
        AloneWithout(p);
      }
      RemoveLeafLocked(p);
      p.hidden := true;
      Footprint();
    }

    lemma AloneWithout(p: Pane)
      requires Drawn() && p in LeafNodes() && p.parent == null
      ensures WellFormedLayout(tree) && Without(tree, p) == None
    {
      LeavesIn(tree.value);
      TopNode(tree.value, p);
    }

    /** Whether n is reachable from the root. */
    method NodeInTreeLocked(n: Pane?) returns (r: bool)
      requires Drawn()
      ensures r <==> n != null && n in TreeNodes()
    {
      if n == null {
        return false;
      }
      if root != null {
        ShapedAt(tree.value, root);
      }
      r := Reaches(root, n, if tree.Some? then tree.value else Leaf(n));
    }

    /** The node the panel comes back beside: where it was, or else everything. */
    ghost function Beside(): Pane?
      reads this`panelAnchor, this`tree, this`root
    {
      if panelAnchor != null && panelAnchor in TreeNodes() then panelAnchor else root
    }

    method ShowAlone(p: Pane)
      requires Valid() && tree == None && p in allPanes && !p.closed && p.hidden
      modifies this`root, this`tree, p`hidden, p`parent, p`box
      ensures Valid() && tree == Some(Leaf(p)) && !p.hidden && FillsScreen()
    {
      hide LaidOut, LeafSet, Leaves;
      p.hidden := false;
      p.parent := null;
      root := p;
      tree := Some(Leaf(p));
      LeafSetLeaf(p);
      ReflowLocked();
    }

    /** The whole layout again, for the screen there is. */
    method ReflowLocked()
      requires Drawn()
      modifies TreeNodes()`box
      ensures FillsScreen()
    {
      if root == null {
        return;
      }
      ShapedAt(tree.value, root);
      Resize(root, Screen(), tree.value);
    }

    /** Puts the panel back, unless there is no room for it. */
    method ShowPanelLocked(p: Pane) returns (shown: bool, ghost par: Pane?)
      requires Valid() && p in allPanes && !p.closed && p.hidden
      modifies this`root, this`tree, p`hidden, p`parent, p`box
      modifies TreeNodes()`parent, InnerNodes()`child1, InnerNodes()`child2, TreeNodes()`box
      ensures Valid() && p.hidden == !shown
      ensures old(tree) == None ==> shown && tree == Some(Leaf(p))
      ensures old(tree) != None ==>
        && old(Beside()) != null && old(Beside()) in old(TreeNodes())
        && shown == SplitFits(old(Beside().box), SplitOr(panelSplit), RatioOr(panelRatio))
      ensures old(tree) != None && shown ==>
        && par != null && fresh(par)
        && tree == Some(SplitAt(old(tree.value), old(Beside()), par, SplitOr(panelSplit), RatioOr(panelRatio),
          p, panelFirst))
      ensures old(tree) != None && shown ==> Usable(p.box) && Usable(old(Beside()).box)
      ensures !shown ==> unchanged(this) && unchanged(p)
      ensures old(FillsScreen()) ==> FillsScreen()
    {
      hide Drawn, At, Nodes, LaidOut, LeafSet, Faithful, SplitAt, SplitFits, SplitBoxes;
      Footprint();
      par := null;
      var st, ratio := SplitOr(panelSplit), RatioOr(panelRatio);
      var t := panelAnchor;
      var inTree := NodeInTreeLocked(t);
      if !inTree {
        t := root;
      }
      if t == null {
        ShowAlone(p);
        return true, null;
      }
      if !SplitFits(t.box, st, ratio) {
        return false, null;
      }
      par := Reinstate(p, t, st, ratio);
      shown := true;
    }

    method Reinstate(p: Pane, t: Pane, st: SplitType, ratio: real) returns (ghost par: Pane)
      requires Valid() && p in allPanes && !p.closed && p.hidden && t in TreeNodes() && GoodSplit(st, ratio)
      modifies this`root, this`tree, p`hidden, p`parent, p`box
      modifies TreeNodes()`parent, InnerNodes()`child1, InnerNodes()`child2, TreeNodes()`box
      ensures Valid() && !p.hidden
      ensures fresh(par) && tree == Some(SplitAt(old(tree.value), t, par, st, ratio, p, panelFirst))
      ensures SplitFits(old(t.box), st, ratio) ==> Usable(p.box) && Usable(t.box)
      ensures old(FillsScreen()) ==> FillsScreen()
    {
      hide Drawn, FillsScreen, At, Nodes, LaidOut, LeafSet, Faithful, SplitAt, SplitFits, SplitBoxes, Usable;
      Footprint();
      p.hidden := false;
      FitsUsable(t.box, st, ratio);
      par := SplitNodeLocked(t, p, st, ratio, panelFirst);
    }

    ghost function Panel(): set<Pane>
      reads this`panel
    {
      if panel == null then {} else {panel}
    }

    /** togglePanel; there may be no panel, or an agent may have closed it. */
    method TogglePanel() returns (noRoom: bool)
      requires Valid()
      modifies this`root, this`tree, this`focused, Panel()`hidden, Panel()`parent, Panel()`box
      modifies this`panelAnchor, this`panelSplit, this`panelRatio, this`panelFirst
      modifies TreeNodes()`parent, InnerNodes()`child1, InnerNodes()`child2, TreeNodes()`box
      ensures Valid()
      ensures panel == null || panel.closed ==> !noRoom && unchanged(this) && unchanged(Panel())
      ensures panel != null && !panel.closed ==> panel.hidden == (noRoom || old(!panel.hidden))
      ensures noRoom ==> old(panel.hidden) && unchanged(this)
      ensures old(FillsScreen()) ==> FillsScreen()
    {
      hide FillsScreen;
      noRoom := false;
      if panel == null || panel.closed {
        return;
      }
      if panel.hidden {
        var shown, _ := ShowPanelLocked(panel);
        noRoom := !shown;
      } else {
        HidePanelLocked(panel);
      }
    }

    /** Hide, then show: the panel comes back exactly when its old parent's box still
        takes the split, and then to the same side of the same split at the same
        ratio, with every other pane where it was. */
    method HideThenShow(p: Pane) returns (shown: bool)
      requires Valid() && p in allPanes && OnScreen(p)
      modifies this, p, TreeNodes()
      ensures Valid() && p.hidden == !shown && allPanes == old(allPanes)
      ensures old(p.parent) == null ==> shown
      ensures old(p.parent) != null ==>
        shown == SplitFits(old(p.parent.box), old(p.parent.splitType), old(p.parent.ratio))
      ensures old(tree).Some?
      ensures shown ==> tree.Some? && SameShape(tree.value, old(tree.value))
      ensures shown && old(FillsScreen()) ==>
        FillsScreen() && forall q :: q in allPanes && OnScreen(q) ==> q.box == old(q.box)
    {
      hide Drawn, LaidOut, Nodes, LeafSet, Faithful, SplitAt, SplitFits, RemoveLeaf, WellFormed, SameShape, BoxIn;
      Footprint();
      ghost var before, b := tree.value, Screen();
      WhereHidden(p);
      LaidOutIs(before, b);
      HidePanelLocked(p);
      Footprint();
      ghost var par;
      shown, par := ShowPanelLocked(p);
      if shown {
        if old(p.parent) != null {
          ShowUndoesHide(before, p, par);
        }
        if old(FillsScreen()) {
          LeavesFilled(before);
        }
      }
    }

    /** A layout that fills the screen has its leaves where any of its shape would. */
    lemma LeavesFilled(t: Tree<Pane>)
      requires Placed() && FillsScreen() && tree.Some? && WellFormed(t) && SameShape(tree.value, t)
      ensures forall q :: q in allPanes && OnScreen(q) ==> q in Nodes(t) && q.box == BoxIn(t, Screen(), q)
    {
      hide Faithful, SameShape, BoxIn;
      LaidOutIs(tree.value, Screen());
      forall q | q in allPanes && OnScreen(q) ensures q in Nodes(t) && q.box == BoxIn(t, Screen(), q) {
        SameShapeBoxes(tree.value, t, Screen(), q);
      }
    }

    lemma WhereHidden(p: Pane)
      requires Drawn() && p in LeafNodes()
      ensures tree.Some? && WellFormed(tree.value) && p in Nodes(tree.value)
      ensures p.parent == null ==> tree.value == Leaf(p) && SameShape(tree.value, tree.value)
      ensures p.parent != null ==>
        var t := tree.value;
        && t.Node? && p != Top(t) && Parent(t, p) == Some(p.parent) && OtherChild(p) == Sibling(t, p)
        && GoodSplit(p.parent.splitType, p.parent.ratio)
        && p.parent in Nodes(t) && Kids(t, p.parent).Some?
        && var k := Kids(t, p.parent).value;
           k.st == p.parent.splitType && k.ratio == p.parent.ratio && (k.first == p <==> p.parent.child1 == p)
    {
      var t := tree.value;
      LeavesIn(t);
      TopNode(t, p);
      SameShapeSelf(t);
      if p.parent != null {
        OtherIs(t, p);
        assert Faithful(t, p.parent);
        ParentIs(t, p);
        KidsAre(t, p.parent);
      }
    }
  }

  /** The one node that points down to x is the one x points up to. */
  ghost predicate Held(nodes: set<Pane>, inner: set<Pane>, x: Pane)
    requires inner <= nodes
    reads x`parent, nodes`child1, nodes`child2
  {
    && (x.parent != null ==> x.parent in inner && (x.parent.child1 == x <==> x.parent.child2 != x))
    && (forall y :: y in nodes && (y.child1 == x || y.child2 == x) ==> x.parent == y)
  }

  lemma OneHolder(t: Tree<Pane>, x: Pane)
    requires WellFormed(t) && x in Nodes(t) && forall y :: y in Nodes(t) ==> Faithful(t, y)
    ensures Held(Nodes(t), Nodes(t) - LeafSet(t), x) && x.parent == Pointer(Parent(t, x))
    ensures x.parent == null <==> x == Top(t)
  {
    ParentIs(t, x);
    assert Faithful(t, x);
    if x.parent != null {
      OnlyParent(t, x, x.parent);
      LeafHasNoKids(t, x.parent);
    }
    forall y | y in Nodes(t) && (y.child1 == x || y.child2 == x) ensures x.parent == y {
      OnlyParent(t, x, y);
    }
  }

  ghost function SwapPointer(y: Pane?, x: Pane, par: Pane): Pane? {
    if y == x then par else y
  }

  /** One node of the tree, from its old pointers to its new ones. */
  lemma SplitStays(t: Tree<Pane>, x: Pane, par: Pane, st: SplitType, ratio: real, np: Pane, npFirst: bool,
                   y: Pane, up: Pane?, child1: Pane?, child2: Pane?)
    requires WellFormed(t) && x in Nodes(t) && GoodSplit(st, ratio)
    requires par !in Nodes(t) && np !in Nodes(t) && par != np && y in Nodes(t)
    requires up == Pointer(Parent(t, y)) && Holds(Kids(t, y), y.splitType, y.ratio, child1, child2)
    requires y.parent == if y == x then par else up
    requires y.child1 == SwapPointer(child1, x, par) && y.child2 == SwapPointer(child2, x, par)
    ensures Faithful(SplitAt(t, x, par, st, ratio, np, npFirst), y)
  {
    SplitAtPointers(t, x, par, st, ratio, np, npFirst, y);
  }

  ghost predicate WellFormedLayout(t: Option<Tree<Pane>>) {
    t.Some? ==> WellFormed(t.value)
  }

  /** The layout without leaf x; the same layout if x is no leaf of it. */
  ghost function Without(t: Option<Tree<Pane>>, x: Pane): Option<Tree<Pane>>
    requires WellFormedLayout(t)
  {
    if t.None? || x !in LeafSet(t.value) then t
    else if t.value.Leaf? then None
    else Some(RemoveLeaf(t.value, x))
  }

  /** The other child of p's parent. */
  function OtherChild(p: Pane): Pane?
    reads p, p.parent
  {
    if p.parent == null then null else if p.parent.child1 == p then p.parent.child2 else p.parent.child1
  }

  lemma OtherIs(t: Tree<Pane>, x: Pane)
    requires WellFormed(t) && x in Nodes(t) && x in LeafSet(t) && x.parent != null
    requires forall y :: y in Nodes(t) ==> Faithful(t, y)
    ensures t.Node? && x != Top(t) && Parent(t, x) == Some(x.parent) && x.parent in Nodes(t)
    ensures OtherChild(x) == Sibling(t, x) && Sibling(t, x) in Nodes(t)
    ensures Sibling(t, x) != x && Sibling(t, x) != x.parent
  {
    assert Faithful(t, x);
    ParentIs(t, x);
    SiblingIn(t, x);
    KidsAre(t, x.parent);
    assert Faithful(t, x.parent);
  }

  /** A leaf that hangs from nothing is the whole layout. */
  lemma TopNode(t: Tree<Pane>, x: Pane)
    requires WellFormed(t) && x in Nodes(t) && x in LeafSet(t)
    requires forall y :: y in Nodes(t) ==> Faithful(t, y)
    ensures x.parent == null <==> x == Top(t)
    ensures x == Top(t) <==> t == Leaf(x)
    ensures t == Leaf(x) <==> t.Leaf?
  {
    assert Faithful(t, x);
    ParentIs(t, x);
    TopLeaf(t, x);
    assert t.Leaf? ==> Leaves(t) == [t.pane];
  }

  lemma RemoveStays(t: Tree<Pane>, x: Pane, y: Pane, up: Pane?, child1: Pane?, child2: Pane?)
    requires WellFormed(t) && t.Node? && x in LeafSet(t) && x in Nodes(t) && x != Top(t) && Parent(t, x).Some?
    requires y in Nodes(t) && y != x && y != Parent(t, x).value
    requires up == Pointer(Parent(t, y)) && Holds(Kids(t, y), y.splitType, y.ratio, child1, child2)
    requires var (p, s) := (Parent(t, x).value, Sibling(t, x));
      && y.parent == (if y == s then Pointer(Parent(t, p)) else up)
      && y.child1 == SwapPointer(child1, p, s) && y.child2 == SwapPointer(child2, p, s)
    ensures Faithful(RemoveLeaf(t, x), y)
  {
    hide Sibling, RemoveLeaf, LeafSet;
    RemovePointers(t, x, y);
  }

  lemma PairBoxes(t: Tree<Pane>, par: Pane, st: SplitType, ratio: real, np: Pane, npFirst: bool, b: Box)
    requires LaidOut(Pair(par, st, ratio, t, np, npFirst), b)
    ensures var (b1, b2) := SplitBoxes(st, ratio, b);
      if npFirst then np.box == b1 && Top(t).box == b2 else Top(t).box == b1 && np.box == b2
  {
    hide SplitBoxes, Part;
    var (b1, b2) := SplitBoxes(st, ratio, b);
    assert LaidOut(Leaf(np), if npFirst then b1 else b2);
    assert LaidOut(t, if npFirst then b2 else b1);
  }

  /** A layout that was laid out in b is so after a split, if only the pair was moved. */
  lemma SplitFills(t: Tree<Pane>, x: Pane, par: Pane, st: SplitType, ratio: real, np: Pane, npFirst: bool, b: Box)
    requires WellFormed(t) && x in Nodes(t) && GoodSplit(st, ratio)
    requires par !in Nodes(t) && np !in Nodes(t) && par != np
    requires par in Nodes(SplitAt(t, x, par, st, ratio, np, npFirst))
    requires LaidOut(At(SplitAt(t, x, par, st, ratio, np, npFirst), par), BoxIn(t, b, x))
    requires forall y :: y in Nodes(t) && y !in Nodes(At(SplitAt(t, x, par, st, ratio, np, npFirst), par)) ==>
      y.box == BoxIn(t, b, y)
    ensures LaidOut(SplitAt(t, x, par, st, ratio, np, npFirst), b)
  {
    hide LaidOut, BoxIn, SplitAt, At, LeafSet, WellFormed, Nodes;
    var t' := SplitAt(t, x, par, st, ratio, np, npFirst);
    SplitAtNodes(t, x, par, st, ratio, np, npFirst);
    SplitAtTop(t, x, par, st, ratio, np, npFirst);
    PairIn(par, st, ratio, At(t, x), np, npFirst);
    WellFormedAt(t', par);
    LaidOutIs(At(t', par), BoxIn(t, b, x));
    forall y | y in Nodes(t') ensures y.box == BoxIn(t', b, y) {
      BoxInSplit(t, b, x, par, st, ratio, np, npFirst, if y in Nodes(t) then y else x);
      if y in Nodes(At(t', par)) {
        BoxInAt(t', b, par, y);
      }
    }
    LaidOutIs(t', b);
  }

  lemma PairIn(par: Pane, st: SplitType, ratio: real, t: Tree<Pane>, np: Pane, npFirst: bool)
    ensures par in Nodes(Pair(par, st, ratio, t, np, npFirst)) && np in Nodes(Pair(par, st, ratio, t, np, npFirst))
  {}

  lemma WellFormedAt(t: Tree<Pane>, x: Pane)
    requires WellFormed(t) && x in Nodes(t)
    ensures WellFormed(At(t, x)) && x in Nodes(At(t, x))
  {
    TopIn(At(t, x));
    AtKids(t, x, x);
  }

  /** And after a removal, if only the sibling's part was. */
  lemma RemoveFills(t: Tree<Pane>, x: Pane, b: Box)
    requires WellFormed(t) && t.Node? && x in LeafSet(t)
    requires x in Nodes(t) && x != Top(t) && Parent(t, x).Some? && Parent(t, x).value in Nodes(t)
    requires Sibling(t, x) in Nodes(RemoveLeaf(t, x))
    requires LaidOut(At(RemoveLeaf(t, x), Sibling(t, x)), BoxIn(t, b, Parent(t, x).value))
    requires forall y :: y in Nodes(t) && y !in Nodes(At(RemoveLeaf(t, x), Sibling(t, x))) ==> y.box == BoxIn(t, b, y)
    ensures LaidOut(RemoveLeaf(t, x), b)
  {
    hide LaidOut, BoxIn, RemoveLeaf, At, LeafSet, WellFormed, Nodes, Sibling, Parent;
    var t', s := RemoveLeaf(t, x), Sibling(t, x);
    RemoveNodes(t, x);
    WellFormedAt(t', s);
    LaidOutIs(At(t', s), BoxIn(t, b, Parent(t, x).value));
    forall y | y in Nodes(t') ensures y.box == BoxIn(t', b, y) {
      BoxInRemove(t, b, x, y);
      if y in Nodes(At(t', s)) {
        BoxInAt(t', b, s, y);
      }
    }
    LaidOutIs(t', b);
  }

  lemma SplitAdds(t: Tree<Pane>, x: Pane, par: Pane, st: SplitType, ratio: real, np: Pane, npFirst: bool)
    requires WellFormed(t) && x in Nodes(t) && GoodSplit(st, ratio)
    requires par !in Nodes(t) && np !in Nodes(t) && par != np
    requires par.splitType == st && par.ratio == ratio && par.parent == Pointer(Parent(t, x))
    requires par.child1 == (if npFirst then np else x) && par.child2 == (if npFirst then x else np)
    requires np.parent == par && KidsOk(np, None)
    ensures var t' := SplitAt(t, x, par, st, ratio, np, npFirst);
      Faithful(t', par) && Faithful(t', np) && Kids(t', par).Some?
  {
    SplitAtPointers(t, x, par, st, ratio, np, npFirst, par);
    SplitAtPointers(t, x, par, st, ratio, np, npFirst, np);
  }
}
