/**
The box each node of a layout has when the whole of it is laid out in one (mux/pane.go:618-696),
and how splits and removals move those boxes.
*/
module LayoutBoxes {
  import opened LayoutTree
  import opened Boxes

  /** The box of node x when t is laid out in b. */
  ghost function BoxIn<N>(t: Tree<N>, b: Box, x: N): Box
    requires x in Nodes(t)
  {
    if x == Top(t) then b
    else
      var (b1, b2) := SplitBoxes(t.st, t.ratio, b);
      if x in Nodes(t.first) then BoxIn(t.first, b1, x) else BoxIn(t.second, b2, x)
  }

  /** A subtree is laid out in its top's box. */
  lemma {:induction false} BoxInAt<N>(t: Tree<N>, b: Box, x: N, y: N)
    requires WellFormed(t) && x in Nodes(t) && y in Nodes(At(t, x))
    ensures BoxIn(t, b, y) == BoxIn(At(t, x), BoxIn(t, b, x), y)
    decreases t
  {
    hide SplitBoxes;
    if x != Top(t) {
      var (b1, b2) := SplitBoxes(t.st, t.ratio, b);
      if x in Nodes(t.first) {
        BoxInAt(t.first, b1, x, y);
      } else {
        BoxInAt(t.second, b2, x, y);
      }
    }
  }

  /** A split takes place in the box of the node it splits; no box outside it moves. */
  lemma {:induction false} BoxInSplit<N>(t: Tree<N>, b: Box, x: N, par: N, st: SplitType, ratio: real, np: N,
                                         npFirst: bool, y: N)
    requires WellFormed(t) && x in Nodes(t) && GoodSplit(st, ratio)
    requires par !in Nodes(t) && np !in Nodes(t) && par != np && y in Nodes(t)
    ensures var t' := SplitAt(t, x, par, st, ratio, np, npFirst);
      && par in Nodes(t') && y in Nodes(t')
      && BoxIn(t', b, par) == BoxIn(t, b, x)
      && (y !in Nodes(At(t', par)) ==> BoxIn(t', b, y) == BoxIn(t, b, y))
    decreases t
  {
    hide SplitBoxes, LeafSet;
    var t' := SplitAt(t, x, par, st, ratio, np, npFirst);
    SplitAtNodes(t, x, par, st, ratio, np, npFirst);
    TopIn(t);
    if x != Top(t) {
      var (b1, b2) := SplitBoxes(t.st, t.ratio, b);
      if x in Nodes(t.first) {
        SplitAtNodes(t.first, x, par, st, ratio, np, npFirst);
        BoxInSplit(t.first, b1, x, par, st, ratio, np, npFirst, if y in Nodes(t.first) then y else x);
      } else {
        SplitAtNodes(t.second, x, par, st, ratio, np, npFirst);
        BoxInSplit(t.second, b2, x, par, st, ratio, np, npFirst, if y in Nodes(t.second) then y else x);
      }
    }
  }

  /** A removal takes place in the box of the parent, which the sibling gets; no box outside
      it moves. */
  lemma {:induction false} BoxInRemove<N>(t: Tree<N>, b: Box, x: N, y: N)
    requires WellFormed(t) && t.Node? && x in LeafSet(t)
    requires x in Nodes(t) && x != Top(t) && Parent(t, x).Some? && Parent(t, x).value in Nodes(t)
    requires Sibling(t, x) in Nodes(RemoveLeaf(t, x)) && y in Nodes(RemoveLeaf(t, x)) && y in Nodes(t)
    ensures var (t', s) := (RemoveLeaf(t, x), Sibling(t, x));
      && BoxIn(t', b, s) == BoxIn(t, b, Parent(t, x).value)
      && (y !in Nodes(At(t', s)) ==> BoxIn(t', b, y) == BoxIn(t, b, y))
    decreases t
  {
    hide SplitBoxes, LeafSet, Sibling;
    RemoveCases(t, x);
    LeafSetNode(t);
    SiblingIn(t, x);
    var (b1, b2) := SplitBoxes(t.st, t.ratio, b);
    if t.first == Leaf(x) || t.second == Leaf(x) {
    } else if x in LeafSet(t.first) {
      LeafAlone(t.first, x);
      RemoveNodes(t.first, x);
      SiblingIn(t.first, x);
      ParentIs(t.first, x);
      BoxInRemove(t.first, b1, x, if y in Nodes(RemoveLeaf(t.first, x)) then y else Sibling(t.first, x));
    } else {
      LeafAlone(t.second, x);
      RemoveNodes(t.second, x);
      SiblingIn(t.second, x);
      ParentIs(t.second, x);
      BoxInRemove(t.second, b2, x, if y in Nodes(RemoveLeaf(t.second, x)) then y else Sibling(t.second, x));
    }
  }

  /** Layouts of one shape have their panes in the same boxes. */
  lemma {:induction false} SameShapeBoxes<N>(t: Tree<N>, t': Tree<N>, b: Box, x: N)
    requires WellFormed(t) && WellFormed(t') && SameShape(t, t') && x in LeafSet(t)
    ensures x in Nodes(t) && x in LeafSet(t') && x in Nodes(t')
    ensures BoxIn(t, b, x) == BoxIn(t', b, x)
    decreases t
  {
    hide SplitBoxes;
    LeavesIn(t);
    LeavesIn(t');
    if t.Node? {
      LeafSetNode(t);
      LeafSetNode(t');
      TopLeaf(t, x);
      LeavesIn(t.first);
      LeavesIn(t.second);
      var (b1, b2) := SplitBoxes(t.st, t.ratio, b);
      if x in LeafSet(t.first) {
        SameShapeBoxes(t.first, t'.first, b1, x);
      } else {
        SameShapeBoxes(t.second, t'.second, b2, x);
      }
      TopLeaf(t', x);
    }
  }
}
