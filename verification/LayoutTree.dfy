/**
The layout as a tree of node identities, and what the two splices of
mux/dynpanes.go:431-503 do to it, apart from any pointer.

A node is a leaf (a pane) or a split with two children. `Parent` and the child
functions say what the pointers of each node must be, so the pointer proof in
`Layout` is one node at a time.
*/
module LayoutTree {
  import opened Wrappers

  datatype SplitType = SplitNone | SplitHorizontal | SplitVertical

  datatype Tree<N> =
    | Leaf(pane: N)
    | Node(node: N, st: SplitType, ratio: real, first: Tree<N>, second: Tree<N>)

  ghost function Top<N>(t: Tree<N>): N {
    if t.Leaf? then t.pane else t.node
  }

  ghost function Nodes<N>(t: Tree<N>): set<N> {
    match t
    case Leaf(p) => {p}
    case Node(n, _, _, a, b) => {n} + Nodes(a) + Nodes(b)
  }

  /** The panes, in the order they are met from the first child on. */
  ghost function Leaves<N>(t: Tree<N>): seq<N> {
    match t
    case Leaf(p) => [p]
    case Node(_, _, _, a, b) => Leaves(a) + Leaves(b)
  }

  ghost function LeafSet<N>(t: Tree<N>): set<N> {
    set x | x in Leaves(t)
  }

  ghost predicate GoodSplit(st: SplitType, ratio: real) {
    st != SplitNone && 0.0 < ratio < 1.0
  }

  /** No node stands in two places, and every inner node is a split. */
  ghost predicate WellFormed<N>(t: Tree<N>) {
    match t
    case Leaf(_) => true
    case Node(n, st, ratio, a, b) =>
      && GoodSplit(st, ratio)
      && WellFormed(a) && WellFormed(b)
      && n !in Nodes(a) && n !in Nodes(b) && Nodes(a) !! Nodes(b)
  }

  /** The node x hangs from, or None at the top. */
  ghost function Parent<N>(t: Tree<N>, x: N): Option<N> {
    match t
    case Leaf(_) => None
    case Node(n, _, _, a, b) =>
      if x in Nodes(a) then if x == Top(a) then Some(n) else Parent(a, x)
      else if x in Nodes(b) then if x == Top(b) then Some(n) else Parent(b, x)
      else None
  }

  /** What an inner node splits into; None for a leaf. */
  datatype Inner<N> = Inner(st: SplitType, ratio: real, first: N, second: N)

  ghost function Kids<N>(t: Tree<N>, x: N): Option<Inner<N>> {
    match t
    case Leaf(_) => None
    case Node(n, st, ratio, a, b) =>
      if x == n then Some(Inner(st, ratio, Top(a), Top(b)))
      else if x in Nodes(a) then Kids(a, x)
      else Kids(b, x)
  }

  /** The subtree at x. */
  ghost function At<N>(t: Tree<N>, x: N): (s: Tree<N>)
    requires x in Nodes(t)
    ensures Top(s) == x && Nodes(s) <= Nodes(t)
  {
    if x == Top(t) then t
    else if x in Nodes(t.first) then At(t.first, x)
    else At(t.second, x)
  }

  /** A subtree hangs the same way in the whole tree. */
  lemma {:induction false} AtKids<N>(t: Tree<N>, x: N, y: N)
    requires WellFormed(t) && x in Nodes(t) && y in Nodes(At(t, x))
    ensures WellFormed(At(t, x)) && Kids(At(t, x), y) == Kids(t, y)
    decreases t
  {
    TopIn(At(t, x));
    if x != Top(t) {
      if x in Nodes(t.first) {
        AtKids(t.first, x, y);
      } else {
        AtKids(t.second, x, y);
      }
    }
  }

  lemma AtSplit<N>(t: Tree<N>, x: N)
    requires WellFormed(t) && x in Nodes(t) && Kids(t, x).Some?
    ensures At(t, x).Node?
  {
    TopIn(At(t, x));
    AtKids(t, x, x);
  }

  /** A node is the kid of its parent alone. */
  lemma OnlyParent<N>(t: Tree<N>, x: N, y: N)
    requires WellFormed(t) && x in Nodes(t) && y in Nodes(t) && Kids(t, y).Some?
    ensures Kids(t, y).value.first == x ==> Parent(t, x) == Some(y)
    ensures Kids(t, y).value.second == x ==> Parent(t, x) == Some(y)
    ensures Kids(t, y).value.first != Kids(t, y).value.second
  {
    KidsAre(t, y);
  }

  lemma {:induction false} AtLeaves<N>(t: Tree<N>, x: N)
    requires x in Nodes(t)
    ensures LeafSet(At(t, x)) <= LeafSet(t)
    decreases t
  {
    if x != Top(t) {
      LeafSetNode(t);
      if x in Nodes(t.first) {
        AtLeaves(t.first, x);
      } else {
        AtLeaves(t.second, x);
      }
    }
  }

  lemma {:induction false} TopIn<N>(t: Tree<N>)
    ensures Top(t) in Nodes(t)
  {}

  lemma {:induction false} LeavesIn<N>(t: Tree<N>)
    ensures LeafSet(t) <= Nodes(t)
  {
    if t.Node? {
      LeavesIn(t.first);
      LeavesIn(t.second);
      assert forall x :: x in Leaves(t.first) ==> x in LeafSet(t.first);
      assert forall x :: x in Leaves(t.second) ==> x in LeafSet(t.second);
    }
  }

  lemma {:induction false} LeavesDistinct<N>(t: Tree<N>)
    requires WellFormed(t)
    ensures forall i, j :: 0 <= i < j < |Leaves(t)| ==> Leaves(t)[i] != Leaves(t)[j]
  {
    if t.Node? {
      LeavesDistinct(t.first);
      LeavesDistinct(t.second);
      LeavesIn(t.first);
      LeavesIn(t.second);
      forall i, j | 0 <= i < j < |Leaves(t)| ensures Leaves(t)[i] != Leaves(t)[j] {
        var n := |Leaves(t.first)|;
        assert forall x :: x in Leaves(t.first) ==> x in LeafSet(t.first);
        assert forall x :: x in Leaves(t.second) ==> x in LeafSet(t.second);
        if i < n <= j {
          assert Leaves(t.first)[i] in LeafSet(t.first) && Leaves(t.second)[j - n] in LeafSet(t.second);
        }
      }
    }
  }

  lemma LeafSetNode<N>(t: Tree<N>)
    requires t.Node?
    ensures LeafSet(t) == LeafSet(t.first) + LeafSet(t.second)
  {}

  lemma LeafSetLeaf<N>(p: N)
    ensures LeafSet(Leaf(p)) == {p}
  {
    assert Leaves(Leaf(p)) == [p];
  }

  /** A node is a leaf exactly when it has no kids. */
  lemma {:induction false} LeafHasNoKids<N>(t: Tree<N>, x: N)
    requires WellFormed(t) && x in Nodes(t)
    ensures x in LeafSet(t) <==> Kids(t, x).None?
    decreases t
  {
    if t.Node? {
      LeafSetNode(t);
      LeavesIn(t.first);
      LeavesIn(t.second);
      if x in Nodes(t.first) {
        LeafHasNoKids(t.first, x);
      } else if x in Nodes(t.second) {
        LeafHasNoKids(t.second, x);
      }
    }
  }

  /** A parent is a node, and x is one of its kids; only the top has none. */
  lemma {:induction false} ParentIs<N>(t: Tree<N>, x: N)
    requires WellFormed(t) && x in Nodes(t)
    ensures Parent(t, x).None? <==> x == Top(t)
    ensures Parent(t, x).Some? ==>
      var p := Parent(t, x).value;
      && p in Nodes(t) && Kids(t, p).Some?
      && (Kids(t, p).value.first == x || Kids(t, p).value.second == x)
      && p != x
    decreases t
  {
    if t.Node? {
      TopIn(t.first);
      TopIn(t.second);
      if x in Nodes(t.first) {
        ParentIs(t.first, x);
      } else if x in Nodes(t.second) {
        ParentIs(t.second, x);
      }
    }
  }

  /** The kids of an inner node are two nodes that hang from it. */
  lemma {:induction false} KidsAre<N>(t: Tree<N>, x: N)
    requires WellFormed(t) && x in Nodes(t) && Kids(t, x).Some?
    ensures var k := Kids(t, x).value;
      && GoodSplit(k.st, k.ratio) && k.first != k.second
      && k.first in Nodes(t) && k.second in Nodes(t)
      && Parent(t, k.first) == Some(x) && Parent(t, k.second) == Some(x)
    decreases t
  {
    TopIn(t.first);
    TopIn(t.second);
    if x in Nodes(t.first) {
      KidsAre(t.first, x);
      ParentIs(t.first, Kids(t.first, x).value.first);
      ParentIs(t.first, Kids(t.first, x).value.second);
    } else if x in Nodes(t.second) {
      KidsAre(t.second, x);
      ParentIs(t.second, Kids(t.second, x).value.first);
      ParentIs(t.second, Kids(t.second, x).value.second);
    }
  }

  // ── splitNodeLocked ──────────────────────────────────────────────────────

  ghost function Pair<N>(par: N, st: SplitType, ratio: real, t: Tree<N>, np: N, npFirst: bool): Tree<N> {
    if npFirst then Node(par, st, ratio, Leaf(np), t) else Node(par, st, ratio, t, Leaf(np))
  }

  /** The tree with a fresh node par in place of the subtree at x, over that subtree
      and the new leaf np. */
  ghost function SplitAt<N>(t: Tree<N>, x: N, par: N, st: SplitType, ratio: real, np: N, npFirst: bool): Tree<N>
    requires x in Nodes(t)
  {
    if x == Top(t) then Pair(par, st, ratio, t, np, npFirst)
    else if x in Nodes(t.first) then t.(first := SplitAt(t.first, x, par, st, ratio, np, npFirst))
    else t.(second := SplitAt(t.second, x, par, st, ratio, np, npFirst))
  }

  lemma {:induction false} SplitAtNodes<N>(t: Tree<N>, x: N, par: N, st: SplitType, ratio: real, np: N, npFirst: bool)
    requires WellFormed(t) && x in Nodes(t) && GoodSplit(st, ratio)
    requires par !in Nodes(t) && np !in Nodes(t) && par != np
    ensures var t' := SplitAt(t, x, par, st, ratio, np, npFirst);
      && WellFormed(t') && Nodes(t') == Nodes(t) + {par, np} && LeafSet(t') == LeafSet(t) + {np}
      && Top(t') == (if x == Top(t) then par else Top(t))
    decreases t
  {
    hide LeafSet;
    var t' := SplitAt(t, x, par, st, ratio, np, npFirst);
    LeafSetNode(t');
    LeafSetLeaf(np);
    if x == Top(t) {
    } else if x in Nodes(t.first) {
      LeafSetNode(t);
      SplitAtNodes(t.first, x, par, st, ratio, np, npFirst);
    } else {
      LeafSetNode(t);
      SplitAtNodes(t.second, x, par, st, ratio, np, npFirst);
    }
  }

  lemma {:induction false} SplitAtTop<N>(t: Tree<N>, x: N, par: N, st: SplitType, ratio: real, np: N, npFirst: bool)
    requires WellFormed(t) && x in Nodes(t) && par !in Nodes(t)
    ensures var t' := SplitAt(t, x, par, st, ratio, np, npFirst);
      par in Nodes(t') && At(t', par) == Pair(par, st, ratio, At(t, x), np, npFirst)
    decreases t
  {
    if x != Top(t) {
      if x in Nodes(t.first) {
        SplitAtTop(t.first, x, par, st, ratio, np, npFirst);
      } else {
        SplitAtTop(t.second, x, par, st, ratio, np, npFirst);
      }
    }
  }

  /** What a pointer to x becomes. */
  ghost function Swap<N>(y: N, x: N, par: N): N {
    if y == x then par else y
  }

  /** The pointers after a split: x and np hang from par, par hangs from where x
      did, whose pointer to x now points to par; nothing else changes. */
  ghost predicate PointersSplit<N>(t: Tree<N>, x: N, par: N, st: SplitType, ratio: real, np: N, npFirst: bool, y: N)
    requires x in Nodes(t)
  {
    var t' := SplitAt(t, x, par, st, ratio, np, npFirst);
    && Parent(t', y) == (if y == par then Parent(t, x) else if y == x || y == np then Some(par) else Parent(t, y))
    && Kids(t', y) == (if y == par then Some(if npFirst then Inner(st, ratio, np, x) else Inner(st, ratio, x, np))
                       else if y == np then None
                       else match Kids(t, y)
                            case None => None
                            case Some(k) => Some(k.(first := Swap(k.first, x, par), second := Swap(k.second, x, par))))
  }

  lemma {:induction false} SplitAtPointers<N>(t: Tree<N>, x: N, par: N, st: SplitType, ratio: real, np: N,
                                              npFirst: bool, y: N)
    requires WellFormed(t) && x in Nodes(t) && GoodSplit(st, ratio)
    requires par !in Nodes(t) && np !in Nodes(t) && par != np
    requires y in Nodes(t) + {par, np}
    ensures PointersSplit(t, x, par, st, ratio, np, npFirst, y)
    decreases t, 1
  {
    TopIn(t);
    if x == Top(t) {
      TopIsNoKid(t, y);
      ParentOutside(t, np);
      ParentOutside(t, par);
    } else if x in Nodes(t.first) {
      SplitAtPointersFirst(t, x, par, st, ratio, np, npFirst, y);
    } else {
      SplitAtPointersSecond(t, x, par, st, ratio, np, npFirst, y);
    }
  }

  lemma {:induction false} SplitAtPointersFirst<N>(t: Tree<N>, x: N, par: N, st: SplitType, ratio: real, np: N,
                                                   npFirst: bool, y: N)
    requires WellFormed(t) && x in Nodes(t) && GoodSplit(st, ratio)
    requires par !in Nodes(t) && np !in Nodes(t) && par != np
    requires y in Nodes(t) + {par, np}
    requires x != Top(t) && x in Nodes(t.first)
    ensures PointersSplit(t, x, par, st, ratio, np, npFirst, y)
    decreases t, 0
  {
    TopIn(t.first);
    TopIn(t.second);
    SplitAtNodes(t.first, x, par, st, ratio, np, npFirst);
    KidsStayIn(t.second, y);
    ParentOutside(t.second, y);
    if y in Nodes(t.first) + {par, np} {
      SplitAtPointers(t.first, x, par, st, ratio, np, npFirst, y);
      ParentIs(t.first, x);
    }
  }

  lemma {:induction false} SplitAtPointersSecond<N>(t: Tree<N>, x: N, par: N, st: SplitType, ratio: real, np: N,
                                                    npFirst: bool, y: N)
    requires WellFormed(t) && x in Nodes(t) && GoodSplit(st, ratio)
    requires par !in Nodes(t) && np !in Nodes(t) && par != np
    requires y in Nodes(t) + {par, np}
    requires x != Top(t) && x !in Nodes(t.first)
    ensures PointersSplit(t, x, par, st, ratio, np, npFirst, y)
    decreases t, 0
  {
    TopIn(t.first);
    TopIn(t.second);
    SplitAtNodes(t.second, x, par, st, ratio, np, npFirst);
    KidsStayIn(t.first, y);
    ParentOutside(t.first, y);
    if y in Nodes(t.second) + {par, np} {
      SplitAtPointers(t.second, x, par, st, ratio, np, npFirst, y);
      ParentIs(t.second, x);
    }
  }

  /** No node's kid is the top. */
  lemma TopIsNoKid<N>(t: Tree<N>, y: N)
    requires WellFormed(t)
    ensures y in Nodes(t) && Kids(t, y).Some? ==> Kids(t, y).value.first != Top(t) && Kids(t, y).value.second != Top(t)
  {
    if y in Nodes(t) && Kids(t, y).Some? {
      KidsAre(t, y);
      ParentIs(t, Kids(t, y).value.first);
      ParentIs(t, Kids(t, y).value.second);
    }
  }

  lemma KidsStayIn<N>(t: Tree<N>, y: N)
    requires WellFormed(t)
    ensures y in Nodes(t) && Kids(t, y).Some? ==>
      Kids(t, y).value.first in Nodes(t) && Kids(t, y).value.second in Nodes(t)
  {
    if y in Nodes(t) && Kids(t, y).Some? {
      KidsAre(t, y);
    }
  }

  lemma {:induction false} ParentOutside<N>(t: Tree<N>, y: N)
    ensures y !in Nodes(t) ==> Parent(t, y) == None
  {}

  // ── removeLeafLocked ─────────────────────────────────────────────────────

  /** The tree without leaf x: its parent collapses into its sibling. */
  ghost function RemoveLeaf<N>(t: Tree<N>, x: N): Tree<N>
    requires WellFormed(t) && t.Node? && x in LeafSet(t)
  {
    LeafSetNode(t);
    LeavesIn(t.first);
    LeavesIn(t.second);
    if t.first == Leaf(x) then t.second
    else if t.second == Leaf(x) then t.first
    else if x in LeafSet(t.first) then
      LeafAlone(t.first, x);
      t.(first := RemoveLeaf(t.first, x))
    else
      LeafAlone(t.second, x);
      t.(second := RemoveLeaf(t.second, x))
  }

  lemma LeafAlone<N>(t: Tree<N>, x: N)
    requires x in LeafSet(t) && t != Leaf(x)
    ensures t.Node?
  {}

  /** The other kid of x's parent. */
  ghost function Sibling<N>(t: Tree<N>, x: N): N
    requires WellFormed(t) && x in Nodes(t) && x != Top(t)
  {
    ParentIs(t, x);
    var k := Kids(t, Parent(t, x).value).value;
    if k.first == x then k.second else k.first
  }

  /** The cases of the removal. */
  lemma RemoveCases<N>(t: Tree<N>, x: N)
    requires WellFormed(t) && t.Node? && x in LeafSet(t)
    ensures x in Nodes(t) && x != Top(t)
    ensures t.first == Leaf(x) ==>
      Parent(t, x) == Some(t.node) && Sibling(t, x) == Top(t.second) && x !in Nodes(t.second)
    ensures t.second == Leaf(x) ==>
      Parent(t, x) == Some(t.node) && Sibling(t, x) == Top(t.first) && x !in Nodes(t.first)
    ensures t.first != Leaf(x) && x in LeafSet(t.first) ==>
      && x in Nodes(t.first) && x != Top(t.first)
      && Parent(t, x) == Parent(t.first, x) && Sibling(t, x) == Sibling(t.first, x)
    ensures t.first != Leaf(x) && t.second != Leaf(x) && x !in LeafSet(t.first) ==>
      && x in LeafSet(t.second) && x in Nodes(t.second) && x != Top(t.second)
      && Parent(t, x) == Parent(t.second, x) && Sibling(t, x) == Sibling(t.second, x)
  {
    LeafSetNode(t);
    LeavesIn(t.first);
    LeavesIn(t.second);
    TopIn(t.first);
    TopIn(t.second);
    ParentIs(t, x);
    if x in LeafSet(t.first) {
      TopLeaf(t.first, x);
      ParentIs(t.first, x);
    } else {
      TopLeaf(t.second, x);
      ParentIs(t.second, x);
    }
  }

  /** A leaf at the top is the whole tree. */
  lemma TopLeaf<N>(t: Tree<N>, x: N)
    requires WellFormed(t) && x in LeafSet(t)
    ensures x == Top(t) <==> t == Leaf(x)
  {
    if t.Node? {
      LeafSetNode(t);
      LeavesIn(t.first);
      LeavesIn(t.second);
    }
  }

  lemma {:induction false} RemoveNodes<N>(t: Tree<N>, x: N)
    requires WellFormed(t) && t.Node? && x in LeafSet(t)
    ensures x in Nodes(t) && x != Top(t) && Parent(t, x).Some?
    ensures var t' := RemoveLeaf(t, x);
      var p := Parent(t, x).value;
      && WellFormed(t') && Nodes(t') == Nodes(t) - {x, p} && LeafSet(t') == LeafSet(t) - {x}
      && Top(t') == (if p == Top(t) then Sibling(t, x) else Top(t))
    decreases t
  {
    hide LeafSet, Sibling;
    var t' := RemoveLeaf(t, x);
    RemoveCases(t, x);
    LeafSetNode(t);
    LeafSetLeaf(x);
    LeavesIn(t.first);
    LeavesIn(t.second);
    TopIn(t.first);
    TopIn(t.second);
    if t.first == Leaf(x) || t.second == Leaf(x) {
    } else if x in LeafSet(t.first) {
      LeafAlone(t.first, x);
      RemoveNodes(t.first, x);
      ParentIs(t.first, x);
      LeafSetNode(t');
    } else {
      LeafAlone(t.second, x);
      RemoveNodes(t.second, x);
      ParentIs(t.second, x);
      LeafSetNode(t');
    }
  }

  /** The pointers after a removal: the sibling hangs from where the collapsed
      parent did, whose pointer to that parent now points to the sibling; nothing
      else changes, the sibling's own subtree least of all. */
  ghost predicate PointersRemoved<N>(t: Tree<N>, t': Tree<N>, p: N, s: N, y: N) {
    && Parent(t', y) == (if y == s then Parent(t, p) else Parent(t, y))
    && Kids(t', y) == (match Kids(t, y)
                       case None => None
                       case Some(k) => Some(k.(first := Swap(k.first, p, s), second := Swap(k.second, p, s))))
  }

  lemma {:induction false} RemovePointers<N>(t: Tree<N>, x: N, y: N)
    requires WellFormed(t) && t.Node? && x in LeafSet(t)
    requires x in Nodes(t) && x != Top(t) && Parent(t, x).Some?
    requires y in Nodes(t) && y != x && y != Parent(t, x).value
    ensures PointersRemoved(t, RemoveLeaf(t, x), Parent(t, x).value, Sibling(t, x), y)
    decreases t, 1
  {
    hide LeafSet, Sibling;
    RemoveCases(t, x);
    LeafSetNode(t);
    LeavesIn(t.first);
    LeavesIn(t.second);
    if t.first == Leaf(x) {
      RemovedChild(t, t.second, y);
    } else if t.second == Leaf(x) {
      RemovedChild(t, t.first, y);
    } else if x in LeafSet(t.first) {
      RemovePointersFirst(t, x, y);
    } else {
      RemovePointersSecond(t, x, y);
    }
  }

  lemma {:induction false} RemovePointersFirst<N>(t: Tree<N>, x: N, y: N)
    requires WellFormed(t) && t.Node? && x in LeafSet(t)
    requires x in Nodes(t) && x != Top(t) && Parent(t, x).Some?
    requires y in Nodes(t) && y != x && y != Parent(t, x).value
    requires t.first != Leaf(x) && t.second != Leaf(x) && x in LeafSet(t.first)
    ensures PointersRemoved(t, RemoveLeaf(t, x), Parent(t, x).value, Sibling(t, x), y)
    decreases t, 0
  {
    hide LeafSet, Sibling;
    RemoveCases(t, x);
    TopIn(t.first);
    TopIn(t.second);
    LeafAlone(t.first, x);
    RemoveNodes(t.first, x);
    KidsStayIn(t.second, y);
    SiblingIn(t.first, x);
    if y in Nodes(t.first) {
      RemovePointers(t.first, x, y);
    }
  }

  lemma {:induction false} RemovePointersSecond<N>(t: Tree<N>, x: N, y: N)
    requires WellFormed(t) && t.Node? && x in LeafSet(t)
    requires x in Nodes(t) && x != Top(t) && Parent(t, x).Some?
    requires y in Nodes(t) && y != x && y != Parent(t, x).value
    requires t.first != Leaf(x) && t.second != Leaf(x) && x !in LeafSet(t.first)
    ensures PointersRemoved(t, RemoveLeaf(t, x), Parent(t, x).value, Sibling(t, x), y)
    decreases t, 0
  {
    hide LeafSet, Sibling;
    RemoveCases(t, x);
    TopIn(t.first);
    TopIn(t.second);
    LeafAlone(t.second, x);
    RemoveNodes(t.second, x);
    KidsStayIn(t.first, y);
    SiblingIn(t.second, x);
    if y in Nodes(t.second) {
      RemovePointers(t.second, x, y);
    }
  }

  lemma RemovedChild<N>(t: Tree<N>, keep: Tree<N>, y: N)
    requires WellFormed(t) && t.Node? && (keep == t.first || keep == t.second) && y in Nodes(keep)
    ensures Parent(keep, y) == if y == Top(keep) then None else Parent(t, y)
    ensures Parent(t, t.node) == None
    ensures Kids(keep, y) == Kids(t, y)
    ensures Kids(keep, y).Some? ==> Kids(keep, y).value.first != t.node && Kids(keep, y).value.second != t.node
  {
    ParentIs(keep, y);
    ParentIs(t, t.node);
    KidsStayIn(keep, y);
  }

  /** The sibling hangs from the same parent, and is neither of the two removed. */
  lemma SiblingIn<N>(t: Tree<N>, x: N)
    requires WellFormed(t) && x in Nodes(t) && x != Top(t)
    ensures Parent(t, x).Some? && Parent(t, x).value in Nodes(t)
    ensures Sibling(t, x) in Nodes(t) && Sibling(t, x) != x && Sibling(t, x) != Parent(t, x).value
    ensures Parent(t, Sibling(t, x)) == Parent(t, x)
  {
    ParentIs(t, x);
    KidsAre(t, Parent(t, x).value);
    ParentIs(t, Sibling(t, x));
  }

  // ── hide, then show ──────────────────────────────────────────────────────

  /** The same layout, whatever nodes its splits are made of. */
  ghost predicate SameShape<N>(a: Tree<N>, b: Tree<N>) {
    match (a, b)
    case (Leaf(p), Leaf(q)) => p == q
    case (Node(_, st, ratio, x, y), Node(_, st', ratio', x', y')) =>
      st == st' && ratio == ratio' && SameShape(x, x') && SameShape(y, y')
    case _ => false
  }

  lemma {:induction false} SameShapeSelf<N>(t: Tree<N>)
    ensures SameShape(t, t)
  {
    if t.Node? {
      SameShapeSelf(t.first);
      SameShapeSelf(t.second);
    }
  }

  /** Splitting the sibling again, on the side and with the split and ratio the
      removal found, gives the layout back: the same leaves in the same places, only
      the split node is a new one. */
  lemma {:induction false} ShowUndoesHide<N>(t: Tree<N>, x: N, par: N)
    requires WellFormed(t) && t.Node? && x in LeafSet(t)
    requires x in Nodes(t) && x != Top(t) && Parent(t, x).Some?
    ensures var s := Sibling(t, x);
      var p := Parent(t, x).value;
      && p in Nodes(t) && Kids(t, p).Some?
      && s in Nodes(RemoveLeaf(t, x))
      && var k := Kids(t, p).value;
         SameShape(SplitAt(RemoveLeaf(t, x), s, par, k.st, k.ratio, x, k.first == x), t)
    decreases t
  {
    hide LeafSet, Sibling;
    RemoveCases(t, x);
    RemoveNodes(t, x);
    SiblingIn(t, x);
    ParentIs(t, x);
    LeafSetNode(t);
    TopIn(t.first);
    TopIn(t.second);
    SameShapeSelf(t.first);
    SameShapeSelf(t.second);
    if t.first == Leaf(x) || t.second == Leaf(x) {
    } else if x in LeafSet(t.first) {
      LeafAlone(t.first, x);
      RemoveNodes(t.first, x);
      SiblingIn(t.first, x);
      ShowUndoesHide(t.first, x, par);
    } else {
      LeafAlone(t.second, x);
      RemoveNodes(t.second, x);
      SiblingIn(t.second, x);
      ShowUndoesHide(t.second, x, par);
    }
  }

  /** And a pane that is opened and closed again leaves the very same tree. */
  lemma {:induction false} CloseUndoesOpen<N>(t: Tree<N>, x: N, par: N, st: SplitType, ratio: real, np: N,
                                              npFirst: bool)
    requires WellFormed(t) && x in Nodes(t) && GoodSplit(st, ratio)
    requires par !in Nodes(t) && np !in Nodes(t) && par != np
    ensures var t' := SplitAt(t, x, par, st, ratio, np, npFirst);
      && WellFormed(t') && t'.Node? && np in LeafSet(t')
      && RemoveLeaf(t', np) == t
    decreases t
  {
    hide LeafSet;
    SplitAtNodes(t, x, par, st, ratio, np, npFirst);
    TopIn(t);
    if x != Top(t) {
      LeafSetNode(t);
      LeavesIn(t.first);
      LeavesIn(t.second);
      TopIn(t.first);
      TopIn(t.second);
      if x in Nodes(t.first) {
        SplitAtNodes(t.first, x, par, st, ratio, np, npFirst);
        CloseUndoesOpen(t.first, x, par, st, ratio, np, npFirst);
      } else {
        SplitAtNodes(t.second, x, par, st, ratio, np, npFirst);
        CloseUndoesOpen(t.second, x, par, st, ratio, np, npFirst);
      }
    }
  }

  // ── the order of the panes ───────────────────────────────────────────────

  ghost function Minus<N>(s: seq<N>, x: N): seq<N> {
    if s == [] then [] else if s[0] == x then Minus(s[1..], x) else [s[0]] + Minus(s[1..], x)
  }

  lemma {:induction false} MinusConcat<N>(s: seq<N>, t: seq<N>, x: N)
    ensures Minus(s + t, x) == Minus(s, x) + Minus(t, x)
  {
    if s == [] {
      assert s + t == t;
    } else {
      assert (s + t)[0] == s[0] && (s + t)[1..] == s[1..] + t;
      MinusConcat(s[1..], t, x);
    }
  }

  lemma {:induction false} MinusNothing<N>(s: seq<N>, x: N)
    requires x !in s
    ensures Minus(s, x) == s
  {
    if s != [] {
      MinusNothing(s[1..], x);
    }
  }

  /** Taking a pane out leaves the others in their order. */
  lemma {:induction false} RemoveKeepsOrder<N>(t: Tree<N>, x: N)
    requires WellFormed(t) && t.Node? && x in LeafSet(t)
    ensures Leaves(RemoveLeaf(t, x)) == Minus(Leaves(t), x)
    decreases t
  {
    RemoveCases(t, x);
    LeavesIn(t.first);
    LeavesIn(t.second);
    LeafSetNode(t);
    MinusConcat(Leaves(t.first), Leaves(t.second), x);
    if x in LeafSet(t.first) {
      assert x !in LeafSet(t.second);
      MinusNothing(Leaves(t.second), x);
      if t.first == Leaf(x) {
        assert Leaves(t.first) == [x] && Minus([x], x) == [];
      } else {
        LeafAlone(t.first, x);
        RemoveKeepsOrder(t.first, x);
      }
    } else {
      MinusNothing(Leaves(t.first), x);
      if t.second == Leaf(x) {
        assert Leaves(t.second) == [x] && Minus([x], x) == [];
      } else {
        LeafAlone(t.second, x);
        RemoveKeepsOrder(t.second, x);
      }
    }
  }

  /** s' is s with these two in place of x. */
  ghost predicate Exchanged<N>(s: seq<N>, s': seq<N>, x: N, two: seq<N>) {
    exists i :: 0 <= i < |s| && ExchangedAt(s, s', x, two, i)
  }

  ghost predicate ExchangedAt<N>(s: seq<N>, s': seq<N>, x: N, two: seq<N>, i: nat)
    requires i < |s|
  {
    s[i] == x && s' == s[..i] + two + s[i + 1..]
  }

  lemma ExchangedWithin<N>(u: seq<N>, s: seq<N>, s': seq<N>, v: seq<N>, x: N, two: seq<N>)
    requires Exchanged(s, s', x, two)
    ensures Exchanged(u + s + v, u + s' + v, x, two)
  {
    var i :| 0 <= i < |s| && ExchangedAt(s, s', x, two, i);
    var all := u + s + v;
    assert all[..|u| + i] == u + s[..i] && all[|u| + i + 1..] == s[i + 1..] + v;
    assert u + s' + v == all[..|u| + i] + two + all[|u| + i + 1..];
    assert ExchangedAt(all, u + s' + v, x, two, |u| + i);
  }

  /** A pane opened stands right behind the leaf it splits, or right in front. */
  lemma {:induction false} SplitStandsBeside<N>(t: Tree<N>, x: N, par: N, st: SplitType, ratio: real, np: N,
                                                npFirst: bool)
    requires WellFormed(t) && x in LeafSet(t) && x in Nodes(t)
    ensures Exchanged(Leaves(t), Leaves(SplitAt(t, x, par, st, ratio, np, npFirst)), x,
      if npFirst then [np, x] else [x, np])
    decreases t
  {
    hide Exchanged, LeafSet, WellFormed;
    WellFormedHalves(t);
    var two := if npFirst then [np, x] else [x, np];
    var t' := SplitAt(t, x, par, st, ratio, np, npFirst);
    TopLeaf(t, x);
    if x == Top(t) {
      OneExchanged(x, two);
      assert Leaves(t) == [x] && Leaves(t') == two;
    } else {
      LeafSetNode(t);
      LeavesIn(t.first);
      LeavesIn(t.second);
      var l, r := Leaves(t.first), Leaves(t.second);
      if x in Nodes(t.first) {
        SplitStandsBeside(t.first, x, par, st, ratio, np, npFirst);
        ExchangedWithin([], l, Leaves(t'.first), r, x, two);
        assert [] + l + r == l + r && [] + Leaves(t'.first) + r == Leaves(t'.first) + r;
      } else {
        SplitStandsBeside(t.second, x, par, st, ratio, np, npFirst);
        ExchangedWithin(l, r, Leaves(t'.second), [], x, two);
        assert l + r + [] == l + r && l + Leaves(t'.second) + [] == l + Leaves(t'.second);
      }
    }
  }

  lemma WellFormedHalves<N>(t: Tree<N>)
    requires WellFormed(t)
    ensures t.Node? ==> WellFormed(t.first) && WellFormed(t.second) && Nodes(t.first) !! Nodes(t.second)
  {}

  lemma OneExchanged<N>(x: N, two: seq<N>)
    ensures Exchanged([x], two, x, two)
  {
    assert [x][..0] + two + [x][1..] == two;
    assert ExchangedAt([x], two, x, two, 0);
  }
}
