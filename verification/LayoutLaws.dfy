/**
What the choices of `Layout` are, said of the panes themselves (mux/dynpanes.go:59-112,
324-417, mux/chrome.go:100-121): which pane takes the focus, which one is split and how,
what the layout is given of the screen.
*/
module LayoutLaws {
  import opened LayoutTree
  import opened Boxes
  import opened Layout

  /** Focus goes to the first session there is, past any panels; to the first pane only where
      all are panels; and nowhere only where there is none. */
  lemma FocusMeans(ps: seq<Pane>, p: Pane?)
    ensures IsFocusChoice(ps, p) <==>
      if ps == [] then p == null
      else exists i ::
        && 0 <= i < |ps| && p == ps[i] && (forall j :: 0 <= j < i ==> ps[j].isControl)
        && (ps[i].isControl ==> i == 0 && forall j :: 0 <= j < |ps| ==> ps[j].isControl)
  {
    if ps != [] && p != null {
      assert AllControl(ps) <==> forall j :: 0 <= j < |ps| ==> ps[j].isControl;
      if FirstSessionIs(ps, p) {
        var i :| 0 <= i < |ps| && p == ps[i] && forall j :: 0 <= j < i ==> ps[j].isControl;
        assert !ps[i].isControl;
      } else if AllControl(ps) && p == ps[0] {
        assert ps[0].isControl;
      }
    }
  }

  /** A pane that can be split: it is on the screen, and no split itself. */
  predicate IsWhole(p: Pane)
    reads p
  {
    !p.closed && !p.hidden && p.splitType == SplitNone
  }

  /** Of two panes, q would be taken rather than p: a session rather than a panel, a larger
      one rather than a smaller. */
  predicate IsBetter(q: Pane, p: Pane)
    reads q, p
  {
    (!q.isControl && p.isControl) || (q.isControl == p.isControl && q.box.h * q.box.w > p.box.h * p.box.w)
  }

  /** The largest is a pane of the table that can be split, with no better one anywhere, and
      the first of its kind and size; there is none only if none could be split. */
  lemma LargestIsBest(m: Magmux)
    ensures var best := m.LargestLive();
      && (forall i :: 0 <= i < |m.allPanes| && IsWhole(m.allPanes[i]) && Area(m.allPanes[i]) >= 0 ==>
            best != null && !IsBetter(m.allPanes[i], best))
      && (best != null ==> exists k ::
            && 0 <= k < |m.allPanes| && m.allPanes[k] == best && IsWhole(best)
            && forall j :: 0 <= j < k && IsWhole(m.allPanes[j]) && m.allPanes[j].isControl == best.isControl ==>
                 Area(m.allPanes[j]) < Area(best))
  {
    LargestMeans(m.allPanes, false);
    LargestMeans(m.allPanes, true);
    var best := m.LargestLive();
    if best != null {
      var control := LargestOf(m.allPanes, false) == null;
      var k: nat :| IsLargest(m.allPanes, control, best, k);
      assert 0 <= k < |m.allPanes| && m.allPanes[k] == best;
      forall i | 0 <= i < |m.allPanes| && IsWhole(m.allPanes[i]) && Area(m.allPanes[i]) >= 0
        ensures !IsBetter(m.allPanes[i], best)
      {
        assert m.allPanes[i] in m.allPanes;
      }
    } else {
      forall i | 0 <= i < |m.allPanes| && IsWhole(m.allPanes[i]) ensures Area(m.allPanes[i]) < 0 {
        assert m.allPanes[i] in m.allPanes;
      }
    }
  }

  /** How a pane is split: as asked, or else across its longer side, a column counting half;
      and in the proportion asked for, or else in the middle. */
  lemma SplitChoiceMeans(split: SplitType, b: Box, ratio: real)
    ensures split in {SplitHorizontal, SplitVertical} ==> Axis(split, b) == split
    ensures split == SplitNone ==>
      Axis(split, b) != SplitNone && (Axis(split, b) == SplitHorizontal <==> b.w >= 2 * b.h)
    ensures RatioOr(ratio) == if 0.0 < ratio < 1.0 then ratio else 0.5
    ensures SplitOr(split) == if split == SplitVertical then SplitVertical else SplitHorizontal
  {}

  /** The layout has the screen but for the status line, and no less than nothing. */
  lemma ScreenMeans(m: Magmux)
    ensures var b := m.Screen();
      && b.y == 0 && b.x == 0 && b.h >= 0 && b.w >= 0
      && (m.cols >= 0 ==> b.w == m.cols) && (m.cols < 0 ==> b.w == 0)
      && (m.hideStatus ==> b.h == Max(0, m.rows))
      && (!m.hideStatus && m.rows >= 1 ==> b.h == m.rows - 1)
      && (!m.hideStatus && m.rows < 1 ==> b.h == 0)
  {}

  /** What a target stands for: a number from 0 on, the pane of the table with it, if that is
      still on the screen; -1, the pane with the focus, unless that is a panel; and
      otherwise the largest pane. */
  lemma TargetMeans(m: Magmux, target: int)
    requires m.Valid()
    ensures target >= 0 ==>
      (m.TargetOf(target) != null <==>
         target < |m.allPanes| && !m.allPanes[target].closed && !m.allPanes[target].hidden)
    ensures target >= 0 && m.TargetOf(target) != null ==> m.TargetOf(target) == m.allPanes[target]
    ensures target == -1 && m.focused != null && !m.focused.isControl ==> m.TargetOf(target) == m.focused
    ensures target == -1 && (m.focused == null || m.focused.isControl) ==> m.TargetOf(target) == m.LargestLive()
    ensures target <= -2 ==> m.TargetOf(target) == m.LargestLive()
  {}

  /** There is no more to show once every pane is closed, or every session is and there was
      one; a panel alone keeps magmux open only where there never was a session. */
  lemma NothingLeftMeans(m: Magmux)
    ensures m.NothingLeft() <==>
      if exists i :: 0 <= i < |m.allPanes| && !m.allPanes[i].isControl
      then forall i :: 0 <= i < |m.allPanes| && !m.allPanes[i].isControl ==> m.allPanes[i].closed
      else forall i :: 0 <= i < |m.allPanes| ==> m.allPanes[i].closed
  {
    assert forall i :: 0 <= i < |m.allPanes| ==> m.allPanes[i] in m.allPanes;
  }

  /** The panel comes back beside what it stood beside, if that is still in the layout, and
      else beside everything. */
  lemma BesideMeans(m: Magmux)
    ensures m.panelAnchor != null && m.panelAnchor in m.TreeNodes() ==> m.Beside() == m.panelAnchor
    ensures m.panelAnchor == null || m.panelAnchor !in m.TreeNodes() ==> m.Beside() == m.root
  {}
}
