/**
Boxes of cells, and the split of one in two (mux/pane.go:667-696, mux/chrome.go:272-285).
Ratios are reals: rounding is left out.
*/
module Boxes {
  import opened LayoutTree

  const MIN_PANE_ROWS := 3
  const MIN_PANE_COLS := 20

  /** Rows y to y + h - 1 of the columns x to x + w - 1. */
  datatype Box = Box(y: int, x: int, h: int, w: int)

  /** Conversion of a float to an int, which drops the fraction. */
  function Trunc(r: real): int {
    if r >= 0.0 then r.Floor else -((-r).Floor)
  }

  /** The first child's part of a length. */
  function Part(n: int, ratio: real): int {
    Trunc(n as real * ratio)
  }

  lemma PartWithin(n: int, ratio: real)
    requires 0.0 < ratio < 1.0
    ensures if n >= 0 then 0 <= Part(n, ratio) <= n else Part(n, ratio) <= 0
  {
    if n >= 0 {
      assert 0.0 <= n as real * ratio <= n as real;
    } else {
      assert n as real * ratio < 0.0;
    }
  }

  function Max(a: int, b: int): int {
    if a > b then a else b
  }

  function Clamp(v: int, lo: int, hi: int): int {
    if v < lo then lo else if v > hi then hi else v
  }

  /** The boxes of a split's two children; one row or column between them is the
      border. */
  function SplitBoxes(st: SplitType, ratio: real, b: Box): (Box, Box) {
    match st
    case SplitNone => (b, Box(0, 0, 0, 0))
    case SplitHorizontal =>
      var w1 := Clamp(Part(b.w, ratio), 0, Max(0, b.w - 1));
      (Box(b.y, b.x, Max(0, b.h), w1), Box(b.y, b.x + w1 + 1, Max(0, b.h), Max(0, b.w - w1 - 1)))
    case SplitVertical =>
      var h1 := Clamp(Part(b.h, ratio), 0, Max(0, b.h - 1));
      (Box(b.y, b.x, h1, Max(0, b.w)), Box(b.y + h1 + 1, b.x, Max(0, b.h - h1 - 1), Max(0, b.w)))
  }

  /** Whether splitting a box leaves both halves usable. */
  predicate SplitFits(b: Box, st: SplitType, ratio: real) {
    if st == SplitHorizontal then
      var w1 := Part(b.w, ratio);
      w1 >= MIN_PANE_COLS && b.w - w1 - 1 >= MIN_PANE_COLS && b.h >= MIN_PANE_ROWS
    else
      var h1 := Part(b.h, ratio);
      h1 >= MIN_PANE_ROWS && b.h - h1 - 1 >= MIN_PANE_ROWS && b.w >= MIN_PANE_COLS
  }

  predicate Usable(b: Box) {
    b.h >= MIN_PANE_ROWS && b.w >= MIN_PANE_COLS
  }

  predicate Inside(b: Box, r: int, c: int) {
    b.y <= r < b.y + b.h && b.x <= c < b.x + b.w
  }

  lemma FitsUsable(b: Box, st: SplitType, ratio: real)
    requires st != SplitNone
    ensures SplitFits(b, st, ratio) ==> var (b1, b2) := SplitBoxes(st, ratio, b); Usable(b1) && Usable(b2)
  {
    hide Part;
  }

  /** A split fits exactly when the reflow it leads to leaves two usable boxes; they
      and the border between them are then the box, cell for cell. */
  lemma FitsMeansUsable(b: Box, st: SplitType, ratio: real)
    requires st != SplitNone && 0.0 < ratio < 1.0
    ensures var (b1, b2) := SplitBoxes(st, ratio, b);
      && (SplitFits(b, st, ratio) <==> Usable(b1) && Usable(b2))
      && (SplitFits(b, st, ratio) ==> forall r, c ::
            && !(Inside(b1, r, c) && Inside(b2, r, c))
            && ((Inside(b1, r, c) || Inside(b2, r, c)) ==> Inside(b, r, c))
            && (Inside(b, r, c) && !Inside(b1, r, c) && !Inside(b2, r, c) ==>
                  if st == SplitHorizontal then c == b1.x + b1.w else r == b1.y + b1.h))
  {
    hide Part;
    PartWithin(b.w, ratio);
    PartWithin(b.h, ratio);
  }

  /** What fits once need not fit twice: of an 80 by 24 box split side by side, and its
      first half again, the last half is a column short. */
  lemma FitsOnceNotTwice()
    ensures var b := Box(0, 0, 24, 80);
      var (b1, b2) := SplitBoxes(SplitHorizontal, 0.5, b);
      && SplitFits(b, SplitHorizontal, 0.5) && b1.w == 40 && b2.w == 39
      && !SplitFits(b1, SplitHorizontal, 0.5)
      && SplitBoxes(SplitHorizontal, 0.5, b1).0.w == 20 && SplitBoxes(SplitHorizontal, 0.5, b1).1.w == 19
  {
    assert Part(80, 0.5) == 40 && Part(40, 0.5) == 20;
  }

  /** Whatever is left of the terminal, a split hands out no negative length. Across it, the
      first half has its part of the length, rounded down, and the second what that and
      the border leave; along it, both have all there is. */
  lemma SplitMeans(b: Box, st: SplitType, ratio: real)
    requires st != SplitNone && 0.0 < ratio < 1.0
    ensures var (b1, b2) := SplitBoxes(st, ratio, b);
      && b1.h >= 0 && b1.w >= 0 && b2.h >= 0 && b2.w >= 0 && b1.y == b.y && b1.x == b.x
      && if st == SplitHorizontal then
           && (b.w >= 1 ==> b1.w as real <= b.w as real * ratio < (b1.w + 1) as real && b1.w + 1 + b2.w == b.w)
           && (b.w <= 0 ==> b1.w == 0 && b2.w == 0)
           && b2.x == b.x + b1.w + 1 && b2.y == b.y && b1.h == b2.h == (if b.h >= 0 then b.h else 0)
         else
           && (b.h >= 1 ==> b1.h as real <= b.h as real * ratio < (b1.h + 1) as real && b1.h + 1 + b2.h == b.h)
           && (b.h <= 0 ==> b1.h == 0 && b2.h == 0)
           && b2.y == b.y + b1.h + 1 && b2.x == b.x && b1.w == b2.w == (if b.w >= 0 then b.w else 0)
  {
    hide Part;
    PartWithin(b.w, ratio);
    PartWithin(b.h, ratio);
    PartIsFloor(b.w, ratio);
    PartIsFloor(b.h, ratio);
  }

  lemma PartIsFloor(n: int, ratio: real)
    requires 0.0 < ratio < 1.0
    ensures n >= 1 ==> Part(n, ratio) as real <= n as real * ratio < (Part(n, ratio) + 1) as real && Part(n, ratio) < n
  {
    if n >= 1 {
      assert 0.0 < n as real * ratio < n as real;
    }
  }
}
