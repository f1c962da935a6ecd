/**
The static grid, on values (mux/grid.go:171-324): the layout `buildColumn` and
`buildGrid` compute, when there is one, and what it covers.

A command is its position among those to lay out; the panes it stands for are made
in `GridBuild`.
*/
module Grid {
  import opened Wrappers
  import opened LayoutTree
  import opened Boxes

  datatype Plan =
    | Cell(cmd: nat, box: Box)
    | Halves(st: SplitType, box: Box, first: Plan, second: Plan)

  /** Go's division of a possibly negative dividend. */
  function Quo(a: int, b: int): int
    requires b > 0
  {
    if a >= 0 then a / b else -(-a / b)
  }

  /** The commands from, from + 1, ..., from + k - 1 in one column; None is a box too
      small. */
  function Column(from: nat, k: nat, b: Box): Option<Plan>
    requires k > 0
    decreases k
  {
    if k == 1 then
      if Usable(b) then Some(Cell(from, b)) else None
    else
      var topN := (k + 1) / 2;
      var topH := Quo(b.h * topN, k);
      var botH := b.h - topH - 1;
      if topH < MIN_PANE_ROWS || botH < MIN_PANE_ROWS then None
      else
        var top := Column(from, topN, b.(h := topH));
        var bottom := Column(from + topN, k - topN, Box(b.y + topH + 1, b.x, botH, b.w));
        if top.None? || bottom.None? then None
        else Some(Halves(SplitVertical, b, top.value, bottom.value))
  }

  lemma ColumnStep(from: nat, k: nat, b: Box)
    requires k > 0
    ensures k == 1 ==> Column(from, k, b) == if Usable(b) then Some(Cell(from, b)) else None
    ensures k > 1 ==>
      var topN := (k + 1) / 2;
      var topH := Quo(b.h * topN, k);
      var botH := b.h - topH - 1;
      var top := Column(from, topN, b.(h := topH));
      var bottom := Column(from + topN, k - topN, Box(b.y + topH + 1, b.x, botH, b.w));
      Column(from, k, b) ==
        if topH < MIN_PANE_ROWS || botH < MIN_PANE_ROWS || top.None? || bottom.None? then None
        else Some(Halves(SplitVertical, b, top.value, bottom.value))
  {}

  /** n commands on a screen: one pane, or two columns of ceil(n/2) and the rest. */
  function Screen(n: nat, h: int, w: int): Option<Plan> {
    if n == 0 then None
    else if n == 1 then
      if h < MIN_PANE_ROWS || w < MIN_PANE_COLS then None else Some(Cell(0, Box(0, 0, h, w)))
    else
      var leftN := (n + 1) / 2;
      var leftW := Quo(w, 2);
      var rightW := w - leftW - 1;
      if leftW < MIN_PANE_COLS || rightW < MIN_PANE_COLS then None
      else
        var left := Column(0, leftN, Box(0, 0, h, leftW));
        var right := Column(leftN, n - leftN, Box(0, leftW + 1, h, rightW));
        if left.None? || right.None? then None
        else Some(Halves(SplitHorizontal, Box(0, 0, h, w), left.value, right.value))
  }

  // ── feasibility ──────────────────────────────────────────────────────────

  lemma ProductMonotone(a: int, b: int, k: nat)
    ensures a <= b ==> a * k <= b * k
  {}

  lemma QuotientAtLeast(x: int, q: int, k: nat)
    requires k > 0 && x >= q * k
    ensures x / k >= q
  {
    ProductMonotone(x / k, q - 1, k);
    assert (q - 1) * k == q * k - k;
  }

  lemma QuotientBelow(x: int, q: int, k: nat)
    requires k > 0 && x < q * k
    ensures x / k < q
  {
    ProductMonotone(q, x / k, k);
  }

  /** The proportional cut of at least 4k - 1 rows leaves each half its share, a panes
      of k in the one and k - a in the other. */
  lemma Shares(h: int, a: nat, k: nat)
    requires 0 < a < k && h >= 4 * k - 1
    ensures Quo(h * a, k) >= 4 * a - 1
    ensures h - Quo(h * a, k) - 1 >= 4 * (k - a) - 1
  {
    ShareTop(h, a, k);
    ShareBottom(h, a, k);
    ProductAtLeast(h, a, k);
  }

  lemma ShareTop(h: int, a: nat, k: nat)
    requires 0 < a < k && h >= 4 * k - 1
    ensures h * a / k >= 4 * a - 1
  {
    ProductAtLeast(h, a, k);
    assert (4 * a - 1) * k == 4 * (a * k) - k;
    QuotientAtLeast(h * a, 4 * a - 1, k);
  }

  lemma ShareBottom(h: int, a: nat, k: nat)
    requires 0 < a < k && h >= 4 * k - 1
    ensures h * a / k <= h - 4 * (k - a)
  {
    var c := k - a;
    ProductAtLeast(h, c, k);
    assert (h - 4 * c + 1) * k == h * k - 4 * (c * k) + k;
    assert h * a == h * k - h * c;
    QuotientBelow(h * a, h - 4 * c + 1, k);
  }

  lemma ProductAtLeast(h: int, a: nat, k: nat)
    requires a < k && h >= 4 * k - 1
    ensures h * a >= 0 && h * a > 4 * (a * k) - k
  {
    ProductMonotone(4 * k - 1, h, a);
    assert (4 * k - 1) * a == 4 * (a * k) - a;
  }

  /** A column of k panes fits exactly when there are four rows for each but the last
      border, and twenty columns. */
  lemma {:induction false} ColumnFits(from: nat, k: nat, b: Box)
    requires k > 0
    ensures Column(from, k, b).Some? <==> b.h >= 4 * k - 1 && b.w >= MIN_PANE_COLS
    decreases k
  {
    hide Quo;
    if k > 1 {
      var topN := (k + 1) / 2;
      var topH := Quo(b.h * topN, k);
      ColumnFits(from, topN, b.(h := topH));
      ColumnFits(from + topN, k - topN, Box(b.y + topH + 1, b.x, b.h - topH - 1, b.w));
      if b.h >= 4 * k - 1 {
        Shares(b.h, topN, k);
      }
    }
  }

  /** README's numbers: two columns of twenty and a border, and the taller column. */
  lemma ScreenFits(n: nat, h: int, w: int)
    ensures n == 0 ==> Screen(n, h, w).None?
    ensures n == 1 ==> (Screen(n, h, w).Some? <==> h >= 3 && w >= 20)
    ensures n >= 2 ==> (Screen(n, h, w).Some? <==> h >= 4 * ((n + 1) / 2) - 1 && w >= 41)
  {
    if n >= 2 {
      var leftN, leftW := (n + 1) / 2, Quo(w, 2);
      ColumnFits(0, leftN, Box(0, 0, h, leftW));
      ColumnFits(leftN, n - leftN, Box(0, leftW + 1, h, w - leftW - 1));
    }
  }

  // ── refusals ─────────────────────────────────────────────────────────────

  /** How many panes buildColumn has started when it returns: it refuses a split whose
      halves are too small before it builds either, and a top that fails before it
      builds the bottom. */
  function Started(k: nat, b: Box): nat
    requires k > 0
    decreases k
  {
    if k == 1 then
      if Usable(b) then 1 else 0
    else
      var topN := (k + 1) / 2;
      var topH := Quo(b.h * topN, k);
      var botH := b.h - topH - 1;
      if topH < MIN_PANE_ROWS || botH < MIN_PANE_ROWS then 0
      else
        Started(topN, b.(h := topH)) +
        if Column(0, topN, b.(h := topH)).None? then 0 else Started(k - topN, Box(b.y + topH + 1, b.x, botH, b.w))
  }

  lemma StartedStep(from: nat, k: nat, b: Box)
    requires k > 0
    ensures k == 1 ==> Started(k, b) == if Usable(b) then 1 else 0
    ensures k > 1 ==>
      var topN := (k + 1) / 2;
      var topH := Quo(b.h * topN, k);
      var botH := b.h - topH - 1;
      Started(k, b) ==
        if topH < MIN_PANE_ROWS || botH < MIN_PANE_ROWS then 0
        else
          Started(topN, b.(h := topH)) +
          if Column(from, topN, b.(h := topH)).None? then 0
          else Started(k - topN, Box(b.y + topH + 1, b.x, botH, b.w))
  {
    hide Quo, Usable;
    if k > 1 {
      var topN := (k + 1) / 2;
      var top := b.(h := Quo(b.h * topN, k));
      ColumnFits(from, topN, top);
      ColumnFits(0, topN, top);
    }
  }

  /** The first command's pane is reached: all the splits above it are wide and tall enough. */
  predicate FirstReached(k: nat, b: Box)
    requires k > 0
    decreases k
  {
    if k == 1 then Usable(b)
    else
      var topN := (k + 1) / 2;
      var topH := Quo(b.h * topN, k);
      topH >= MIN_PANE_ROWS && b.h - topH - 1 >= MIN_PANE_ROWS && FirstReached(topN, b.(h := topH))
  }

  /** A column starts all its panes exactly when there is one, and none exactly when a split
      on the way to its first pane is too small. */
  lemma {:induction false} ColumnStarts(from: nat, k: nat, b: Box)
    requires k > 0
    ensures Started(k, b) <= k
    ensures Started(k, b) == k <==> Column(from, k, b).Some?
    ensures Started(k, b) > 0 <==> FirstReached(k, b)
    decreases k
  {
    hide Quo, Column, Usable, Started;
    ColumnStep(from, k, b);
    StartedStep(from, k, b);
    if k > 1 {
      var topN := (k + 1) / 2;
      var topH := Quo(b.h * topN, k);
      var top := b.(h := topH);
      ColumnStarts(from, topN, top);
      ColumnStarts(from + topN, k - topN, Box(b.y + topH + 1, b.x, b.h - topH - 1, b.w));
    }
  }

  /** And buildGrid; the right column is not begun before the left one is there. */
  function StartedOnScreen(n: nat, h: int, w: int): nat {
    var leftW := Quo(w, 2);
    var rightW := w - leftW - 1;
    if n <= 2 then if Screen(n, h, w).Some? then n else 0
    else if leftW < MIN_PANE_COLS || rightW < MIN_PANE_COLS then 0
    else
      var leftN := (n + 1) / 2;
      Started(leftN, Box(0, 0, h, leftW)) +
      if Column(0, leftN, Box(0, 0, h, leftW)).None? then 0 else Started(n - leftN, Box(0, leftW + 1, h, rightW))
  }

  lemma HalfOf(w: int)
    ensures w >= 0 ==> Quo(w, 2) == w / 2
    ensures w < 0 ==> Quo(w, 2) <= 0
  {}

  /** A refused grid has started panes exactly when the screen is wide enough, too low for
      the left column, and the first pane of that is reached. */
  lemma RefusedStarts(n: nat, h: int, w: int)
    ensures Screen(n, h, w).Some? ==> StartedOnScreen(n, h, w) == n
    ensures Screen(n, h, w).None? ==>
      (StartedOnScreen(n, h, w) > 0 <==>
        && n >= 3 && w >= 41 && h < 4 * ((n + 1) / 2) - 1
        && FirstReached((n + 1) / 2, Box(0, 0, h, w / 2)))
  {
    hide Quo, Column, Started, FirstReached;
    ScreenFits(n, h, w);
    HalfOf(w);
    if n >= 3 {
      var leftN, leftW := (n + 1) / 2, Quo(w, 2);
      var left, right := Box(0, 0, h, leftW), Box(0, leftW + 1, h, w - leftW - 1);
      ColumnFits(0, leftN, left);
      ColumnStarts(0, leftN, left);
      ColumnFits(leftN, n - leftN, right);
      ColumnStarts(leftN, n - leftN, right);
    }
  }

  /** Seven commands on 14 rows: the left column needs 15, and two of its four panes run
      when it is refused. */
  lemma RefusedWithPanes()
    ensures Screen(7, 14, 80).None? && StartedOnScreen(7, 14, 80) == 2
  {
    ScreenFits(7, 14, 80);
    ColumnFits(0, 4, Box(0, 0, 14, 40));
    ColumnFits(0, 2, Box(0, 0, 7, 40));
    assert Started(2, Box(8, 0, 6, 40)) == 0;
    assert Started(4, Box(0, 0, 14, 40)) == 2;
  }

  // ── tiling ───────────────────────────────────────────────────────────────

  function Cells(p: Plan): seq<(nat, Box)> {
    match p
    case Cell(c, b) => [(c, b)]
    case Halves(_, _, a, b) => Cells(a) + Cells(b)
  }

  /** The line of cells between the two halves of b, of which first is one. */
  function Border(st: SplitType, b: Box, first: Box): Box {
    if st == SplitHorizontal then Box(b.y, first.x + first.w, b.h, 1) else Box(first.y + first.h, b.x, 1, b.w)
  }

  function One(inside: bool): nat {
    if inside then 1 else 0
  }

  /** How many panes and borders cover the cell at row r, column c. */
  function Covers(p: Plan, r: int, c: int): nat {
    match p
    case Cell(_, b) => One(Inside(b, r, c))
    case Halves(st, b, first, second) =>
      One(Inside(Border(st, b, first.box), r, c)) + Covers(first, r, c) + Covers(second, r, c)
  }

  /** The panes of a column stand in command order, every one usable, and with their
      borders they cover the box once and nothing outside it. */
  lemma {:induction false} ColumnTiles(from: nat, k: nat, b: Box)
    requires k > 0 && Column(from, k, b).Some?
    ensures var p := Column(from, k, b).value;
      && p.box == b && |Cells(p)| == k
      && (forall i :: 0 <= i < k ==> Cells(p)[i].0 == from + i && Usable(Cells(p)[i].1))
    decreases k
  {
    hide Quo;
    if k > 1 {
      var topN := (k + 1) / 2;
      var topH := Quo(b.h * topN, k);
      ColumnTiles(from, topN, b.(h := topH));
      ColumnTiles(from + topN, k - topN, Box(b.y + topH + 1, b.x, b.h - topH - 1, b.w));
    }
  }

  lemma {:induction false} ColumnCovers(from: nat, k: nat, b: Box, r: int, c: int)
    requires k > 0 && Column(from, k, b).Some?
    ensures Column(from, k, b).value.box == b
    ensures Covers(Column(from, k, b).value, r, c) == One(Inside(b, r, c))
    decreases k
  {
    hide Quo;
    if k > 1 {
      var topN := (k + 1) / 2;
      var topH := Quo(b.h * topN, k);
      ColumnCovers(from, topN, b.(h := topH), r, c);
      ColumnCovers(from + topN, k - topN, Box(b.y + topH + 1, b.x, b.h - topH - 1, b.w), r, c);
    }
  }

  /** The grid: as many panes as commands, in order, each at least 3 by 20; panes and
      borders cover every cell of the screen exactly once. */
  lemma ScreenTiles(n: nat, h: int, w: int)
    requires Screen(n, h, w).Some?
    ensures var p := Screen(n, h, w).value;
      && p.box == Box(0, 0, h, w) && |Cells(p)| == n
      && (forall i :: 0 <= i < n ==> Cells(p)[i].0 == i && Usable(Cells(p)[i].1))
    ensures forall r, c :: Covers(Screen(n, h, w).value, r, c) == One(Inside(Box(0, 0, h, w), r, c))
  {
    var p := Screen(n, h, w).value;
    if n >= 2 {
      var leftN, leftW := (n + 1) / 2, Quo(w, 2);
      var left, right := Box(0, 0, h, leftW), Box(0, leftW + 1, h, w - leftW - 1);
      ColumnTiles(0, leftN, left);
      ColumnTiles(leftN, n - leftN, right);
      forall r, c ensures Covers(p, r, c) == One(Inside(p.box, r, c)) {
        ColumnCovers(0, leftN, left, r, c);
        ColumnCovers(leftN, n - leftN, right, r, c);
      }
    }
  }

  /** No cell belongs to two panes. */
  lemma {:induction false} CoveredApart(p: Plan, i: nat, j: nat, r: int, c: int)
    requires i < j < |Cells(p)|
    requires Inside(Cells(p)[i].1, r, c) && Inside(Cells(p)[j].1, r, c)
    ensures Covers(p, r, c) >= 2
    decreases p
  {
    var n := |Cells(p.first)|;
    if j < n {
      CoveredApart(p.first, i, j, r, c);
    } else if i >= n {
      CoveredApart(p.second, i - n, j - n, r, c);
    } else {
      CoveredOnce(p.first, i, r, c);
      CoveredOnce(p.second, j - n, r, c);
    }
  }

  lemma {:induction false} CoveredOnce(p: Plan, i: nat, r: int, c: int)
    requires i < |Cells(p)| && Inside(Cells(p)[i].1, r, c)
    ensures Covers(p, r, c) >= 1
    decreases p
  {
    if p.Halves? {
      var n := |Cells(p.first)|;
      if i < n {
        CoveredOnce(p.first, i, r, c);
      } else {
        CoveredOnce(p.second, i - n, r, c);
      }
    }
  }

  lemma PanesDisjoint(n: nat, h: int, w: int, i: nat, j: nat, r: int, c: int)
    requires Screen(n, h, w).Some? && i < j < n
    ensures |Cells(Screen(n, h, w).value)| == n
    ensures var cells := Cells(Screen(n, h, w).value);
      !(Inside(cells[i].1, r, c) && Inside(cells[j].1, r, c))
  {
    ScreenTiles(n, h, w);
    var p := Screen(n, h, w).value;
    assert Covers(p, r, c) == One(Inside(Box(0, 0, h, w), r, c));
    if Inside(Cells(p)[i].1, r, c) && Inside(Cells(p)[j].1, r, c) {
      CoveredApart(p, i, j, r, c);
    }
  }

  // ── where the panes are ──────────────────────────────────────────────────

  /** The panes of a column have its width; the first half of them, rounded up, is given its
      share of the rows, rounded down, and the other half begins behind that and a
      border. */
  lemma {:induction false} ColumnPlaces(from: nat, k: nat, b: Box)
    requires k > 0 && Column(from, k, b).Some?
    ensures var cells := Cells(Column(from, k, b).value);
      && |cells| == k && cells[0].1.y == b.y
      && (forall i :: 0 <= i < k ==> cells[i].1.x == b.x && cells[i].1.w == b.w)
      && (k >= 2 ==> cells[(k + 1) / 2].1.y == b.y + b.h * ((k + 1) / 2) / k + 1)
    decreases k
  {
    if k > 1 {
      var topN := (k + 1) / 2;
      var topH := Quo(b.h * topN, k);
      ColumnPlaces(from, topN, b.(h := topH));
      ColumnPlaces(from + topN, k - topN, Box(b.y + topH + 1, b.x, b.h - topH - 1, b.w));
      QuoIsDivision(b, topN, k);
    }
  }

  lemma QuoIsDivision(b: Box, a: nat, k: nat)
    requires 0 < a < k && Quo(b.h * a, k) >= 1
    ensures Quo(b.h * a, k) == b.h * a / k
  {}

  /** Two panes or more stand in two columns: the first half of them, rounded up, in the left
      one, which is half of the screen, rounded down; the others behind the border. */
  lemma ScreenPlaces(n: nat, h: int, w: int, i: nat)
    requires n >= 2 && Screen(n, h, w).Some? && i < n
    ensures var cells := Cells(Screen(n, h, w).value);
      && |cells| == n && cells[0].1.y == 0 && cells[(n + 1) / 2].1.y == 0
      && if i < (n + 1) / 2 then cells[i].1.x == 0 && cells[i].1.w == w / 2
         else cells[i].1.x == w / 2 + 1 && cells[i].1.w == w - w / 2 - 1
  {
    hide Column;
    HalfOf(w);
    var leftN, leftW := (n + 1) / 2, Quo(w, 2);
    ColumnPlaces(0, leftN, Box(0, 0, h, leftW));
    ColumnPlaces(leftN, n - leftN, Box(0, leftW + 1, h, w - leftW - 1));
  }
}
