/**
A row of cells as text and style runs (mux/capture.go:79-120, mux/frame.go:31-118,
mux/cell.go, protocol/frame.go:92-106).
*/
module RowEncoder {
  import InputKey

  type Byte = x: int | 0 <= x < 0x100
  type Index = x: int | -0x8000 <= x < 0x8000
  type Attr = x: int | 0 <= x < 0x1_0000

  const COLOR_DEFAULT := -1
  const COLOR_TRUE := 0x100_0000
  const ATTR_DIM := 2

  // ── colours ──────────────────────────────────────────────────────────────

  datatype Color = Color(index: Index, r: Byte, g: Byte, b: Byte, isTrue: bool)

  function ColorInt(c: Color): int {
    if c.isTrue then COLOR_TRUE + c.r * 0x1_0000 + c.g * 0x100 + c.b
    else if c.index < 0 then COLOR_DEFAULT
    else c.index
  }

  /** What a colour means, whatever its unused fields hold. */
  datatype Shade = Terminal | Palette(index: nat) | Rgb(r: Byte, g: Byte, b: Byte)

  function ShadeOf(c: Color): Shade {
    if c.isTrue then Rgb(c.r, c.g, c.b) else if c.index < 0 then Terminal else Palette(c.index)
  }

  /** How a client reads the number. */
  function ReadColor(n: int): Shade
    requires n < 2 * COLOR_TRUE
  {
    if n >= COLOR_TRUE then
      var rgb := n - COLOR_TRUE;
      Rgb(rgb / 0x1_0000, rgb / 0x100 % 0x100, rgb % 0x100)
    else if n < 0 then Terminal
    else Palette(n)
  }

  lemma ColorRoundTrip(c: Color)
    ensures ColorInt(c) < 2 * COLOR_TRUE && ReadColor(ColorInt(c)) == ShadeOf(c)
  {}

  /** The number tells colours apart exactly when they mean different things. */
  lemma ColorIntInjective(c: Color, d: Color)
    ensures ColorInt(c) == ColorInt(d) <==> ShadeOf(c) == ShadeOf(d)
  {
    ColorRoundTrip(c);
    ColorRoundTrip(d);
  }

  // ── cells and styles ─────────────────────────────────────────────────────

  datatype Cell = Cell(ch: char, fg: Color, bg: Color, attr: Attr, wide: bool, cont: bool)
  datatype Style = Style(fg: int, bg: int, attr: int)
  datatype Run = Run(col: int, len: int, style: Style)

  const PLAIN := Style(COLOR_DEFAULT, COLOR_DEFAULT, 0)

  function StyleOf(c: Cell): Style {
    Style(ColorInt(c.fg), ColorInt(c.bg), c.attr)
  }

  function Styles(cells: seq<Cell>): (s: seq<Style>)
    ensures |s| == |cells| && forall i :: 0 <= i < |cells| ==> s[i] == StyleOf(cells[i])
  {
    seq(|cells|, i requires 0 <= i < |cells| => StyleOf(cells[i]))
  }

  predicate InRun(r: Run, col: int) {
    r.col <= col < r.col + r.len
  }

  predicate Covered(runs: seq<Run>, col: int) {
    exists i :: 0 <= i < |runs| && InRun(runs[i], col)
  }

  /** In order, disjoint, on a row of n columns, none plain, and two that touch differ. */
  predicate Shaped(runs: seq<Run>, n: nat) {
    && (forall i :: 0 <= i < |runs| ==> 0 <= runs[i].col && 0 < runs[i].len && runs[i].col + runs[i].len <= n)
    && (forall i, j :: 0 <= i < j < |runs| ==> runs[i].col + runs[i].len <= runs[j].col)
    && (forall i :: 0 <= i < |runs| ==> runs[i].style != PLAIN)
    && (forall i, j :: 0 <= i < j < |runs| && runs[i].col + runs[i].len == runs[j].col ==>
      runs[i].style != runs[j].style)
  }

  predicate Colours(r: Run, styles: seq<Style>) {
    0 <= r.col && r.col + r.len <= |styles| && forall c :: r.col <= c < r.col + r.len ==> styles[c] == r.style
  }

  /** The runs of a row: each has the style of all its columns, and every styled column
      is in one. */
  predicate Encodes(runs: seq<Run>, styles: seq<Style>) {
    && Shaped(runs, |styles|)
    && (forall i :: 0 <= i < |runs| ==> Colours(runs[i], styles))
    && (forall c :: 0 <= c < |styles| && styles[c] != PLAIN ==> Covered(runs, c))
  }

  /** How a client reads a column's style. */
  function StyleAt(runs: seq<Run>, col: int): Style {
    if runs == [] then PLAIN else if InRun(runs[0], col) then runs[0].style else StyleAt(runs[1..], col)
  }

  lemma {:induction false} StyleAtIs(runs: seq<Run>, col: int, i: nat)
    requires i < |runs| && InRun(runs[i], col)
    requires forall j :: 0 <= j < i ==> !InRun(runs[j], col)
    ensures StyleAt(runs, col) == runs[i].style
  {
    if i > 0 {
      StyleAtIs(runs[1..], col, i - 1);
    }
  }

  lemma {:induction false} StyleAtNone(runs: seq<Run>, col: int)
    requires forall j :: 0 <= j < |runs| ==> !InRun(runs[j], col)
    ensures StyleAt(runs, col) == PLAIN
  {
    if runs != [] {
      StyleAtNone(runs[1..], col);
    }
  }

  /** The runs give back every column's style. */
  lemma RunsDecode(runs: seq<Run>, styles: seq<Style>, col: nat)
    requires Encodes(runs, styles) && col < |styles|
    ensures StyleAt(runs, col) == styles[col]
  {
    if styles[col] != PLAIN {
      var i :| 0 <= i < |runs| && InRun(runs[i], col);
      StyleAtIs(runs, col, i);
    } else {
      StyleAtNone(runs, col);
    }
  }

  // ── one encoding for a row ───────────────────────────────────────────────

  predicate Touches(runs: seq<Run>, n: nat) {
    runs != [] && runs[|runs| - 1].col + runs[|runs| - 1].len == n
  }

  /** The runs of a row without its last column, n - 1. */
  function Peel(runs: seq<Run>, n: nat): seq<Run> {
    if !Touches(runs, n) then runs
    else
      var last := |runs| - 1;
      if runs[last].len == 1 then runs[..last] else runs[last := runs[last].(len := runs[last].len - 1)]
  }

  /** The run that holds the last column is the last run. */
  lemma NoneAfter(runs: seq<Run>, n: nat, i: nat)
    requires Shaped(runs, n) && i < |runs| && runs[i].col + runs[i].len >= n
    ensures i == |runs| - 1
  {
    var last := runs[|runs| - 1];
    assert last.col + last.len <= n;
  }

  lemma LastColumn(runs: seq<Run>, styles: seq<Style>)
    requires Encodes(runs, styles) && styles != []
    ensures Touches(runs, |styles|) <==> styles[|styles| - 1] != PLAIN
    ensures Touches(runs, |styles|) ==> runs[|runs| - 1].style == styles[|styles| - 1]
  {
    var n := |styles|;
    if styles[n - 1] != PLAIN {
      assert Covered(runs, n - 1);
      var i :| 0 <= i < |runs| && InRun(runs[i], n - 1);
      NoneAfter(runs, n, i);
    }
    if Touches(runs, n) {
      assert Colours(runs[|runs| - 1], styles);
    }
  }

  lemma PeelShaped(runs: seq<Run>, n: nat)
    requires Shaped(runs, n) && n > 0
    ensures Shaped(Peel(runs, n), n - 1)
  {
    forall i | 0 <= i < |runs| - 1 ensures runs[i].col + runs[i].len <= n - 1 {
      assert runs[i].col + runs[i].len <= runs[|runs| - 1].col;
    }
  }

  lemma PeelEncodes(runs: seq<Run>, styles: seq<Style>)
    requires Encodes(runs, styles) && styles != []
    ensures Encodes(Peel(runs, |styles|), styles[..|styles| - 1])
  {
    hide Covered, Shaped;
    var n := |styles|;
    PeelShaped(runs, n);
    var runs', styles' := Peel(runs, n), styles[..n - 1];
    LastColumn(runs, styles);
    forall i | 0 <= i < |runs'| ensures Colours(runs'[i], styles') {
      assert Colours(runs[i], styles);
    }
    forall c | 0 <= c < n - 1 && styles'[c] != PLAIN ensures Covered(runs', c) {
      assert Covered(runs, c);
      PeelCovers(runs, n, c);
    }
  }

  lemma PeelCovers(runs: seq<Run>, n: nat, c: int)
    requires Covered(runs, c) && c < n - 1
    ensures Covered(Peel(runs, n), c)
  {
    var i :| 0 <= i < |runs| && InRun(runs[i], c);
    assert InRun(Peel(runs, n)[i], c);
  }

  lemma PeelApart(a: seq<Run>, b: seq<Run>, n: nat)
    requires Shaped(a, n) && Shaped(b, n) && Touches(a, n) && Touches(b, n)
    requires a[|a| - 1].style == b[|b| - 1].style && Peel(a, n) == Peel(b, n)
    ensures a[|a| - 1].len == 1 <==> b[|b| - 1].len == 1
  {}

  /** A row has one encoding: merging leaves nothing to choose. */
  lemma {:induction false} RunsUnique(a: seq<Run>, b: seq<Run>, styles: seq<Style>)
    requires Encodes(a, styles) && Encodes(b, styles)
    ensures a == b
    decreases |styles|
  {
    hide Colours, Covered;
    var n := |styles|;
    if n == 0 {
      assert a == [] && b == [];
      return;
    }
    LastColumn(a, styles);
    LastColumn(b, styles);
    PeelEncodes(a, styles);
    PeelEncodes(b, styles);
    RunsUnique(Peel(a, n), Peel(b, n), styles[..n - 1]);
    if Touches(a, n) {
      PeelApart(a, b, n);
      PeelBack(a, b, n);
    }
  }

  lemma PeelBack(a: seq<Run>, b: seq<Run>, n: nat)
    requires Touches(a, n) && Touches(b, n) && Peel(a, n) == Peel(b, n)
    requires a[|a| - 1].style == b[|b| - 1].style
    requires a[|a| - 1].len == 1 <==> b[|b| - 1].len == 1
    ensures a == b
  {
    var i, j := |a| - 1, |b| - 1;
    if a[i].len == 1 {
      assert a == a[..i] + [a[i]] && b == b[..j] + [b[j]];
    } else {
      assert a == Peel(a, n)[i := a[i]] && b == Peel(b, n)[j := b[j]];
    }
  }

  // ── rowStyle ─────────────────────────────────────────────────────────────

  class RowStyle {
    var runs: seq<Run>
    var wide: seq<nat>
    var open: bool
    var fg: int
    var bg: int
    var attr: int
    var lastCol: int
    var dimOnly: bool
    var dim: seq<bool>

    constructor (dimOnly: bool)
      ensures this.dimOnly == dimOnly && IsReset()
    {
      this.dimOnly := dimOnly;
      runs, wide, dim, open := [], [], [], false;
      fg, bg, attr, lastCol := 0, 0, 0, 0;
    }

    predicate IsReset()
      reads this
    {
      runs == [] && wide == [] && dim == [] && !open
    }

    method Reset()
      modifies this
      ensures IsReset() && dimOnly == old(dimOnly)
    {
      runs, wide, dim, open := [], [], [], false;
    }

    /** The runs of the columns so far; the last one is open exactly when the last
        column is styled. */
    ghost predicate Valid(styles: seq<Style>)
      reads this
    {
      && Encodes(runs, styles)
      && (open <==> styles != [] && styles[|styles| - 1] != PLAIN)
      && (open ==>
            && runs != [] && lastCol == |styles| - 1
            && Style(fg, bg, attr) == styles[|styles| - 1]
            && runs[|runs| - 1].col + runs[|runs| - 1].len == |styles|)
    }

    method Add(col: int, c: Cell, ghost styles: seq<Style>)
      requires Valid(styles) && col == |styles|
      modifies this`runs, this`open, this`fg, this`bg, this`attr, this`lastCol
      ensures Valid(styles + [StyleOf(c)])
    {
      hide Encodes, ColorInt;
      assert !open ==> styles == [] || styles[|styles| - 1] == PLAIN;
      var f, b, a := ColorInt(c.fg), ColorInt(c.bg), c.attr;
      if f == COLOR_DEFAULT && b == COLOR_DEFAULT && a == 0 {
        open := false;
        AddPlain(runs, styles);
        return;
      }
      if open && fg == f && bg == b && attr == a && lastCol + 1 == col {
        var last := |runs| - 1;
        LastIs(runs, styles);
        AddSame(runs, styles);
        runs := runs[last := runs[last].(len := runs[last].len + 1)];
        lastCol := col;
        return;
      }
      AddOther(runs, styles, StyleOf(c));
      runs := runs + [Run(col, 1, Style(f, b, a))];
      open, fg, bg, attr, lastCol := true, f, b, a, col;
    }
  }

  lemma LastIs(runs: seq<Run>, styles: seq<Style>)
    requires Encodes(runs, styles) && runs != [] && styles != []
    requires runs[|runs| - 1].col + runs[|runs| - 1].len == |styles|
    ensures styles[|styles| - 1] == runs[|runs| - 1].style
  {
    assert Colours(runs[|runs| - 1], styles);
  }

  lemma StillColours(r: Run, styles: seq<Style>, s: Style)
    ensures Colours(r, styles) ==> Colours(r, styles + [s])
  {}

  lemma StillCovered(runs: seq<Run>, runs': seq<Run>, n: nat)
    requires |runs'| >= |runs|
    requires forall i :: 0 <= i < |runs| ==> runs'[i].col == runs[i].col && runs'[i].len >= runs[i].len
    ensures forall c :: 0 <= c < n && Covered(runs, c) ==> Covered(runs', c)
  {
    forall c | 0 <= c < n && Covered(runs, c) ensures Covered(runs', c) {
      var i :| 0 <= i < |runs| && InRun(runs[i], c);
      assert InRun(runs'[i], c);
    }
  }

  lemma AddPlain(runs: seq<Run>, styles: seq<Style>)
    requires Encodes(runs, styles)
    ensures Encodes(runs, styles + [PLAIN])
  {
    hide Colours, Covered;
    forall i | 0 <= i < |runs| ensures Colours(runs[i], styles + [PLAIN]) {
      StillColours(runs[i], styles, PLAIN);
    }
  }

  lemma AddSame(runs: seq<Run>, styles: seq<Style>)
    requires Encodes(runs, styles) && runs != []
    requires runs[|runs| - 1].col + runs[|runs| - 1].len == |styles|
    ensures var last := |runs| - 1;
      Encodes(runs[last := runs[last].(len := runs[last].len + 1)], styles + [runs[last].style])
  {
    hide Covered;
    var last := |runs| - 1;
    var s := runs[last].style;
    var runs' := runs[last := runs[last].(len := runs[last].len + 1)];
    forall i | 0 <= i < last ensures Colours(runs'[i], styles + [s]) {
      StillColours(runs[i], styles, s);
    }
    assert Colours(runs[last], styles);
    assert Colours(runs'[last], styles + [s]);
    StillCovered(runs, runs', |styles|);
    LastCovered(runs', |styles|);
  }

  lemma AddOther(runs: seq<Run>, styles: seq<Style>, s: Style)
    requires Encodes(runs, styles) && s != PLAIN
    requires styles == [] || styles[|styles| - 1] != s
    ensures Encodes(runs + [Run(|styles|, 1, s)], styles + [s])
  {
    hide Covered;
    var runs' := runs + [Run(|styles|, 1, s)];
    forall i | 0 <= i < |runs| ensures Colours(runs'[i], styles + [s]) {
      StillColours(runs[i], styles, s);
    }
    forall i | 0 <= i < |runs| && runs[i].col + runs[i].len == |styles| ensures runs[i].style != s {
      assert Colours(runs[i], styles) && styles[|styles| - 1] == runs[i].style;
    }
    StillCovered(runs, runs', |styles|);
    LastCovered(runs', |styles|);
  }

  lemma LastCovered(runs: seq<Run>, c: int)
    requires runs != [] && InRun(runs[|runs| - 1], c)
    ensures Covered(runs, c)
  {}

  // ── rowWalk ──────────────────────────────────────────────────────────────

  const NUL := 0 as char

  function Shown(c: Cell): char {
    if c.ch == NUL then ' ' else c.ch
  }

  /** The characters of a row, before the trim. */
  function Emitted(cells: seq<Cell>): string {
    if cells == [] then ""
    else
      var c := cells[|cells| - 1];
      Emitted(cells[..|cells| - 1]) + if c.cont then "" else [Shown(c)]
  }

  /** Which of them take two columns. */
  function Wides(cells: seq<Cell>): seq<nat> {
    if cells == [] then []
    else
      var init, c := cells[..|cells| - 1], cells[|cells| - 1];
      Wides(init) + if !c.cont && c.wide then [|Emitted(init)|] else []
  }

  predicate IsDim(c: Cell) {
    c.attr / ATTR_DIM % 2 == 1
  }

  function Dims(cells: seq<Cell>): seq<bool> {
    if cells == [] then []
    else
      var c := cells[|cells| - 1];
      Dims(cells[..|cells| - 1]) + if c.cont then [] else [IsDim(c)]
  }

  lemma {:induction false} OneDimEach(cells: seq<Cell>)
    ensures |Dims(cells)| == |Emitted(cells)|
    decreases |cells|
  {
    if cells != [] {
      OneDimEach(cells[..|cells| - 1]);
    }
  }

  function TrimSpaces(s: string): (t: string)
    ensures t <= s && (t == "" || t[|t| - 1] != ' ')
  {
    if s == "" || s[|s| - 1] != ' ' then s else TrimSpaces(s[..|s| - 1])
  }

  /** A trimmed rune is one byte, so bytes trimmed are runes trimmed. */
  lemma {:induction false} TrimmedBytes(s: string)
    ensures InputKey.Size(s) - InputKey.Size(TrimSpaces(s)) == |s| - |TrimSpaces(s)|
    decreases |s|
  {
    if s != "" && s[|s| - 1] == ' ' {
      TrimmedBytes(s[..|s| - 1]);
    }
  }

  function Max(a: int, b: int): int {
    if a > b then a else b
  }

  function Min(a: int, b: int): int {
    if a < b then a else b
  }

  /** Columns x0 to x1, both clamped to the row. */
  function Window(row: seq<Cell>, x0: int, x1: int): seq<Cell> {
    var from, to := Max(x0, 0), Min(x1, |row| - 1);
    if from > to then [] else row[from..to + 1]
  }

  /** st is optional, and fresh from a reset when given. */
  method RowWalk(row: seq<Cell>, x0: int, x1: int, st: RowStyle?) returns (text: string)
    requires st != null ==> st.IsReset()
    modifies if st == null then {} else {st}
    ensures text == TrimSpaces(Emitted(Window(row, x0, x1)))
    ensures st != null ==> st.dimOnly == old(st.dimOnly)
    ensures st != null && !st.dimOnly ==>
      Encodes(st.runs, Styles(Window(row, x0, x1))) && st.wide == Wides(Window(row, x0, x1)) && st.dim == []
    ensures st != null && st.dimOnly ==>
      |text| <= |Dims(Window(row, x0, x1))| && st.dim == Dims(Window(row, x0, x1))[..|text|] && st.runs == []
        && st.wide == []
  {
    hide Encodes, ColorInt, Emitted, Wides, Dims;
    var from, to := Max(x0, 0), Min(x1, |row| - 1);
    ghost var cells := Window(row, x0, x1);
    ghost var done: seq<Cell> := [];
    var line, n, c := "", 0, from;
    NothingYet();
    while c <= to
      invariant |done| <= |cells| && done == cells[..|done|] && c == from + |done|
      invariant c > to ==> |done| == |cells|
      invariant line == Emitted(done) && n == |line|
      invariant st != null ==> st.dimOnly == old(st.dimOnly)
      invariant st != null && !st.dimOnly ==> st.Valid(Styles(done)) && st.wide == Wides(done) && st.dim == []
      invariant st != null && st.dimOnly ==> st.dim == Dims(done) && st.runs == [] && st.wide == []
    {
      var cell := row[c];
      assert cells[|done|] == cell;
      StepOne(cells, |done|);
      if !cell.cont {
        line := line + [Shown(cell)];
        if st != null {
          if st.dimOnly {
            st.dim := st.dim + [IsDim(cell)];
          } else if cell.wide {
            st.wide := st.wide + [n];
          }
        }
        n := n + 1;
      }
      if st != null && !st.dimOnly {
        st.Add(c - from, cell, Styles(done));
      }
      done := cells[..|done| + 1];
      c := c + 1;
    }
    assert done == cells;
    text := TrimSpaces(line);
    if st != null && st.dimOnly {
      OneDimEach(cells);
      TrimmedBytes(line);
      st.dim := st.dim[..|st.dim| - (InputKey.Size(line) - InputKey.Size(text))];
    }
  }

  lemma NothingYet()
    ensures Encodes([], []) && Emitted([]) == "" && Wides([]) == [] && Dims([]) == []
  {}

  lemma StepOne(cells: seq<Cell>, k: nat)
    requires k < |cells|
    ensures cells[..k + 1][..k] == cells[..k]
    ensures Styles(cells[..k + 1]) == Styles(cells[..k]) + [StyleOf(cells[k])]
    ensures Emitted(cells[..k + 1]) == Emitted(cells[..k]) + if cells[k].cont then "" else [Shown(cells[k])]
    ensures Dims(cells[..k + 1]) == Dims(cells[..k]) + if cells[k].cont then [] else [IsDim(cells[k])]
    ensures Wides(cells[..k + 1]) ==
      Wides(cells[..k]) + if !cells[k].cont && cells[k].wide then [|Emitted(cells[..k])|] else []
  {
    assert cells[..k + 1][..k] == cells[..k];
  }

  // ── decoding ─────────────────────────────────────────────────────────────

  /** One column as a client draws it: a character, or the right half of one. */
  datatype Glyph = Glyph(ch: char) | Half

  predicate CellOk(cells: seq<Cell>, c: nat)
    requires c < |cells|
  {
    && (cells[c].wide ==> !cells[c].cont && Shown(cells[c]) != ' ' && c + 1 < |cells| && cells[c + 1].cont)
    && (cells[c].cont ==> c > 0 && cells[c - 1].wide)
  }

  /** A row as the screen keeps it: a wide cell holds a character and is followed by
      its continuation, and there is no other continuation. */
  predicate WellFormed(cells: seq<Cell>) {
    forall c :: 0 <= c < |cells| ==> CellOk(cells, c)
  }

  function Glyphs(cells: seq<Cell>): (g: seq<Glyph>)
    ensures |g| == |cells|
  {
    seq(|cells|, i requires 0 <= i < |cells| => if cells[i].cont then Half else Glyph(Shown(cells[i])))
  }

  function Lay(text: string, wide: seq<nat>): seq<Glyph> {
    if text == "" then []
    else
      var k := |text| - 1;
      Lay(text[..k], wide) + [Glyph(text[k])] + if k in wide then [Half] else []
  }

  /** The columns of a row of n cells: the text laid out, and blanks to the end. */
  function Decode(text: string, wide: seq<nat>, n: nat): seq<Glyph> {
    var laid := Lay(text, wide);
    laid + seq(Max(0, n - |laid|), _ => Glyph(' '))
  }

  lemma {:induction false} WidesBelow(cells: seq<Cell>)
    ensures forall k :: k in Wides(cells) ==> k < |Emitted(cells)|
    decreases |cells|
  {
    if cells != [] {
      WidesBelow(cells[..|cells| - 1]);
    }
  }

  lemma {:induction false} LayLocal(text: string, wide: seq<nat>, more: seq<nat>)
    requires forall k :: k in more ==> k >= |text|
    ensures Lay(text, wide + more) == Lay(text, wide)
    decreases |text|
  {
    if text != "" {
      LayLocal(text[..|text| - 1], wide, more);
    }
  }

  lemma WellFormedInit(cells: seq<Cell>, n: nat)
    requires WellFormed(cells) && n <= |cells| && (n == 0 || !cells[n - 1].wide)
    ensures WellFormed(cells[..n])
  {
    forall c | 0 <= c < n ensures CellOk(cells[..n], c) {
      assert CellOk(cells, c);
    }
  }

  /** One character more, and perhaps its right half. */
  lemma LayAppend(text: string, wide: seq<nat>, ch: char, half: bool)
    requires forall k :: k in wide ==> k < |text|
    ensures Lay(text + [ch], wide + if half then [|text|] else []) ==
      Lay(text, wide) + [Glyph(ch)] + if half then [Half] else []
  {
    var more := if half then [|text|] else [];
    LayLocal(text, wide, more);
    assert (text + [ch])[..|text|] == text;
    assert |text| in wide + more <==> half;
  }

  /** Untrimmed, the text and the wide indexes spell out the row. */
  lemma {:induction false} LayIsGlyphs(cells: seq<Cell>)
    requires WellFormed(cells)
    ensures Lay(Emitted(cells), Wides(cells)) == Glyphs(cells)
    decreases |cells|
  {
    hide Lay, Emitted, Wides;
    var n := |cells|;
    if n == 0 {
      NothingLaid();
      assert cells == [];
      return;
    }
    assert CellOk(cells, n - 1);
    StepOne(cells, n - 1);
    assert cells[..n] == cells;
    var m := if cells[n - 1].cont then n - 2 else n - 1;
    if cells[n - 1].cont {
      assert CellOk(cells, m);
      StepOne(cells, m);
    }
    if m > 0 {
      assert CellOk(cells, m - 1);
    }
    var init := cells[..m];
    WellFormedInit(cells, m);
    LayIsGlyphs(init);
    WidesBelow(init);
    LayAppend(Emitted(init), Wides(init), Shown(cells[m]), cells[m].wide);
    assert Emitted(cells) == Emitted(init) + [Shown(cells[m])];
    assert Wides(cells) == Wides(init) + if cells[m].wide then [|Emitted(init)|] else [];
    assert Glyphs(cells) == Glyphs(init) + [Glyph(Shown(cells[m]))] + if cells[m].wide then [Half] else [];
  }

  lemma NothingLaid()
    ensures Lay(Emitted([]), Wides([])) == []
  {}

  lemma {:induction false} WidesAreNotBlank(cells: seq<Cell>)
    requires forall c :: 0 <= c < |cells| && cells[c].wide ==> Shown(cells[c]) != ' '
    ensures forall k :: k in Wides(cells) ==> k < |Emitted(cells)| && Emitted(cells)[k] != ' '
    decreases |cells|
  {
    if cells != [] {
      WidesAreNotBlank(cells[..|cells| - 1]);
    }
  }

  /** What the trim takes away is blank columns. */
  lemma {:induction false} TrimDecodes(text: string, wide: seq<nat>)
    requires forall k :: k in wide && k < |text| ==> text[k] != ' '
    ensures |Lay(TrimSpaces(text), wide)| <= |Lay(text, wide)|
    ensures Decode(TrimSpaces(text), wide, |Lay(text, wide)|) == Lay(text, wide)
    decreases |text|
  {
    if text != "" && text[|text| - 1] == ' ' {
      TrimDecodes(text[..|text| - 1], wide);
    }
  }

  /** Text and wide indexes give back every column's character. */
  lemma TextRoundTrip(cells: seq<Cell>)
    requires WellFormed(cells)
    ensures Decode(TrimSpaces(Emitted(cells)), Wides(cells), |cells|) == Glyphs(cells)
  {
    hide Lay, Emitted, Wides, TrimSpaces;
    LayIsGlyphs(cells);
    forall c | 0 <= c < |cells| && cells[c].wide ensures Shown(cells[c]) != ' ' {
      assert CellOk(cells, c);
    }
    WidesAreNotBlank(cells);
    TrimDecodes(Emitted(cells), Wides(cells));
  }

  // ── windows that cut a wide character ────────────────────────────────────

  /** A window ends where characters end: it starts with no right half, and its last
      cell is no left half. */
  predicate CutsNothing(cells: seq<Cell>) {
    cells == [] || (!cells[0].cont && !cells[|cells| - 1].wide)
  }

  lemma WindowCellOk(row: seq<Cell>, i: nat, j: nat)
    requires WellFormed(row) && i <= j <= |row|
    ensures CutsNothing(row[i..j]) ==> WellFormed(row[i..j])
  {
    var w := row[i..j];
    if CutsNothing(w) {
      forall c | 0 <= c < |w| ensures CellOk(w, c) {
        assert CellOk(row, i + c);
      }
    }
  }

  lemma {:induction false} LayStarts(text: string, wide: seq<nat>)
    requires text != ""
    ensures Lay(text, wide) != [] && Lay(text, wide)[0].Glyph?
    decreases |text|
  {
    var k := |text| - 1;
    if k > 0 {
      LayStarts(text[..k], wide);
    }
  }

  /** Cut at the left, the first column is the right half of a character, which no text
      lays out first. */
  lemma CutLeftIsLost(cells: seq<Cell>, text: string, wide: seq<nat>)
    requires cells != [] && cells[0].cont
    ensures Decode(text, wide, |cells|) != Glyphs(cells)
  {
    hide Lay;
    assert Glyphs(cells)[0] == Half;
    if text != "" {
      LayStarts(text, wide);
    } else {
      EmptyLays(wide);
      assert Decode(text, wide, |cells|)[0] == Glyph(' ');
    }
  }

  lemma EmptyLays(wide: seq<nat>)
    ensures Lay("", wide) == []
  {}

  /** Cut at the right, the wide index is recorded without the cell that pays for it, and
      the text lays out one column too long. */
  lemma CutRightIsLong(cells: seq<Cell>)
    requires cells != [] && cells[|cells| - 1].wide && !cells[|cells| - 1].cont
    requires Shown(cells[|cells| - 1]) != ' '
    requires WellFormed(cells[..|cells| - 1])
    ensures |Lay(TrimSpaces(Emitted(cells)), Wides(cells))| == |cells| + 1
  {
    hide Lay, Emitted, Wides;
    var n := |cells| - 1;
    var init := cells[..n];
    StepOne(cells, n);
    assert cells[..n + 1] == cells;
    LayIsGlyphs(init);
    WidesBelow(init);
    LayAppend(Emitted(init), Wides(init), Shown(cells[n]), true);
    assert TrimSpaces(Emitted(cells)) == Emitted(cells);
  }

  /** Any window of a row decodes to its columns if and only if it cuts no character. */
  lemma WindowDecodesExactly(row: seq<Cell>, i: nat, j: nat)
    requires WellFormed(row) && i <= j <= |row|
    ensures var w := row[i..j];
      Decode(TrimSpaces(Emitted(w)), Wides(w), |w|) == Glyphs(w) <==> CutsNothing(w)
  {
    hide Lay, Emitted, Wides, TrimSpaces, Decode, Glyphs, WellFormed;
    var w := row[i..j];
    WindowCellOk(row, i, j);
    if CutsNothing(w) {
      TextRoundTrip(w);
    } else if w[0].cont {
      CutLeftIsLost(w, TrimSpaces(Emitted(w)), Wides(w));
    } else {
      CutRight(row, i, j);
      DecodeTooLong(w, TrimSpaces(Emitted(w)), Wides(w));
    }
  }

  lemma CutRight(row: seq<Cell>, i: nat, j: nat)
    requires WellFormed(row) && i < j <= |row| && !row[i].cont && row[j - 1].wide
    ensures |Lay(TrimSpaces(Emitted(row[i..j])), Wides(row[i..j]))| == j - i + 1
  {
    hide Lay, Emitted, Wides, TrimSpaces;
    var w := row[i..j];
    assert CellOk(row, j - 1);
    if i < j - 1 {
      assert CellOk(row, j - 2);
    }
    WindowCellOk(row, i, j - 1);
    assert w[..|w| - 1] == row[i..j - 1];
    CutRightIsLong(w);
  }

  lemma DecodeTooLong(cells: seq<Cell>, text: string, wide: seq<nat>)
    requires |Lay(text, wide)| > |cells|
    ensures Decode(text, wide, |cells|) != Glyphs(cells)
  {
    hide Lay;
  }

  // ── encodeLine ───────────────────────────────────────────────────────────

  datatype Line = Line(y: int, t: string, wd: seq<nat>, r: seq<Run>)

  method EncodeLine(y: int, row: seq<Cell>, cols: int, st: RowStyle) returns (line: Line)
    requires !st.dimOnly
    modifies st
    ensures line.y == y && IsLineOf(line, Window(row, 0, cols - 1))
  {
    st.Reset();
    var text := RowWalk(row, 0, cols - 1, st);
    line := Line(y, text, st.wide, st.runs);
  }

  predicate IsLineOf(line: Line, cells: seq<Cell>) {
    && line.t == TrimSpaces(Emitted(cells)) && line.wd == Wides(cells)
    && Encodes(line.r, Styles(cells))
  }

  /** A line decodes to the row it was made of, character by character and style by
      style. */
  lemma LineRoundTrip(line: Line, cells: seq<Cell>)
    requires IsLineOf(line, cells) && WellFormed(cells)
    ensures Decode(line.t, line.wd, |cells|) == Glyphs(cells)
    ensures forall c :: 0 <= c < |cells| ==> StyleAt(line.r, c) == StyleOf(cells[c])
  {
    TextRoundTrip(cells);
    forall c | 0 <= c < |cells| ensures StyleAt(line.r, c) == StyleOf(cells[c]) {
      RunsDecode(line.r, Styles(cells), c);
    }
  }

  /** What encodeLine makes of the first cols cells of a row, which may be wider: its
      styles always decode, its characters if and only if the last of those cells is
      not the left half of a character. */
  lemma LineDecodesExactly(line: Line, row: seq<Cell>, cols: int)
    requires WellFormed(row) && IsLineOf(line, Window(row, 0, cols - 1))
    ensures var w := Window(row, 0, cols - 1);
      && (Decode(line.t, line.wd, |w|) == Glyphs(w) <==> w == [] || !w[|w| - 1].wide)
      && forall c :: 0 <= c < |w| ==> StyleAt(line.r, c) == StyleOf(w[c])
  {
    hide Decode, Glyphs, Wides, Emitted, TrimSpaces, Encodes, StyleAt;
    var w := Window(row, 0, cols - 1);
    var n := |w|;
    assert w == row[0..n];
    if n > 0 {
      assert CellOk(row, 0);
    }
    WindowDecodesExactly(row, 0, n);
    forall c | 0 <= c < n ensures StyleAt(line.r, c) == StyleOf(w[c]) {
      RunsDecode(line.r, Styles(w), c);
    }
  }

  // ── what is read of a row ────────────────────────────────────────────────

  predicate IsColumn(row: seq<Cell>, x0: int, x1: int, c: int) {
    0 <= c < |row| && x0 <= c <= x1
  }

  /** A window is the columns of the row from x0 to x1, both included, as far as there are
      any. */
  lemma WindowMeans(row: seq<Cell>, x0: int, x1: int) returns (lo: nat, hi: nat)
    ensures lo <= hi <= |row| && Window(row, x0, x1) == row[lo..hi]
    ensures forall c :: IsColumn(row, x0, x1, c) <==> lo <= c < hi
  {
    lo, hi := 0, 0;
    if Max(x0, 0) <= Min(x1, |row| - 1) {
      lo, hi := Max(x0, 0), Min(x1, |row| - 1) + 1;
    }
  }

  /** A cell that was never written shows a blank, any other its character; the dim bit is
      the second. */
  lemma CellMeans(c: Cell)
    ensures Shown(c.(ch := 0 as char)) == ' '
    ensures c.ch as int > 0 ==> Shown(c) == c.ch
    ensures IsDim(c) <==> c.attr % 4 >= 2
  {}
}
