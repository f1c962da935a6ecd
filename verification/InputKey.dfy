/**
The wrap-independent key of a text (mux/claude_screen.go:175-228, 234-345).

Characters are Unicode scalar values, and a text's size is its length in UTF-8.
*/
module InputKey {
  const INPUT_KEY_MAX := 65536
  const NBSP := 0xA0 as char
  const NUL := 0 as char

  /** unicode.IsSpace */
  predicate IsSpace(c: char) {
    || c == ' ' || 9 as char <= c <= 13 as char || c == 0x85 as char || c == NBSP || c == 0x1680 as char
    || 0x2000 as char <= c <= 0x200A as char || c == 0x2028 as char || c == 0x2029 as char
    || c == 0x202F as char || c == 0x205F as char || c == 0x3000 as char
  }

  /** The runes Claude's history rendering drops. */
  predicate IsMarkdownDelim(c: char) {
    c == '`' || c == '*' || c == '~'
  }

  datatype KeyMode = KeyRaw | KeyRendered

  predicate Dropped(c: char, mode: KeyMode) {
    IsSpace(c) || (mode == KeyRendered && IsMarkdownDelim(c))
  }

  /** What counts of a text. */
  function Stripped(s: string, mode: KeyMode): string {
    if s == "" then ""
    else if Dropped(s[0], mode) then Stripped(s[1..], mode)
    else [s[0]] + Stripped(s[1..], mode)
  }

  function RuneLen(c: char): nat {
    if c < 0x80 as char then 1 else if c < 0x800 as char then 2 else if c < 0x10000 as char then 3 else 4
  }

  function Size(s: string): nat {
    if s == "" then 0 else Size(s[..|s| - 1]) + RuneLen(s[|s| - 1])
  }

  function Itoa(n: nat): string {
    if n < 10 then [('0' as int + n) as char] else Itoa(n / 10) + [('0' as int + n % 10) as char]
  }

  /** The longest prefix that is within the bound. */
  function Bounded(t: string): string {
    if Size(t) <= INPUT_KEY_MAX then t else Bounded(t[..|t| - 1])
  }

  predicate InLimit(s: string, mode: KeyMode) {
    Size(Stripped(s, mode)) <= INPUT_KEY_MAX
  }

  /** What normaliseKey gives for a text whose stripped form is t. */
  function KeyOf(t: string): string {
    if Size(t) <= INPUT_KEY_MAX then t else Bounded(t) + [NUL] + Itoa(|t|)
  }

  // ── normaliseKey ─────────────────────────────────────────────────────────

  lemma {:induction false} StrippedConcat(s: string, t: string, mode: KeyMode)
    ensures Stripped(s + t, mode) == Stripped(s, mode) + Stripped(t, mode)
  {
    if s == "" {
      assert s + t == t;
    } else {
      assert (s + t)[0] == s[0] && (s + t)[1..] == s[1..] + t;
      StrippedConcat(s[1..], t, mode);
    }
  }

  lemma StrippedOne(c: char, mode: KeyMode)
    ensures Stripped([c], mode) == if Dropped(c, mode) then "" else [c]
  {
    assert [c][1..] == "";
  }

  lemma SizeAppend(s: string, c: char)
    ensures Size(s + [c]) == Size(s) + RuneLen(c)
  {
    assert (s + [c])[..|s|] == s;
  }

  /** Once over the bound, more text leaves the kept prefix alone. */
  lemma BoundedAppend(t: string, c: char)
    ensures Bounded(t + [c]) == if Size(t + [c]) <= INPUT_KEY_MAX then t + [c] else Bounded(t)
  {
    assert (t + [c])[..|t + [c]| - 1] == t;
  }

  method NormaliseKey(s: string, mode: KeyMode) returns (key: string)
    ensures key == KeyOf(Stripped(s, mode))
  {
    var b, n, over := "", 0, false;
    for i := 0 to |s|
      invariant n == |Stripped(s[..i], mode)| && b == Bounded(Stripped(s[..i], mode))
      invariant over <==> Size(Stripped(s[..i], mode)) > INPUT_KEY_MAX
    {
      var c := s[i];
      ghost var t := Stripped(s[..i], mode);
      assert s[..i + 1] == s[..i] + [c];
      StrippedConcat(s[..i], [c], mode);
      StrippedOne(c, mode);
      if Dropped(c, mode) {
        assert Stripped(s[..i + 1], mode) == t;
        continue;
      }
      SizeAppend(t, c);
      BoundedAppend(t, c);
      n := n + 1;
      if !over && Size(b) + RuneLen(c) > INPUT_KEY_MAX {
        over := true;
      }
      if !over {
        b := b + [c];
      }
    }
    assert s[..|s|] == s;
    key := if over then b + [NUL] + Itoa(n) else b;
  }

  // ── what keys tell apart ─────────────────────────────────────────────────

  lemma {:induction false} BoundedIsAlmostFull(t: string)
    requires Size(t) > INPUT_KEY_MAX
    ensures INPUT_KEY_MAX - 3 <= Size(Bounded(t)) <= INPUT_KEY_MAX
    decreases |t|
  {
    var u := t[..|t| - 1];
    if Size(u) > INPUT_KEY_MAX {
      BoundedIsAlmostFull(u);
    }
  }

  lemma {:induction false} SizeAtMost(t: string)
    ensures |t| <= Size(t) <= 4 * |t|
    decreases |t|
  {
    if t != "" {
      SizeAtMost(t[..|t| - 1]);
    }
  }

  lemma {:induction false} SizeConcat(s: string, t: string)
    ensures Size(s + t) == Size(s) + Size(t)
    decreases |t|
  {
    if t == "" {
      assert s + t == s;
    } else {
      assert (s + t)[..|s + t| - 1] == s + t[..|t| - 1];
      SizeConcat(s, t[..|t| - 1]);
    }
  }

  lemma ItoaLength(n: nat)
    requires n >= 10000
    ensures |Itoa(n)| >= 5
  {
    assert n / 10 >= 1000 && n / 10 / 10 >= 100 && n / 10 / 10 / 10 >= 10;
    assert |Itoa(n / 10 / 10 / 10)| >= 2;
    assert |Itoa(n / 10 / 10)| >= 3;
    assert |Itoa(n / 10)| >= 4;
  }

  /** A text over the bound never has the key of one within it: its own key is longer
      than the bound. */
  lemma OverLimitNeverEqual(s: string, t: string, mode: KeyMode)
    requires InLimit(s, mode) && !InLimit(t, mode)
    ensures KeyOf(Stripped(s, mode)) != KeyOf(Stripped(t, mode))
  {
    var u := Stripped(t, mode);
    var count := Itoa(|u|);
    SizeAtMost(u);
    BoundedIsAlmostFull(u);
    ItoaLength(|u|);
    SizeConcat(Bounded(u) + [NUL], count);
    SizeAppend(Bounded(u), NUL);
    SizeAtMost(count);
    assert Size(KeyOf(u)) > INPUT_KEY_MAX;
  }

  predicate IsDigits(s: string) {
    s != "" && forall i :: 0 <= i < |s| ==> '0' <= s[i] <= '9'
  }

  lemma {:induction false} ItoaDigits(n: nat)
    ensures IsDigits(Itoa(n))
  {
    if n >= 10 {
      ItoaDigits(n / 10);
    }
  }

  lemma {:induction false} ItoaInjective(m: nat, n: nat)
    requires Itoa(m) == Itoa(n)
    ensures m == n
  {
    ItoaEnds(m);
    ItoaEnds(n);
    if m >= 10 && n >= 10 {
      ItoaInjective(m / 10, n / 10);
    }
  }

  lemma ItoaEnds(n: nat)
    ensures |Itoa(n)| >= 1 && (|Itoa(n)| == 1 <==> n < 10)
    ensures Itoa(n)[|Itoa(n)| - 1] == ('0' as int + n % 10) as char
    ensures n >= 10 ==> Itoa(n)[..|Itoa(n)| - 1] == Itoa(n / 10)
  {
    if n >= 10 {
      ItoaDigits(n / 10);
    }
  }

  function BehindNul(s: string): string {
    if s == "" || s[|s| - 1] == NUL then "" else BehindNul(s[..|s| - 1]) + [s[|s| - 1]]
  }

  lemma {:induction false} BehindNulIs(a: string, x: string)
    requires forall i :: 0 <= i < |x| ==> x[i] != NUL
    ensures BehindNul(a + [NUL] + x) == x
    decreases |x|
  {
    var s := a + [NUL] + x;
    if x == "" {
      assert s == a + [NUL];
    } else {
      assert s[..|s| - 1] == a + [NUL] + x[..|x| - 1];
      BehindNulIs(a, x[..|x| - 1]);
    }
  }

  /** The last NUL splits a key: no count holds one. */
  lemma LastNulSplits(a: string, x: string, b: string, y: string)
    requires IsDigits(x) && IsDigits(y) && a + [NUL] + x == b + [NUL] + y
    ensures a == b && x == y
  {
    BehindNulIs(a, x);
    BehindNulIs(b, y);
    assert (a + [NUL] + x)[..|a|] == a && (b + [NUL] + y)[..|b|] == b;
  }

  /** What two equal keys say of two texts, whatever their size: that they agree apart from
      what is stripped, when both are within the limit; that they agree in as much as
      fits the limit and in their count, when both are over it; nothing else is equal. */
  lemma KeysEqualExactly(s: string, t: string, mode: KeyMode)
    ensures var (u, v) := (Stripped(s, mode), Stripped(t, mode));
      KeyOf(u) == KeyOf(v) <==>
        InLimit(s, mode) == InLimit(t, mode)
        && if InLimit(s, mode) then u == v else Bounded(u) == Bounded(v) && |u| == |v|
  {
    hide Stripped, Size, Bounded, Itoa;
    var u, v := Stripped(s, mode), Stripped(t, mode);
    if InLimit(s, mode) && !InLimit(t, mode) {
      OverLimitNeverEqual(s, t, mode);
    } else if !InLimit(s, mode) && InLimit(t, mode) {
      OverLimitNeverEqual(t, s, mode);
    } else if !InLimit(s, mode) && KeyOf(u) == KeyOf(v) {
      ItoaDigits(|u|);
      ItoaDigits(|v|);
      LastNulSplits(Bounded(u), Itoa(|u|), Bounded(v), Itoa(|v|));
      ItoaInjective(|u|, |v|);
    }
  }

  // ── rows ─────────────────────────────────────────────────────────────────

  datatype StyledRow = StyledRow(text: string, faint: seq<bool>)

  predicate IsFaint(r: StyledRow, i: nat) {
    i < |r.faint| && r.faint[i]
  }

  /** The runes of a row from position i on that are not faint. */
  function Visible(r: StyledRow, i: nat): string
    requires i <= |r.text|
    decreases |r.text| - i
  {
    if i == |r.text| then ""
    else (if IsFaint(r, i) then "" else [r.text[i]]) + Visible(r, i + 1)
  }

  predicate IsPad(c: char) {
    c == ' ' || c == NBSP
  }

  function TrimRight(s: string, newline: bool): (t: string)
    ensures t <= s
  {
    if s == "" then ""
    else
      var last := s[|s| - 1];
      if (if newline then last == '\n' else IsPad(last)) then TrimRight(s[..|s| - 1], newline) else s
  }

  function Min(a: nat, b: nat): nat {
    if a < b then a else b
  }

  /** visibleText, skipping the row's glyph or indent. */
  function Shown(r: StyledRow, skip: nat): string {
    TrimRight(Visible(r, Min(skip, |r.text|)), false)
  }

  method VisibleText(r: StyledRow, skip: nat) returns (s: string)
    ensures s == Shown(r, skip)
  {
    var b := "";
    var from := Min(skip, |r.text|);
    for i := 0 to |r.text|
      invariant i <= from ==> b == ""
      invariant i >= from ==> b + Visible(r, i) == Visible(r, from)
    {
      if i >= skip && (i >= |r.faint| || !r.faint[i]) {
        b := b + [r.text[i]];
      }
    }
    assert b + Visible(r, |r.text|) == b;
    s := TrimRight(b, false);
  }

  function SkipOf(r: StyledRow): nat {
    if "  " <= r.text then 2 else 0
  }

  function Lines(rest: seq<StyledRow>): string {
    if rest == [] then "" else "\n" + Shown(rest[0], SkipOf(rest[0])) + Lines(rest[1..])
  }

  lemma {:induction false} LinesAppend(rest: seq<StyledRow>, r: StyledRow)
    ensures Lines(rest + [r]) == Lines(rest) + "\n" + Shown(r, SkipOf(r))
  {
    if rest == [] {
      assert (rest + [r])[1..] == [];
    } else {
      assert (rest + [r])[0] == rest[0] && (rest + [r])[1..] == rest[1..] + [r];
      LinesAppend(rest[1..], r);
    }
  }

  /** joinRows */
  method JoinRows(first: StyledRow, firstSkip: nat, rest: seq<StyledRow>) returns (s: string)
    ensures s == TrimRight(Shown(first, firstSkip) + Lines(rest), true)
  {
    hide Shown, Visible, TrimRight;
    var joined := VisibleText(first, firstSkip);
    for i := 0 to |rest|
      invariant joined == Shown(first, firstSkip) + Lines(rest[..i])
    {
      var skip := 0;
      if "  " <= rest[i].text {
        skip := 2;
      }
      var part := VisibleText(rest[i], skip);
      joined := joined + "\n" + part;
      assert rest[..i + 1] == rest[..i] + [rest[i]];
      LinesAppend(rest[..i], rest[i]);
    }
    assert rest[..|rest|] == rest;
    s := TrimRight(joined, true);
  }

  /** How many runes to skip to a prompt row's text; None is no prompt row. */
  datatype PromptStart = NoPrompt | PromptAt(skip: nat, shell: bool)

  function PromptRowStart(r: StyledRow): PromptStart {
    if r.text == "" || (r.text[0] != '\U{276F}' && r.text[0] != '!') then NoPrompt
    else
      var shell := r.text[0] == '!';
      if |r.text| == 1 then PromptAt(1, shell)
      else if IsPad(r.text[1]) then PromptAt(2, shell)
      else NoPrompt
  }

  // ── wrap independence ────────────────────────────────────────────────────

  /** The pieces of a text with blanks between them: how a text is wrapped, or cut at
      its newlines. */
  function Woven(pieces: seq<string>, blanks: seq<string>): string
    requires |pieces| == |blanks| + 1
  {
    if blanks == [] then pieces[0] else pieces[0] + blanks[0] + Woven(pieces[1..], blanks[1..])
  }

  predicate Blank(s: string) {
    forall i :: 0 <= i < |s| ==> IsSpace(s[i])
  }

  /** Rows that show the pieces, the first after a prompt glyph and one pad, the others
      indented by two spaces, nothing faint. */
  predicate Drawn(first: StyledRow, rest: seq<StyledRow>, pieces: seq<string>) {
    && |pieces| == |rest| + 1
    && PromptRowStart(first).PromptAt?
    && |first.text| >= 2 && first.text[2..] == pieces[0] && NotFaint(first)
    && forall i :: 0 <= i < |rest| ==> rest[i].text == "  " + pieces[i + 1] && NotFaint(rest[i])
  }

  predicate NotFaint(r: StyledRow) {
    forall i :: 0 <= i < |r.faint| ==> !r.faint[i]
  }

  lemma {:induction false} BlankStrips(s: string, mode: KeyMode)
    requires Blank(s)
    ensures Stripped(s, mode) == ""
  {
    if s != "" {
      BlankStrips(s[1..], mode);
    }
  }

  lemma {:induction false} TrimStrips(s: string, newline: bool, mode: KeyMode)
    ensures Stripped(TrimRight(s, newline), mode) == Stripped(s, mode)
    decreases |s|
  {
    if s != "" {
      var u, last := s[..|s| - 1], s[|s| - 1];
      assert s == u + [last];
      StrippedConcat(u, [last], mode);
      StrippedOne(last, mode);
      TrimStrips(u, newline, mode);
    }
  }

  lemma {:induction false} VisibleWhole(r: StyledRow, i: nat)
    requires NotFaint(r) && i <= |r.text|
    ensures Visible(r, i) == r.text[i..]
    decreases |r.text| - i
  {
    if i < |r.text| {
      VisibleWhole(r, i + 1);
    }
  }

  lemma ShownStrips(r: StyledRow, skip: nat, mode: KeyMode)
    requires NotFaint(r) && skip <= |r.text|
    ensures Stripped(Shown(r, skip), mode) == Stripped(r.text[skip..], mode)
  {
    VisibleWhole(r, skip);
    TrimStrips(Visible(r, skip), false, mode);
  }

  /** All the pieces, one after the other. */
  function Concat(pieces: seq<string>): string {
    if pieces == [] then "" else pieces[0] + Concat(pieces[1..])
  }

  lemma {:induction false} WovenStrips(pieces: seq<string>, blanks: seq<string>, mode: KeyMode)
    requires |pieces| == |blanks| + 1 && forall i :: 0 <= i < |blanks| ==> Blank(blanks[i])
    ensures Stripped(Woven(pieces, blanks), mode) == Stripped(pieces[0], mode) + Stripped(Concat(pieces[1..]), mode)
    decreases blanks
  {
    hide Stripped;
    if blanks == [] {
      assert pieces[1..] == [];
      BlankStrips("", mode);
    } else {
      var tail := Woven(pieces[1..], blanks[1..]);
      StrippedConcat(pieces[0] + blanks[0], tail, mode);
      StrippedConcat(pieces[0], blanks[0], mode);
      BlankStrips(blanks[0], mode);
      WovenStrips(pieces[1..], blanks[1..], mode);
      StrippedConcat(pieces[1], Concat(pieces[1..][1..]), mode);
    }
  }

  lemma {:induction false} LinesStrip(rest: seq<StyledRow>, pieces: seq<string>, mode: KeyMode)
    requires |pieces| == |rest|
    requires forall i :: 0 <= i < |rest| ==> rest[i].text == "  " + pieces[i] && NotFaint(rest[i])
    ensures Stripped(Lines(rest), mode) == Stripped(Concat(pieces), mode)
    decreases rest
  {
    if rest != [] {
      var shown := Shown(rest[0], 2);
      assert "  " <= rest[0].text;
      assert rest[0].text[2..] == pieces[0];
      ShownStrips(rest[0], 2, mode);
      StrippedConcat("\n" + shown, Lines(rest[1..]), mode);
      StrippedConcat("\n", shown, mode);
      StrippedOne('\n', mode);
      LinesStrip(rest[1..], pieces[1..], mode);
      StrippedConcat(pieces[0], Concat(pieces[1..]), mode);
    }
  }

  /** However a text is cut into rows, the rows' key is the text's. */
  lemma WrapIndependent(first: StyledRow, rest: seq<StyledRow>, pieces: seq<string>, blanks: seq<string>, mode: KeyMode)
    requires Drawn(first, rest, pieces) && |pieces| == |blanks| + 1
    requires forall i :: 0 <= i < |blanks| ==> Blank(blanks[i])
    ensures PromptRowStart(first).PromptAt?
    ensures var joined := TrimRight(Shown(first, PromptRowStart(first).skip) + Lines(rest), true);
      KeyOf(Stripped(joined, mode)) == KeyOf(Stripped(Woven(pieces, blanks), mode))
  {
    hide Stripped, KeyOf, Visible, TrimRight, Woven, Lines, Shown, Concat;
    var shown := Shown(first, 2);
    TrimStrips(shown + Lines(rest), true, mode);
    StrippedConcat(shown, Lines(rest), mode);
    ShownStrips(first, 2, mode);
    LinesStrip(rest, pieces[1..], mode);
    WovenStrips(pieces, blanks, mode);
  }
}
