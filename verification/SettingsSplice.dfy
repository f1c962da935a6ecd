/**
Splicing one `--settings=…` word into a lexed line.

Both forms of the rewrite replace a span of the line by one single-quoted word:
after the claude word (with a blank in front), or over the tokens of an existing
flag. The line then lexes to the old tokens with exactly that word in place of
those spliced out, everything behind it only shifted.
*/
module SettingsSplice {
  import opened Wrappers
  import opened ShellLexer
  import opened ShellLocality
  import ShellGrammar

  const FLAG := "--settings"

  /** `--settings=` with its value as one single-quoted shell word. */
  function FlagWord(value: string): string {
    FLAG + "=" + "'" + value + "'"
  }

  function FlagTok(value: string, start: nat): Tok {
    Tok(Word, start, start + |FlagWord(value)|, FLAG + "=" + value, true, false)
  }

  /** A byte the word loop copies as it is. */
  predicate IsPlain(c: char) {
    !IsMeta(c) && c != '\'' && c != '"' && c != '\\' && c != '$' && c != '`'
  }

  /** What may follow a word. */
  predicate EndsWord(rest: string) {
    rest == "" || IsMeta(rest[0])
  }

  lemma PlainPiece(u: string)
    requires u != "" && IsPlain(u[0])
    ensures WordPiece(u) == Some(Scan(1, [u[0]], true))
  {
    hide Double, Expansion, IndexByte;
  }

  lemma ConsCons(c: char, p: string, rest: Option<Scan>)
    ensures Cons(1, [c], true, Cons(|p|, p, true, rest)) == Cons(1 + |p|, [c] + p, true, rest)
  {
    if rest.Some? {
      assert [c] + (p + rest.value.lit) == [c] + p + rest.value.lit;
    }
  }

  lemma ConsEmpty(rest: Option<Scan>)
    ensures Cons(0, "", true, rest) == rest
  {
    if rest.Some? {
      assert "" + rest.value.lit == rest.value.lit;
    }
  }

  lemma {:induction false} PlainPrefix(p: string, rest: string)
    requires forall i :: 0 <= i < |p| ==> IsPlain(p[i])
    ensures ReadWord(p + rest) == Cons(|p|, p, true, ReadWord(rest))
  {
    hide WordPiece, Cons;
    if p == "" {
      assert p + rest == rest;
      ConsEmpty(ReadWord(rest));
    } else {
      PlainPrefix(p[1..], rest);
      assert (p + rest)[1..] == p[1..] + rest;
      assert p == [p[0]] + p[1..];
      PlainPiece(p + rest);
      ConsCons(p[0], p[1..], ReadWord(rest));
    }
  }

  /** A single-quoted text is the word of exactly that text. */
  lemma QuotedWord(v: string, rest: string)
    requires '\'' !in v && EndsWord(rest)
    ensures ReadWord("'" + v + "'" + rest) == Some(Scan(|v| + 2, v, true))
  {
    hide WordPiece;
    var u := "'" + v + "'" + rest;
    ShellGrammar.SingleTurn(v, rest);
    assert u[|v| + 2..] == rest;
    assert v + "" == v;
  }

  lemma FlagWordRead(v: string, rest: string)
    requires '\'' !in v && EndsWord(rest)
    ensures ReadWord(FlagWord(v) + rest) == Some(Scan(|FlagWord(v)|, FLAG + "=" + v, true))
  {
    hide ReadWord;
    assert FlagWord(v) + rest == FLAG + "=" + ("'" + v + "'" + rest);
    QuotedWord(v, rest);
    PlainPrefix(FLAG + "=", "'" + v + "'" + rest);
  }

  lemma FlagIsNoAssignment(v: string)
    ensures !AssignName(FlagWord(v))
  {
    assert FlagWord(v)[0] == '-';
    assert !IsNameChar(FlagWord(v)[0], true);
  }

  lemma FlagWordStep(v: string, rest: string)
    requires '\'' !in v && EndsWord(rest)
    ensures NextStep(FlagWord(v) + rest) == Token(Word, |FlagWord(v)|, FLAG + "=" + v, true)
  {
    hide ReadWord, ReadRedir;
    var u := FlagWord(v) + rest;
    assert u[0] == '-';
    FlagWordRead(v, rest);
  }

  /** The spliced word lexes to its one token, and lexing resumes behind it. */
  lemma FlagWordLex(v: string, rest: string, off: nat)
    requires '\'' !in v && EndsWord(rest)
    ensures Lex(FlagWord(v) + rest, off)
         == Append([FlagTok(v, off)], Lex(rest, off + |FlagWord(v)|))
  {
    hide NextStep, AssignName, FlagWord;
    var f := FlagWord(v);
    var u := f + rest;
    FlagWordStep(v, rest);
    FlagIsNoAssignment(v);
    assert u[|f|..] == rest && u[..|f|] == f;
  }

  // ── the bytes at a token's ends ──────────────────────────────────────────

  lemma StepBytes(u: string)
    requires u != "" && NextStep(u).Token?
    ensures NextStep(u).kind == Word ==> !IsMeta(u[0])
  {
    hide ReadWord, ReadRedir;
  }

  lemma {:induction false} TokenBytes(u: string, off: nat, k: nat)
    requires Lex(u, off).Some? && k < |Lex(u, off).value|
    ensures var t := Lex(u, off).value[k];
      && off <= t.start < t.end <= off + |u|
      && (t.kind == Word ==> !IsMeta(u[t.start - off]))
      && (t.kind != Op ==> EndsWord(u[t.end - off..]))
    decreases |u|
  {
    hide NextStep, AssignName;
    var ts, st := Lex(u, off).value, NextStep(u);
    var rest := Lex(u[st.n..], off + st.n).value;
    if st.Skip? {
      TokenBytes(u[st.n..], off + st.n, k);
      assert u[st.n..][ts[k].end - (off + st.n)..] == u[ts[k].end - off..];
    } else {
      assert ts == [MakeTok(u, off, st)] + rest;
      if k == 0 {
        StepBytes(u);
      } else {
        TokenBytes(u[st.n..], off + st.n, k - 1);
        assert u[st.n..][ts[k].end - (off + st.n)..] == u[ts[k].end - off..];
      }
    }
  }

  // ── the splice ───────────────────────────────────────────────────────────

  /** toks with the tokens [a, b) replaced by t and those behind shifted by d. */
  function Spliced(toks: seq<Tok>, a: nat, b: nat, t: Tok, d: int): seq<Tok>
    requires a <= b <= |toks|
    requires forall i :: b <= i < |toks| ==> toks[i].start + d >= 0 && toks[i].end + d >= 0
  {
    toks[..a] + [t] + ShiftToks(toks[b..], d)
  }

  /** Text that lexes alone lexes alike in front of the rest of the line. */
  lemma LexSplice(line: string, toks: seq<Tok>, a: nat, b: nat, p: nat, q: nat, lead: string, v: string)
    requires Lex(line, 0) == Some(toks) && a <= b <= |toks| && p <= q <= |line|
    requires LexTo(line, 0, p) == Some(toks[..a]) && LexTo(line, 0, q) == Some(toks[..b])
    requires lead == "" || lead == " "
    requires '\'' !in v && EndsWord(line[q..])
    requires var line' := line[..p] + lead + FlagWord(v) + line[q..];
      LexTo(line', 0, p) == Some(toks[..a])
    ensures var line' := line[..p] + lead + FlagWord(v) + line[q..];
      var d := |line'| - |line|;
      && (forall i :: b <= i < |toks| ==> toks[i].start >= q && toks[i].end >= q)
      && q + d >= 0
      && Lex(line', 0) == Some(Spliced(toks, a, b, FlagTok(v, p + |lead|), d))
  {
    hide NextStep, FlagWord, FlagTok, LexTo, Lex;
    var line' := line[..p] + lead + FlagWord(v) + line[q..];
    var d := |line'| - |line|;
    var behind := FlagWord(v) + line[q..];
    var at := p + |lead|;
    LexSplit(line', 0, p);
    assert line'[p..] == lead + behind;
    assert Lex(line'[p..], p) == Lex(behind, at) by {
      LexLead(lead, behind, p);
    }
    FlagWordLex(v, line[q..], at);
    LexSplit(line, 0, q);
    var tail := Lex(line[q..], q).value;
    assert toks == toks[..b] + tail;
    assert tail == toks[b..];
    LexShift(line[q..], q, d);
    assert forall i :: b <= i < |toks| ==> toks[i] == tail[i - b];
    assert q + d == at + |FlagWord(v)|;
    assert toks[..a] + ([FlagTok(v, at)] + ShiftToks(tail, d))
        == toks[..a] + [FlagTok(v, at)] + ShiftToks(tail, d);
  }

  /** A blank in front of a word is skipped. */
  lemma LexLead(lead: string, u: string, off: nat)
    requires lead == "" || lead == " "
    ensures Lex(lead + u, off) == Lex(u, off + |lead|)
  {
    hide ReadWord, ReadRedir;
    if lead == "" {
      assert lead + u == u;
    } else {
      assert (lead + u)[1..] == u;
    }
  }

  /** The line with the flag inserted after its word token c. */
  function Inserted(line: string, at: nat, v: string): string
    requires at <= |line|
  {
    line[..at] + " " + FlagWord(v) + line[at..]
  }

  lemma LexInserted(line: string, toks: seq<Tok>, c: nat, v: string)
    requires Lex(line, 0) == Some(toks) && c < |toks| && toks[c].kind == Word
    requires '\'' !in v
    ensures toks[c].end <= |line|
    ensures var line' := Inserted(line, toks[c].end, v);
      var d := |line'| - |line|;
      && d >= 0
      && Lex(line', 0) == Some(Spliced(toks, c + 1, c + 1, FlagTok(v, toks[c].end + 1), d))
  {
    hide NextStep, AssignName, FlagWord, FlagTok;
    TokenCuts(line, 0, c);
    TokenBytes(line, 0, c);
    var p := toks[c].end;
    var line' := Inserted(line, p, v);
    assert CutAlike(line, line', p, true) by {
      assert line'[p] == ' ';
    }
    assert EndsInWord(toks[..c + 1], p);
    LexToStable(line, line', 0, p, true);
    assert line' == line[..p] + " " + FlagWord(v) + line[p..];
    LexSplice(line, toks, c + 1, c + 1, p, p, " ", v);
  }

  lemma FlagWordStart(v: string)
    ensures |FlagWord(v)| > 0 && FlagWord(v)[0] == '-'
  {}

  /** The line with the text [start, end) replaced by the flag. */
  function Replaced(line: string, start: nat, end: nat, v: string): string
    requires start <= end <= |line|
  {
    line[..start] + FlagWord(v) + line[end..]
  }

  lemma LexReplaced(line: string, toks: seq<Tok>, a: nat, b: nat, v: string)
    requires Lex(line, 0) == Some(toks) && a < b <= |toks|
    requires toks[a].kind == Word && toks[b - 1].kind == Word
    requires toks[a].start <= toks[b - 1].end
    requires '\'' !in v
    ensures toks[b - 1].end <= |line|
    ensures var line' := Replaced(line, toks[a].start, toks[b - 1].end, v);
      var d := |line'| - |line|;
      && (forall i :: b <= i < |toks| ==> toks[i].start + d >= 0 && toks[i].end + d >= 0)
      && Lex(line', 0) == Some(Spliced(toks, a, b, FlagTok(v, toks[a].start), d))
  {
    hide NextStep, AssignName, FlagTok, LexTo, Lex, FlagWord;
    TokenCuts(line, 0, a);
    TokenBytes(line, 0, a);
    TokenCuts(line, 0, b - 1);
    TokenBytes(line, 0, b - 1);
    var p, q := toks[a].start, toks[b - 1].end;
    var line' := Replaced(line, p, q, v);
    assert CutAlike(line, line', p, false) by {
      FlagWordStart(v);
      assert line'[p] == FlagWord(v)[0];
    }
    LexToStable(line, line', 0, p, false);
    assert line[..p] + "" == line[..p];
    assert line' == line[..p] + "" + FlagWord(v) + line[q..];
    LexSplice(line, toks, a, b, p, q, "", v);
  }
}
