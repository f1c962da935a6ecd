/**
The editor-mode rewrite (mux/claude_launch.go:580-742) and what it keeps.

A direct invocation is rewritten so that the last --settings it is given carries
the merged settings. The rewrite edits the shell string; the theorems here read
the edited string back with the same lexer and the same analysis, and find the
same command with exactly that one argument changed.

`merge` is mergeEditorMode: a JSON object with editorMode set, or None when the
text is not one. `copy` is the private copy of a settings FILE: settingsPath,
readSettingsFile, the merge and writeSettingsCopy together, or None when any of
them refuses.
*/
module SettingsRewrite {
  import opened Wrappers
  import opened ShellLexer
  import opened ShellLocality
  import opened SettingsSplice
  import opened ClaudeSplice
  import opened ClaudeSettings
  import opened JsonQuote

  type Merge = string -> Option<string>
  type Copy = Use -> Option<string>

  // ── the decision ─────────────────────────────────────────────────────────

  function TrimJsonSpace(v: string): string {
    if v != "" && (v[0] == ' ' || v[0] == '\t' || v[0] == '\n' || v[0] == '\r') then TrimJsonSpace(v[1..]) else v
  }

  /** The value is JSON text and not a path. */
  predicate IsInline(v: string) {
    "{" <= TrimJsonSpace(v)
  }

  /** What the last occurrence is replaced by, inside its quotes. */
  function NewValue(use: Use, merge: Merge, copy: Copy): Option<string> {
    if IsInline(use.value) then
      match merge(use.value)
      case None => None
      case Some(m) => Some(EscapeJson(m))
    else copy(use)
  }

  // ── the last occurrence ──────────────────────────────────────────────────

  /** The last occurrence is a token or two in the middle of the invocation, its
      span is theirs, and behind it there is no other. */
  lemma {:induction false} LastFlagIs(line: string, toks: seq<Tok>, i: nat)
    requires SpansOk(line, toks) && i <= |toks| && Settings(line, toks, i).Some?
    ensures Settings(line, toks, i).value == [] <==> LastFlag(line, toks, i).None?
    ensures LastFlag(line, toks, i).Some? ==>
      var us := Settings(line, toks, i).value;
      var (a, b) := LastFlag(line, toks, i).value;
      && us != [] && i <= a < b <= |toks| && NoOp(toks[i..b])
      && ReadArg(line, toks, a) == Flag(us[|us| - 1], b - a)
      && toks[a].kind == Word
      && Settings(line, toks, b) == Some([])
    decreases |toks| - i
  {
    hide ReadArg, SpansOk;
    if i < |toks| && toks[i].kind != Op {
      var step := if toks[i].kind == Redir then Plain else ReadArg(line, toks, i);
      if step.Plain? || step.Flag? {
        var next := if step.Plain? then i + 1 else i + step.width;
        LastFlagIs(line, toks, next);
        if step.Flag? {
          FlagTokens(line, toks, i);
        }
        var last := LastFlag(line, toks, i);
        if last.Some? {
          NoOpJoin(toks, i, next, last.value.1);
        }
      }
    }
  }

  lemma FlagTokens(line: string, toks: seq<Tok>, i: nat)
    requires SpansOk(line, toks) && i < |toks| && toks[i].kind == Word
    ensures var r := ReadArg(line, toks, i);
      r.Flag? ==>
        && NoOp(toks[i..i + r.width])
        && toks[i + r.width - 1].kind == Word
        && r.use.start == toks[i].start && r.use.end == toks[i + r.width - 1].end
        && WordVals(toks[i..i + r.width]) == (if r.width == 1 then [toks[i].lit] else [toks[i].lit, toks[i + 1].lit])
        && FLAG <= toks[i].lit && (r.width == 2 ==> toks[i + 1].lit != "" && toks[i + 1].lit[0] != '-')
  {
    var r := ReadArg(line, toks, i);
    if r.Flag? {
      var ts := toks[i..i + r.width];
      assert ts[0] == toks[i];
      if r.width == 1 {
        assert ts[1..] == [];
        assert (FLAG + "=")[..|FLAG|] == FLAG;
        assert toks[i].lit[..|FLAG| + 1] == FLAG + "=";
        assert toks[i].lit[..|FLAG|] == FLAG;
      } else {
        assert ts[1..] == [toks[i + 1]];
        assert [toks[i + 1]][1..] == [];
        assert WordVals([toks[i + 1]]) == [toks[i + 1].lit];
      }
    }
  }

  lemma LastUseInLine(line: string, toks: seq<Tok>, i: nat)
    requires SpansOk(line, toks) && i <= |toks| && Settings(line, toks, i).Some?
    ensures var us := Settings(line, toks, i).value;
      us != [] ==> us[|us| - 1].start <= us[|us| - 1].end <= |line|
  {
    hide ReadArg, Settings, LastFlag;
    LastFlagIs(line, toks, i);
    var last := LastFlag(line, toks, i);
    if last.Some? {
      FlagTokens(line, toks, last.value.0);
    }
  }

  lemma NoOpJoin(toks: seq<Tok>, i: nat, j: nat, k: nat)
    requires i <= j <= k <= |toks|
    ensures NoOp(toks[i..j]) && NoOp(toks[j..k]) ==> NoOp(toks[i..k])
  {
    assert toks[i..k] == toks[i..j] + toks[j..k];
  }

  // ── the rewrite ──────────────────────────────────────────────────────────

  /** The tokens the rewrite replaces: the last occurrence, or the empty range
      just behind the claude word. */
  function Range(line: string, toks: seq<Tok>, claude: nat): (nat, nat)
    requires SpansOk(line, toks)
  {
    match LastFlag(line, toks, claude + 1)
    case None => (claude + 1, claude + 1)
    case Some(r) => r
  }

  datatype Edit = Edit(line: string, value: string)

  /** The rewritten shell string of a direct invocation, or None: unparsed. */
  function RewriteLine(line: string, toks: seq<Tok>, claude: nat, merge: Merge, copy: Copy): Option<Edit>
    requires Lex(line, 0) == Some(toks) && claude < |toks|
  {
    LexedSpansOk(line, toks);
    match Settings(line, toks, claude + 1)
    case None => None
    case Some(uses) =>
      LastFlagIs(line, toks, claude + 1);
      if uses == [] then
        match merge("{}")
        case None => None
        case Some(m) => Some(Edit(Inserted(line, toks[claude].end, EscapeJson(m)), EscapeJson(m)))
      else
        var use := uses[|uses| - 1];
        FlagTokens(line, toks, LastFlag(line, toks, claude + 1).value.0);
        match NewValue(use, merge, copy)
        case None => None
        case Some(v) => Some(Edit(Replaced(line, use.start, use.end, v), v))
  }

  /** writeSettingsCopy refuses a directory with a quote in it and names the copy
      itself, so a copy's path can be single-quoted. */
  ghost predicate Quotable(copy: Copy) {
    forall u :: copy(u).Some? ==> '\'' !in copy(u).value
  }

  /** Where the flag word stands in the rewritten line. */
  function FlagStart(line: string, toks: seq<Tok>, claude: nat): nat
    requires SpansOk(line, toks) && claude < |toks|
  {
    match LastFlag(line, toks, claude + 1)
    case None => toks[claude].end + 1
    case Some((a, _)) => if a < |toks| then toks[a].start else 0
  }

  /** toks' are toks with the range replaced by the one flag word for v, and
      everything behind it shifted by the difference in length. */
  predicate OneWordReplaced(line: string, toks: seq<Tok>, claude: nat, v: string, line': string, toks': seq<Tok>)
    requires SpansOk(line, toks) && claude < |toks|
  {
    var (a, b) := Range(line, toks, claude);
    var d := |line'| - |line|;
    && claude < a <= b <= |toks| && NoOp(toks[claude + 1..b])
    && (forall k :: b <= k < |toks| ==> toks[k].start + d >= 0 && toks[k].end + d >= 0)
    && toks' == Spliced(toks, a, b, FlagTok(v, FlagStart(line, toks, claude)), d)
  }

  lemma InsertionLexes(line: string, toks: seq<Tok>, claude: nat, v: string)
    requires Lex(line, 0) == Some(toks) && claude < |toks| && toks[claude].kind == Word
    requires SpansOk(line, toks) && LastFlag(line, toks, claude + 1).None? && '\'' !in v
    ensures var line' := Inserted(line, toks[claude].end, v);
      && Lex(line', 0).Some?
      && OneWordReplaced(line, toks, claude, v, line', Lex(line', 0).value)
  {
    hide Lex, FlagTok, SpansOk, LastFlag, Inserted;
    LexInserted(line, toks, claude, v);
  }

  lemma ReplacementLexes(line: string, toks: seq<Tok>, claude: nat, v: string)
    requires Lex(line, 0) == Some(toks) && claude < |toks|
    requires SpansOk(line, toks) && Settings(line, toks, claude + 1).Some? && '\'' !in v
    requires LastFlag(line, toks, claude + 1).Some?
    ensures var us := Settings(line, toks, claude + 1).value;
      && us != []
      && var use := us[|us| - 1];
      && use.start <= use.end <= |line|
      && var line' := Replaced(line, use.start, use.end, v);
      && Lex(line', 0).Some?
      && OneWordReplaced(line, toks, claude, v, line', Lex(line', 0).value)
  {
    hide Lex, FlagTok, Settings, LastFlag, Replaced, ReadArg;
    LastFlagIs(line, toks, claude + 1);
    var (a, b) := LastFlag(line, toks, claude + 1).value;
    FlagTokens(line, toks, a);
    LexReplaced(line, toks, a, b, v);
  }

  /** The rewritten line lexes, to the old tokens with one word replaced. */
  lemma RewriteLexes(line: string, toks: seq<Tok>, claude: nat, merge: Merge, copy: Copy)
    requires Lex(line, 0) == Some(toks) && claude < |toks| && toks[claude].kind == Word
    requires Quotable(copy)
    requires RewriteLine(line, toks, claude, merge, copy).Some?
    ensures SpansOk(line, toks)
    ensures var e := RewriteLine(line, toks, claude, merge, copy).value;
      && Lex(e.line, 0).Some?
      && OneWordReplaced(line, toks, claude, e.value, e.line, Lex(e.line, 0).value)
  {
    hide Lex, Settings, LastFlag, ReplaceAll, Inserted, Replaced, SpansOk, OneWordReplaced;
    LexedSpansOk(line, toks);
    LastFlagIs(line, toks, claude + 1);
    var uses := Settings(line, toks, claude + 1).value;
    if uses == [] {
      EscapeJsonMeans(merge("{}").value);
      InsertionLexes(line, toks, claude, EscapeJson(merge("{}").value));
    } else {
      var use := uses[|uses| - 1];
      if IsInline(use.value) {
        EscapeJsonMeans(merge(use.value).value);
      }
      ReplacementLexes(line, toks, claude, NewValue(use, merge, copy).value);
    }
  }

  // ── what Claude is given ─────────────────────────────────────────────────

  /** With no occurrence ahead, moved text has none either. */
  lemma {:induction false} NoSettingsMoved(line: string, xs: seq<Tok>, i: nat, line': string, ys: seq<Tok>, j: nat)
    requires SpansOk(line, xs) && SpansOk(line', ys) && i <= |xs| && j <= |ys|
    requires SameToks(xs[i..], ys[j..])
    requires Settings(line, xs, i) == Some([])
    ensures Settings(line', ys, j) == Some([])
    decreases |xs| - i
  {
    hide SpansOk;
    if i < |xs| {
      assert xs[i..][0] == xs[i] && ys[j..][0] == ys[j];
      assert xs[i..][1..] == xs[i + 1..] && ys[j..][1..] == ys[j + 1..];
      if xs[i].kind == Redir || (xs[i].kind == Word && ReadArg(line, xs, i).Plain?) {
        NoSettingsMoved(line, xs, i + 1, line', ys, j + 1);
      }
    }
  }

  /** The new word is read as one occurrence with exactly the new value. */
  lemma FlagWordIsUse(line: string, toks: seq<Tok>, i: nat, v: string)
    requires SpansOk(line, toks) && i < |toks| && toks[i] == FlagTok(v, toks[i].start)
    requires line[toks[i].start..toks[i].end] == FlagWord(v)
    ensures ReadArg(line, toks, i) == Flag(Use(v, false, toks[i].start, toks[i].end), 1)
  {
    var t := toks[i];
    assert t.lit[|FLAG| + 1..] == v;
    assert t.lit[..|FLAG| + 1] == FLAG + "=";
    assert |t.lit| > |FLAG|;
    assert t.lit != "--" && t.lit != FLAG;
    assert FlagWord(v)[11] == '\'';
    assert (FLAG + "=~/")[11] == '~';
  }

  lemma AgreeSlice(s: string, s': string, p: nat, x: nat, y: nat)
    requires p <= |s| && p <= |s'| && Agree(s, s', p) && x <= y <= p
    ensures s[x..y] == s'[x..y]
  {}

  lemma ReadArgBefore(line: string, toks: seq<Tok>, line': string, toks': seq<Tok>, i: nat, p: nat, a: nat)
    requires SpansOk(line, toks) && SpansOk(line', toks')
    requires i < a < |toks| && a < |toks'| && toks[..a] == toks'[..a]
    requires p == toks[a].start && Agree(line, line', p)
    requires var r := ReadArg(line, toks, i); r.Plain? || r.Stop? || (r.Flag? && i + r.width <= a)
    ensures ReadArg(line', toks', i) == ReadArg(line, toks, i)
  {
    forall k | 0 <= k < a
      ensures toks'[k] == toks[k] && toks[k].start <= toks[k].end <= p
    {
      assert toks[..a][k] == toks'[..a][k];
    }
    forall x: nat, y: nat | x <= y <= p
      ensures line[x..y] == line'[x..y]
    {
      AgreeSlice(line, line', p, x, y);
    }
  }

  /** Read back from any point in front of the replaced range, the occurrences are
      the old ones with the last one's value replaced. */
  lemma {:induction false} SettingsReplaced(line: string, toks: seq<Tok>, line': string, toks': seq<Tok>,
                                            i: nat, a: nat, b: nat, v: string, d: int)
    requires SpansOk(line, toks) && SpansOk(line', toks')
    requires i <= |toks| && Settings(line, toks, i).Some? && LastFlag(line, toks, i) == Some((a, b))
    requires a < b <= |toks|
    requires forall k :: b <= k < |toks| ==> toks[k].start + d >= 0 && toks[k].end + d >= 0
    requires toks' == Spliced(toks, a, b, FlagTok(v, toks[a].start), d)
    requires Agree(line, line', toks[a].start)
    requires line'[toks'[a].start..toks'[a].end] == FlagWord(v)
    ensures i <= a
    ensures var us := Settings(line, toks, i).value;
      && us != []
      && Settings(line', toks', i)
         == Some(us[..|us| - 1] + [Use(v, false, toks'[a].start, toks'[a].end)])
    decreases |toks| - i
  {
    hide SpansOk, ReadArg, FlagTok, FlagWord;
    LastFlagIs(line, toks, i);
    if i == a {
      SettingsAtFlag(line, toks, line', toks', a, b, v, d);
      var us, newUse := Settings(line, toks, i).value, [Use(v, false, toks'[a].start, toks'[a].end)];
      assert us[..|us| - 1] + newUse == newUse;
    } else {
      assert toks'[i] == toks[i];
      assert toks[..a] == toks'[..a];
      var step := if toks[i].kind == Redir then Plain else ReadArg(line, toks, i);
      var next := if step.Plain? then i + 1 else i + step.width;
      SettingsReplaced(line, toks, line', toks', next, a, b, v, d);
      if toks[i].kind == Word {
        ReadArgBefore(line, toks, line', toks', i, toks[a].start, a);
      }
      var rest, us := Settings(line, toks, next).value, Settings(line, toks, i).value;
      if step.Flag? {
        var newUse := [Use(v, false, toks'[a].start, toks'[a].end)];
        assert us == [step.use] + rest;
        assert us[..|us| - 1] == [step.use] + rest[..|rest| - 1];
        assert us[..|us| - 1] + newUse == [step.use] + (rest[..|rest| - 1] + newUse);
      }
    }
  }

  lemma SettingsAtFlag(line: string, toks: seq<Tok>, line': string, toks': seq<Tok>, a: nat, b: nat, v: string, d: int)
    requires SpansOk(line, toks) && SpansOk(line', toks')
    requires a < b <= |toks| && toks[a].kind == Word
    requires ReadArg(line, toks, a).Flag? && ReadArg(line, toks, a).width == b - a
    requires Settings(line, toks, b) == Some([])
    requires forall k :: b <= k < |toks| ==> toks[k].start + d >= 0 && toks[k].end + d >= 0
    requires toks' == Spliced(toks, a, b, FlagTok(v, toks[a].start), d)
    requires line'[toks'[a].start..toks'[a].end] == FlagWord(v)
    ensures |Settings(line, toks, a).value| == 1
    ensures Settings(line', toks', a) == Some([Use(v, false, toks'[a].start, toks'[a].end)])
  {
    hide SpansOk, ReadArg, FlagTok, FlagWord;
    FlagTokIsWord(v, toks[a].start);
    FlagWordIsUse(line', toks', a, v);
    assert SameToks(toks[b..], toks'[a + 1..]);
    NoSettingsMoved(line, toks, b, line', toks', a + 1);
    var u := Use(v, false, toks'[a].start, toks'[a].end);
    assert [u] + [] == [u];
    SettingsOfFlag(line', toks', a, u);
  }

  lemma SettingsOfFlag(line: string, toks: seq<Tok>, i: nat, u: Use)
    requires SpansOk(line, toks) && i < |toks| && toks[i].kind == Word
    requires ReadArg(line, toks, i) == Flag(u, 1)
    ensures Settings(line, toks, i) == ConsUse(u, Settings(line, toks, i + 1))
  {}

  lemma FlagTokIsWord(v: string, at: nat)
    ensures FlagTok(v, at).kind == Word && FlagTok(v, at).start == at
    ensures FlagTok(v, at).end == at + |FlagWord(v)|
  {}
}
