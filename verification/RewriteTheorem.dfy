/**
The rewrite keeps the command: read back with the same analysis, the rewritten
launch is the same direct claude invocation, with exactly one argument changed,
and that argument is the last --settings Claude sees.
*/
module RewriteTheorem {
  import opened Wrappers
  import opened ShellLexer
  import opened ShellLocality
  import opened ClaudeLaunch
  import opened SettingsSplice
  import opened ClaudeSplice
  import opened ClaudeSettings
  import opened SettingsRewrite
  import opened JsonQuote

  // ── print mode, help flags and subcommands ───────────────────────────────

  lemma {:induction false} HelpFlagConcat(xs: seq<string>, ys: seq<string>)
    ensures HasHelpFlag(xs + ys) <==> HasHelpFlag(xs) || ("--" !in xs && HasHelpFlag(ys))
  {
    if xs == [] {
      assert xs + ys == ys;
    } else {
      assert (xs + ys)[1..] == xs[1..] + ys;
      HelpFlagConcat(xs[1..], ys);
      assert "--" in xs <==> xs[0] == "--" || "--" in xs[1..];
    }
  }

  /** A value that neither ends the flags nor asks for help. */
  predicate IsInert(a: string) {
    a != "--" && !IsHelpFlag(a)
  }

  predicate AllInert(xs: seq<string>) {
    forall i :: 0 <= i < |xs| ==> IsInert(xs[i])
  }

  lemma {:induction false} InertValues(xs: seq<string>)
    requires AllInert(xs)
    ensures !HasHelpFlag(xs) && "--" !in xs
  {
    if xs != [] {
      InertValues(xs[1..]);
    }
  }

  /** Exchanging inert arguments for a flag word keeps the input box. */
  lemma BoxKept(front: seq<string>, before: seq<string>, flag: string, back: seq<string>)
    requires !NoInputBox(front + before + back)
    requires AllInert(before)
    requires FLAG + "=" <= flag
    ensures !NoInputBox(front + [flag] + back)
  {
    hide HasHelpFlag;
    assert flag[..11] == FLAG + "=";
    assert flag[0] == '-' && flag[2] == 's' && |flag| >= 11;
    assert IsInert(flag);
    InertValues(before);
    InertValues([flag]);
    HelpFlagConcat(front + before, back);
    HelpFlagConcat(front, before);
    HelpFlagConcat(front + [flag], back);
    HelpFlagConcat(front, [flag]);
    assert "--" in front + before <==> "--" in front;
    assert "--" in front + [flag] <==> "--" in front;
    var all := front + [flag] + back;
    if front == [] {
      assert all[0] == flag;
    } else {
      assert all[0] == front[0] == (front + before + back)[0];
    }
  }

  // ── the shell launch ─────────────────────────────────────────────────────

  lemma ReplacedWordIsInert(line: string, toks: seq<Tok>, claude: nat, i: nat)
    requires SpansOk(line, toks) && claude < |toks| && Settings(line, toks, claude + 1).Some?
    requires var (a, b) := Range(line, toks, claude);
      a <= b <= |toks| && i < |WordVals(toks[a..b])|
    ensures var (a, b) := Range(line, toks, claude); IsInert(WordVals(toks[a..b])[i])
  {
    hide Settings, LastFlag, ReadArg, WordVals;
    LastFlagIs(line, toks, claude + 1);
    var (a, b) := Range(line, toks, claude);
    if LastFlag(line, toks, claude + 1).None? {
      assert toks[a..b] == [];
      assert WordVals([]) == [] by {
        WordValsEmpty();
      }
    } else {
      FlagTokens(line, toks, a);
      var l := WordVals(toks[a..b])[i];
      assert l == toks[a].lit || (l != "" && l[0] != '-');
      if l == toks[a].lit {
        assert l[..|FLAG|] == FLAG;
        assert l[2] == 's' && |l| >= 10;
      }
    }
  }

  lemma WordValsEmpty()
    ensures WordVals([]) == []
  {}

  /** The rewritten tokens hold the claude word where it was, alone, and still
      show an input box. */
  lemma RewriteStaysDirect(line: string, toks: seq<Tok>, claude: nat, v: string, line': string, toks': seq<Tok>)
    requires SpansOk(line, toks) && claude < |toks| && Settings(line, toks, claude + 1).Some?
    requires ClaudeWords(toks) == [claude]
    requires OneWordReplaced(line, toks, claude, v, line', toks')
    requires LaunchOfToks(line, toks).direct
    ensures LaunchOfToks(line', toks').direct && LaunchOfToks(line', toks').claude == claude
    ensures var (a, b) := Range(line, toks, claude);
      && ArgVals(toks, claude + 1)
         == WordVals(toks[claude + 1..a]) + WordVals(toks[a..b]) + ArgVals(toks, b)
      && ArgVals(toks', claude + 1)
         == WordVals(toks[claude + 1..a]) + [FLAG + "=" + v] + ArgVals(toks, b)
  {
    hide Settings, LastFlag, ReadArg, ClaudeWords, SpansOk, WordVals, NoInputBox, ArgWords, Vals;
    var (a, b) := Range(line, toks, claude);
    var d := |line'| - |line|;
    var t := FlagTok(v, FlagStart(line, toks, claude));
    ClaudeWordsSpliced(toks, claude, a, b, t, d);
    ArgValsSpliced(toks, claude, a, b, t, d);
    forall i | 0 <= i < |WordVals(toks[a..b])|
      ensures IsInert(WordVals(toks[a..b])[i])
    {
      ReplacedWordIsInert(line, toks, claude, i);
    }
    assert Val(t) == FLAG + "=" + v;
    BoxKept(WordVals(toks[claude + 1..a]), WordVals(toks[a..b]), FLAG + "=" + v, ArgVals(toks, b));
  }

  lemma InsertedText(line: string, at: nat, v: string)
    requires at <= |line|
    ensures var line' := Inserted(line, at, v);
      && |line'| == |line| + 1 + |FlagWord(v)|
      && line'[at + 1..at + 1 + |FlagWord(v)|] == FlagWord(v)
  {}

  lemma ReplacedText(line: string, start: nat, end: nat, v: string)
    requires start <= end <= |line|
    ensures var line' := Replaced(line, start, end, v);
      && start + |FlagWord(v)| <= |line'|
      && line'[start..start + |FlagWord(v)|] == FlagWord(v)
      && Agree(line, line', start)
  {}

  /** The invocation's occurrences, with the last one's value replaced by v (or v
      as the only one). */
  predicate LastValueIs(before: seq<Use>, us: seq<Use>, v: string) {
    && |us| == (if before == [] then 1 else |before|)
    && us[..|us| - 1] == before[..|us| - 1]
    && us[|us| - 1].value == v && !us[|us| - 1].tilde
  }

  /** The text is JSON and not a path: a brace behind nothing but JSON's blanks. */
  ghost predicate OpensObject(v: string) {
    exists k :: 0 <= k < |v| && v[k] == '{' && forall j :: 0 <= j < k ==> v[j] in " \t\n\r"
  }

  /** v, between single quotes, is a shell word for the text m: no quote ends it, no blank
      stands in it, and a reader of JSON gets from it what m says. */
  ghost predicate Carries(v: string, m: string) {
    && '\'' !in v && ' ' !in v
    && (IsCompact(m) ==> ReadJson(v, false) == ReadJson(m, false))
  }

  /** Where these are the occurrences, the settings to be given: the empty object's,
      merged, if there are none, and else the last one's own text, merged; None if
      the merge refuses it. */
  function Merged(before: seq<Use>, merge: Merge): Option<string> {
    if before == [] then merge("{}") else merge(before[|before| - 1].value)
  }

  ghost predicate IsPath(before: seq<Use>) {
    before != [] && !OpensObject(before[|before| - 1].value)
  }

  /** The settings can be had: merged in place, or in a copy of the last one's file. */
  ghost predicate CanGive(before: seq<Use>, merge: Merge, copy: Copy) {
    if IsPath(before) then copy(before[|before| - 1]).Some? else Merged(before, merge).Some?
  }

  /** v gives them, inside a single-quoted word. */
  ghost predicate Gives(v: string, before: seq<Use>, merge: Merge, copy: Copy) {
    if IsPath(before) then copy(before[|before| - 1]) == Some(v)
    else Merged(before, merge).Some? && Carries(v, Merged(before, merge).value)
  }

  lemma {:induction false} InlineMeans(v: string)
    ensures IsInline(v) <==> OpensObject(v)
    decreases |v|
  {
    if v != "" {
      var w := v[1..];
      InlineMeans(w);
      if v[0] in " \t\n\r" {
        if OpensObject(w) {
          var k :| 0 <= k < |w| && w[k] == '{' && forall j :: 0 <= j < k ==> w[j] in " \t\n\r";
          assert v[k + 1] == '{' && forall j :: 0 <= j < k + 1 ==> v[j] == if j == 0 then v[0] else w[j - 1];
        }
        if OpensObject(v) {
          var k :| 0 <= k < |v| && v[k] == '{' && forall j :: 0 <= j < k ==> v[j] in " \t\n\r";
          assert w[k - 1] == '{' && forall j :: 0 <= j < k - 1 ==> w[j] == v[j + 1];
        }
      } else {
        assert TrimJsonSpace(v) == v;
        assert "{" <= v <==> v[0] == '{';
      }
    }
  }

  /** There is a rewrite exactly when the occurrences can be read with certainty and the
      settings can be had; and what it writes gives them. */
  lemma RewriteGives(line: string, toks: seq<Tok>, claude: nat, merge: Merge, copy: Copy)
    requires Lex(line, 0) == Some(toks) && claude < |toks| && SpansOk(line, toks)
    ensures var before := Settings(line, toks, claude + 1);
      var e := RewriteLine(line, toks, claude, merge, copy);
      && (e.Some? <==> before.Some? && CanGive(before.value, merge, copy))
      && (e.Some? ==> Gives(e.value.value, before.value, merge, copy))
  {
    hide Settings, Inserted, Replaced, LastFlag, OpensObject, IsInline, EscapeJson, Lex, SpansOk, IsCompact;
    var before := Settings(line, toks, claude + 1);
    if before.Some? {
      LastFlagIs(line, toks, claude + 1);
      LastUseInLine(line, toks, claude + 1);
      if before.value != [] {
        InlineMeans(before.value[|before.value| - 1].value);
      }
      if Merged(before.value, merge).Some? {
        EscapeJsonMeans(Merged(before.value, merge).value);
      }
    }
  }

  lemma InsertionSettings(line: string, toks: seq<Tok>, claude: nat, v: string, toks': seq<Tok>)
    requires SpansOk(line, toks) && claude < |toks|
    requires Settings(line, toks, claude + 1) == Some([])
    requires toks[claude].end <= |line|
    requires var line' := Inserted(line, toks[claude].end, v);
      SpansOk(line', toks') && OneWordReplaced(line, toks, claude, v, line', toks')
    ensures var us := Settings(Inserted(line, toks[claude].end, v), toks', claude + 1);
      us.Some? && LastValueIs([], us.value, v)
  {
    hide SpansOk, ReadArg, FlagTok, FlagWord, Inserted;
    LastFlagIs(line, toks, claude + 1);
    var at := toks[claude].end + 1;
    var line' := Inserted(line, toks[claude].end, v);
    var a := claude + 1;
    FlagTokIsWord(v, at);
    InsertedText(line, toks[claude].end, v);
    FlagWordIsUse(line', toks', a, v);
    assert SameToks(toks[a..], toks'[a + 1..]);
    NoSettingsMoved(line, toks, a, line', toks', a + 1);
    var u := Use(v, false, toks'[a].start, toks'[a].end);
    SettingsOfFlag(line', toks', a, u);
    assert [u] + [] == [u];
  }

  lemma ReplacementSettings(line: string, toks: seq<Tok>, claude: nat, v: string, toks': seq<Tok>)
    requires SpansOk(line, toks) && claude < |toks|
    requires Settings(line, toks, claude + 1).Some? && Settings(line, toks, claude + 1).value != []
    requires var us := Settings(line, toks, claude + 1).value;
      var use := us[|us| - 1];
      && use.start <= use.end <= |line|
      && var line' := Replaced(line, use.start, use.end, v);
      SpansOk(line', toks') && OneWordReplaced(line, toks, claude, v, line', toks')
    ensures var us := Settings(line, toks, claude + 1).value;
      var use := us[|us| - 1];
      var us' := Settings(Replaced(line, use.start, use.end, v), toks', claude + 1);
      us'.Some? && LastValueIs(us, us'.value, v)
  {
    hide SpansOk, ReadArg, FlagWord, Settings, Replaced, LastFlag;
    var us := Settings(line, toks, claude + 1).value;
    var use := us[|us| - 1];
    var line' := Replaced(line, use.start, use.end, v);
    LastFlagIs(line, toks, claude + 1);
    var (a, b) := LastFlag(line, toks, claude + 1).value;
    FlagTokens(line, toks, a);
    ReplacedText(line, use.start, use.end, v);
    SettingsReplaced(line, toks, line', toks', claude + 1, a, b, v, |line'| - |line|);
  }

  /** Main theorem, for a shell launch. When `[-l] -c <s>` launches claude directly,
      there is a rewrite exactly when the occurrences of --settings are read with
      certainty and the settings can be had. Then the rewritten string launches claude
      directly again: its tokens are the old ones with one word replaced, the claude word
      is the same token, the arguments are the old ones with that word's value for those
      it replaced, and reading the occurrences back gives the old ones with the last
      value replaced, by one that gives the settings: the merged text of that very
      occurrence, or the copy made for it. */
  lemma RewriteKeepsCommand(cfg: PaneConfig, merge: Merge, copy: Copy)
    requires LaunchOf(cfg).direct && Base(cfg.cmd) != "claude"
    requires Quotable(copy)
    ensures var l := LaunchOf(cfg);
      && l.claude >= 0 && Lex(l.line, 0) == Some(l.toks) && l.claude < |l.toks|
      && SpansOk(l.line, l.toks)
    ensures var l := LaunchOf(cfg);
      var e := RewriteLine(l.line, l.toks, l.claude, merge, copy);
      var before := Settings(l.line, l.toks, l.claude + 1);
      && (e.Some? <==> before.Some? && CanGive(before.value, merge, copy))
      && (e.Some? ==> Kept(cfg, l, e.value) && LastGives(cfg, l, e.value.line, merge, copy))
  {
    hide Lex, Settings, SpansOk, ClaudeWords, RewriteLine, OneWordReplaced, NoInputBox, ArgWords, Base, Kept, CanGive,
      Gives, LastGives;
    var l := LaunchOf(cfg);
    var line := ShellLine(cfg.args).value;
    assert l == LaunchOfToks(line, l.toks);
    assert ClaudeWords(l.toks) == [l.claude];
    ClaudeIsWord(l.toks, l.claude);
    LexedSpansOk(line, l.toks);
    RewriteGives(line, l.toks, l.claude, merge, copy);
    if RewriteLine(line, l.toks, l.claude, merge, copy).Some? {
      RewriteKept(cfg, l, merge, copy);
      KeptGives(cfg, l, RewriteLine(line, l.toks, l.claude, merge, copy).value, merge, copy);
    }
  }

  /** The last --settings of the launch as rewritten gives what the old ones asked for. */
  ghost predicate LastGives(cfg: PaneConfig, l: LaunchInfo, line': string, merge: Merge, copy: Copy)
    requires l.claude >= 0 && l.claude < |l.toks| && SpansOk(l.line, l.toks)
  {
    var l' := LaunchOf(cfg.(args := WithLine(cfg.args, line')));
    && l'.claude >= 0 && SpansOk(l'.line, l'.toks)
    && var (before, after) := (Settings(l.line, l.toks, l.claude + 1), Settings(l'.line, l'.toks, l'.claude + 1));
    && before.Some? && after.Some? && after.value != []
    && var u := after.value[|after.value| - 1];
    Gives(u.value, before.value, merge, copy) && !u.tilde
  }

  lemma KeptGives(cfg: PaneConfig, l: LaunchInfo, e: Edit, merge: Merge, copy: Copy)
    requires 0 <= l.claude < |l.toks| && SpansOk(l.line, l.toks) && Kept(cfg, l, e)
    requires var before := Settings(l.line, l.toks, l.claude + 1);
      before.Some? && Gives(e.value, before.value, merge, copy)
    ensures LastGives(cfg, l, e.line, merge, copy)
  {
    hide Gives, Settings, SpansOk, OneWordReplaced, LaunchOf, ArgVals, WordVals, Range;
  }

  /** What the theorem says of one rewrite. */
  ghost predicate Kept(cfg: PaneConfig, l: LaunchInfo, e: Edit)
    requires l.claude >= 0 && l.claude < |l.toks| && SpansOk(l.line, l.toks)
  {
    var l' := LaunchOf(cfg.(args := WithLine(cfg.args, e.line)));
    var (a, b) := Range(l.line, l.toks, l.claude);
    && Base(cfg.cmd) in POSIX_SHELLS
    && l'.direct && !l'.unparsed && l'.claude == l.claude && l'.line == e.line
    && OneWordReplaced(l.line, l.toks, l.claude, e.value, e.line, l'.toks)
    && ArgVals(l'.toks, l.claude + 1)
       == WordVals(l.toks[l.claude + 1..a]) + [FLAG + "=" + e.value] + ArgVals(l.toks, b)
    && ArgVals(l.toks, l.claude + 1)
       == WordVals(l.toks[l.claude + 1..a]) + WordVals(l.toks[a..b]) + ArgVals(l.toks, b)
    && Settings(l.line, l.toks, l.claude + 1).Some?
    && SpansOk(e.line, l'.toks)
    && Settings(e.line, l'.toks, l.claude + 1).Some?
    && LastValueIs(Settings(l.line, l.toks, l.claude + 1).value,
                   Settings(e.line, l'.toks, l.claude + 1).value, e.value)
  }

  /** A copy of a `[-l] -c <s>` argv with <s> replaced. */
  function WithLine(args: seq<string>, line: string): seq<string> {
    if args == [] then args else args[|args| - 1 := line]
  }

  lemma ClaudeIsWord(toks: seq<Tok>, c: nat)
    requires ClaudeWords(toks) == [c]
    ensures c < |toks| && toks[c].kind == Word
  {
    hide Base, CommandWord;
    ClaudeWordsAre(toks, c);
    assert IsClaude(toks, c);
    assert toks[..c + 1][c] == toks[c];
  }

  lemma RewriteKept(cfg: PaneConfig, l: LaunchInfo, merge: Merge, copy: Copy)
    requires l == LaunchOf(cfg) && l.direct && Base(cfg.cmd) != "claude"
    requires ShellLine(cfg.args) == Some(l.line)
    requires Lex(l.line, 0) == Some(l.toks) && 0 <= l.claude < |l.toks| && l.toks[l.claude].kind == Word
    requires SpansOk(l.line, l.toks) && ClaudeWords(l.toks) == [l.claude]
    requires l == LaunchOfToks(l.line, l.toks)
    requires Quotable(copy)
    requires RewriteLine(l.line, l.toks, l.claude, merge, copy).Some?
    ensures Kept(cfg, l, RewriteLine(l.line, l.toks, l.claude, merge, copy).value)
  {
    hide Lex, Settings, SpansOk, ClaudeWords, OneWordReplaced, NoInputBox, ArgWords, Base, LaunchOfToks,
      ArgVals, LastValueIs, WordVals, RewriteLine, LastFlag;
    var c: nat := l.claude;
    var e := RewriteLine(l.line, l.toks, c, merge, copy).value;
    RewriteLexes(l.line, l.toks, c, merge, copy);
    var toks' := Lex(e.line, 0).value;
    LexedSpansOk(e.line, toks');
    RewriteSettings(l.line, l.toks, c, merge, copy);
    RewriteStaysDirect(l.line, l.toks, c, e.value, e.line, toks');
    LaunchOfTokens(l.line, l.toks);
    LaunchOfTokens(e.line, toks');
    LaunchOfLine(cfg, e.line, toks');
  }

  lemma LaunchOfTokens(line: string, toks: seq<Tok>)
    ensures LaunchOfToks(line, toks).line == line && LaunchOfToks(line, toks).toks == toks
    ensures !LaunchOfToks(line, toks).unparsed
  {}

  lemma LaunchOfLine(cfg: PaneConfig, line': string, toks': seq<Tok>)
    requires ShellLine(cfg.args).Some? && Base(cfg.cmd) != "claude" && LaunchOf(cfg).direct
    requires Lex(line', 0) == Some(toks')
    ensures Base(cfg.cmd) in POSIX_SHELLS
    ensures LaunchOf(cfg.(args := WithLine(cfg.args, line'))) == LaunchOfToks(line', toks')
  {
    hide Lex, LaunchOfToks, Base;
  }

  lemma SpanInLine(line: string, toks: seq<Tok>, i: nat)
    requires SpansOk(line, toks) && i < |toks|
    ensures toks[i].start <= toks[i].end <= |line|
  {}

  lemma RewriteSettings(line: string, toks: seq<Tok>, claude: nat, merge: Merge, copy: Copy)
    requires Lex(line, 0) == Some(toks) && claude < |toks| && toks[claude].kind == Word
    requires SpansOk(line, toks) && Quotable(copy)
    requires RewriteLine(line, toks, claude, merge, copy).Some?
    ensures var e := RewriteLine(line, toks, claude, merge, copy).value;
      && Lex(e.line, 0).Some?
      && SpansOk(e.line, Lex(e.line, 0).value)
      && Settings(line, toks, claude + 1).Some?
      && Settings(e.line, Lex(e.line, 0).value, claude + 1).Some?
      && LastValueIs(Settings(line, toks, claude + 1).value,
                     Settings(e.line, Lex(e.line, 0).value, claude + 1).value, e.value)
  {
    hide Lex, Settings, SpansOk, OneWordReplaced, ReplaceAll, Inserted, Replaced, LastValueIs, LastFlag, ReadArg;
    RewriteLexes(line, toks, claude, merge, copy);
    var e := RewriteLine(line, toks, claude, merge, copy).value;
    var toks' := Lex(e.line, 0).value;
    LexedSpansOk(e.line, toks');
    LastFlagIs(line, toks, claude + 1);
    LastUseInLine(line, toks, claude + 1);
    assert toks[claude].end <= |line| by {
      SpanInLine(line, toks, claude);
    }
    var us := Settings(line, toks, claude + 1).value;
    if us == [] {
      InsertionSettings(line, toks, claude, e.value, toks');
    } else {
      ReplacementSettings(line, toks, claude, e.value, toks');
    }
  }
}
