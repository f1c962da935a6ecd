/**
What a direct launch is (mux/claude_launch.go:72-259), said of the words themselves: which
path names a program, which word a simple command runs, where a command begins and ends,
which arguments show no input box.
*/
module LaunchLaws {
  import opened Wrappers
  import opened ShellLexer
  import opened ClaudeLaunch
  import opened ClaudeSplice

  // ── names ────────────────────────────────────────────────────────────────

  predicate AllSlashes(s: string) {
    forall i :: 0 <= i < |s| ==> s[i] == '/'
  }

  /** p leads to name: a directory or none, the name, perhaps slashes behind it. */
  ghost predicate LeadsTo(p: string, name: string) {
    exists dir: string, tail: string :: IsPath(p, dir, name, tail)
  }

  predicate IsPath(p: string, dir: string, name: string, tail: string) {
    p == dir + name + tail && (dir == "" || dir[|dir| - 1] == '/') && AllSlashes(tail)
  }

  lemma {:induction false} TrimSlashesIs(p: string)
    ensures var t := TrimSlashes(p);
      && |t| <= |p| && p[..|t|] == t && AllSlashes(p[|t|..]) && (t != "" ==> t[|t| - 1] != '/')
    decreases |p|
  {
    if p != "" && p[|p| - 1] == '/' {
      var init := p[..|p| - 1];
      TrimSlashesIs(init);
      var n := |TrimSlashes(init)|;
      assert p[n..] == init[n..] + "/";
    }
  }

  lemma {:induction false} AfterLastSlashIs(p: string)
    ensures var a := AfterLastSlash(p);
      && |a| <= |p| && '/' !in a && p[|p| - |a|..] == a && (|a| < |p| ==> p[|p| - |a| - 1] == '/')
    decreases |p|
  {
    if p != "" && p[|p| - 1] != '/' {
      AfterLastSlashIs(p[..|p| - 1]);
    }
  }

  lemma {:induction false} TrimsTail(s: string, tail: string)
    requires AllSlashes(tail) && (s == "" || s[|s| - 1] != '/')
    ensures TrimSlashes(s + tail) == s
    decreases |tail|
  {
    var n := |tail|;
    if n > 0 {
      assert (s + tail)[..|s + tail| - 1] == s + tail[..n - 1];
      TrimsTail(s, tail[..n - 1]);
    } else {
      assert s + tail == s;
    }
  }

  lemma {:induction false} DropsDir(dir: string, name: string)
    requires '/' !in name && (dir == "" || dir[|dir| - 1] == '/')
    ensures AfterLastSlash(dir + name) == name
    decreases |name|
  {
    var n := |name|;
    if n > 0 {
      assert name[n - 1] in name;
      assert (dir + name)[..|dir + name| - 1] == dir + name[..n - 1];
      DropsDir(dir, name[..n - 1]);
    } else {
      assert dir + name == dir;
    }
  }

  /** A path has the base name it leads to, and no other. */
  lemma BaseMeans(p: string, name: string)
    requires name != "" && name != "." && '/' !in name
    ensures Base(p) == name <==> LeadsTo(p, name)
  {
    hide IsPath, Base;
    if Base(p) == name {
      BaseLeads(p);
    }
    if dir: string, tail: string :| IsPath(p, dir, name, tail) {
      PathLeads(p, dir, name, tail);
    }
  }

  lemma BaseLeads(p: string)
    requires Base(p) != "." && Base(p) != "/"
    ensures LeadsTo(p, Base(p))
  {
    hide TrimSlashes, AfterLastSlash;
    var t := TrimSlashes(p);
    var name := Base(p);
    TrimSlashesIs(p);
    AfterLastSlashIs(t);
    var dir, tail := t[..|t| - |name|], p[|t|..];
    assert dir + name == t && t + tail == p;
    assert IsPath(p, dir, name, tail);
  }

  lemma PathLeads(p: string, dir: string, name: string, tail: string)
    requires name != "" && '/' !in name && IsPath(p, dir, name, tail)
    ensures Base(p) == name
  {
    hide TrimSlashes, AfterLastSlash;
    var s := dir + name;
    assert name[|name| - 1] in name;
    assert s[|s| - 1] == name[|name| - 1];
    TrimsTail(s, tail);
    DropsDir(dir, name);
  }

  lemma ShellLineMeans(args: seq<string>, line: string)
    ensures ShellLine(args) == Some(line) <==> args == ["-c", line] || args == ["-l", "-c", line]
  {}

  // ── which arguments show no input box ────────────────────────────────────

  /** One of these, with no bare `--` in front of it. */
  ghost predicate AsksForText(args: seq<string>) {
    exists i :: 0 <= i < |args| && args[i] in {"-p", "--print", "-v", "--version", "-h", "--help"} && "--" !in args[..i]
  }

  lemma {:induction false} HelpFlagMeans(args: seq<string>)
    ensures HasHelpFlag(args) <==> AsksForText(args)
  {
    if args != [] {
      HelpFlagMeans(args[1..]);
      if AsksForText(args[1..]) && args[0] != "--" {
        var i :| 0 <= i < |args[1..]| && args[1..][i] in {"-p", "--print", "-v", "--version", "-h", "--help"}
          && "--" !in args[1..][..i];
        assert args[..i + 1] == [args[0]] + args[1..][..i];
        assert args[i + 1] == args[1..][i];
      }
      if AsksForText(args) {
        var i :| 0 <= i < |args| && args[i] in {"-p", "--print", "-v", "--version", "-h", "--help"}
          && "--" !in args[..i];
        if i == 0 {
          assert args[..0] == [];
        } else {
          assert args[..i] == [args[0]] + args[1..][..i - 1];
          assert args[1..][i - 1] == args[i];
        }
      }
      if IsHelpFlag(args[0]) {
        assert args[..0] == [];
      }
    }
  }

  lemma NoInputBoxMeans(args: seq<string>)
    ensures NoInputBox(args) <==> AsksForText(args) || (|args| > 0 && args[0] in SUBCOMMANDS)
  {
    HelpFlagMeans(args);
  }

  // ── the words of a simple command ────────────────────────────────────────

  /** No control operator in toks[i..j]. */
  predicate OneCommand(toks: seq<Tok>, i: nat, j: nat)
    requires i <= j <= |toks|
  {
    forall k :: i <= k < j ==> toks[k].kind != Op
  }

  /** The words, without the redirections. */
  function Words(ts: seq<Tok>): seq<Tok> {
    if ts == [] then [] else WordOf(ts[0]) + Words(ts[1..])
  }

  function WordOf(t: Tok): seq<Tok> {
    if t.kind == Word then [t] else []
  }

  lemma {:induction false} WordsAppend(ts: seq<Tok>, t: Tok)
    ensures Words(ts + [t]) == Words(ts) + WordOf(t)
  {
    hide WordOf;
    if ts == [] {
      assert (ts + [t])[1..] == [];
      assert Words(ts + [t]) == WordOf(t) + Words([]);
    } else {
      assert (ts + [t])[1..] == ts[1..] + [t];
      WordsAppend(ts[1..], t);
    }
  }

  /** The current command is what stands behind the last operator. */
  lemma {:induction false} CurrentIsWords(pre: seq<Tok>, i: nat)
    requires i <= |pre| && OneCommand(pre, i, |pre|) && (i == 0 || pre[i - 1].kind == Op)
    ensures Current(pre) == Words(pre[i..])
    decreases |pre|
  {
    if i < |pre| {
      var n := |pre| - 1;
      assert pre[i..] == pre[..n][i..] + [pre[n]];
      WordsAppend(pre[..n][i..], pre[n]);
      CurrentIsWords(pre[..n], i);
    } else {
      assert pre[i..] == [];
    }
  }

  predicate Ascending(a: seq<nat>) {
    forall k, l :: 0 <= k < l < |a| ==> a[k] < a[l]
  }

  /** The arguments of a command are the words up to the next operator. */
  lemma {:induction false} ArgWordsAre(toks: seq<Tok>, i: nat, j: nat)
    requires i <= |toks|
    ensures j in ArgWords(toks, i) <==> i <= j < |toks| && toks[j].kind == Word && OneCommand(toks, i, j)
    ensures Ascending(ArgWords(toks, i))
    decreases |toks| - i
  {
    if i < |toks| && toks[i].kind != Op {
      ArgWordsAre(toks, i + 1, j);
      var rest := ArgWords(toks, i + 1);
      forall k | 0 <= k < |rest| ensures rest[k] > i {
        ArgWordsAre(toks, i + 1, rest[k]);
      }
    }
  }

  // ── the word a simple command runs ───────────────────────────────────────

  /** A word in front of the command word: exec, command or nohup, or env with the
      assignments behind it. */
  datatype Prefix = Prefix(word: Tok, assigns: seq<Tok>)

  predicate AllAssign(ws: seq<Tok>) {
    forall i :: 0 <= i < |ws| ==> ws[i].kind == Word && ws[i].assign
  }

  predicate OkPrefix(p: Prefix) {
    p.word.literal && AllAssign(p.assigns)
    && (p.word.lit == "env" || (p.word.lit in {"exec", "command", "nohup"} && p.assigns == []))
  }

  function PrefixWords(ps: seq<Prefix>): seq<Tok> {
    if ps == [] then [] else [ps[0].word] + ps[0].assigns + PrefixWords(ps[1..])
  }

  predicate IsAssign(w: Tok) {
    w.kind == Word && w.assign
  }

  /** These prefixes lead up to w, which is none; where an assignment could stand, behind
      the leading ones or those of env, none does. */
  predicate LeadsUp(ps: seq<Prefix>, w: Tok, lead: bool) {
    if ps == [] then !(w.literal && w.lit in {"exec", "command", "nohup", "env"}) && (lead ==> !IsAssign(w))
    else OkPrefix(ps[0]) && (lead ==> !IsAssign(ps[0].word)) && LeadsUp(ps[1..], w, ps[0].word.lit == "env")
  }

  lemma {:induction false} SkipsAll(a: seq<Tok>, rest: seq<Tok>)
    requires AllAssign(a) && (rest == [] || !IsAssign(rest[0]))
    ensures SkipAssignments(a + rest) == |a|
  {
    if a == [] {
      assert a + rest == rest;
    } else {
      assert (a + rest)[1..] == a[1..] + rest;
      SkipsAll(a[1..], rest);
    }
  }

  /** The first of the words is an assignment only if it is not to be skipped here. */
  lemma FirstWord(ps: seq<Prefix>, w: Tok, rest: seq<Tok>)
    ensures var ws := PrefixWords(ps) + [w] + rest; ws != [] && ws[0] == if ps == [] then w else ps[0].word
  {}

  lemma {:induction false} PastThese(ps: seq<Prefix>, w: Tok, rest: seq<Tok>, lead: bool)
    requires LeadsUp(ps, w, lead)
    ensures PastPrefixes(PrefixWords(ps) + [w] + rest) == |PrefixWords(ps)|
    decreases |ps|
  {
    var ws := PrefixWords(ps) + [w] + rest;
    if ps == [] {
      assert ws[0] == w;
    } else {
      var p, more := ps[0], PrefixWords(ps[1..]) + [w] + rest;
      assert ws == [p.word] + p.assigns + more;
      PastThese(ps[1..], w, rest, p.word.lit == "env");
      FirstWord(ps[1..], w, rest);
      if p.word.lit == "env" {
        assert ws[1..] == p.assigns + more;
        SkipsAll(p.assigns, more);
        assert ws[1 + |p.assigns|..] == more;
      } else {
        assert ws[1..] == more;
      }
    }
  }

  /** The command word stands behind assignments and prefixes. */
  lemma CommandWordIs(a: seq<Tok>, ps: seq<Prefix>, w: Tok, rest: seq<Tok>)
    requires AllAssign(a) && LeadsUp(ps, w, true)
    ensures CommandWord(a + (PrefixWords(ps) + [w] + rest)) == |a| + |PrefixWords(ps)|
  {
    var more := PrefixWords(ps) + [w] + rest;
    FirstWord(ps, w, rest);
    SkipsAll(a, more);
    assert (a + more)[|a|..] == more;
    PastThese(ps, w, rest, true);
  }

  lemma {:induction false} SkippedAre(ws: seq<Tok>)
    ensures var k := SkipAssignments(ws); AllAssign(ws[..k]) && (k < |ws| ==> !IsAssign(ws[k]))
  {
    if ws != [] && IsAssignment(ws[0]) {
      SkippedAre(ws[1..]);
      var k := SkipAssignments(ws[1..]);
      assert ws[..k + 1] == [ws[0]] + ws[1..][..k];
    }
  }

  lemma {:induction false} PrefixesOf(ws: seq<Tok>, lead: bool) returns (ps: seq<Prefix>)
    requires PastPrefixes(ws) >= 0 && (lead ==> ws == [] || !IsAssign(ws[0]))
    ensures var at := PastPrefixes(ws); LeadsUp(ps, ws[at], lead) && ws[..at] == PrefixWords(ps)
    decreases |ws|
  {
    var at := PastPrefixes(ws);
    if ws[0].literal && (IsPrefixWord(ws[0]) || ws[0].lit == "env") {
      var env := ws[0].lit == "env";
      var k := if env then 1 + SkipAssignments(ws[1..]) else 1;
      SkippedAre(ws[1..]);
      assert env && k < |ws| ==> ws[k..][0] == ws[1..][k - 1];
      assert ws[1..][..k - 1] == ws[1..k];
      var rest := PrefixesOf(ws[k..], env);
      ps := [Prefix(ws[0], ws[1..k])] + rest;
      assert ps[1..] == rest && ws[k..][at - k] == ws[at];
      Rejoined(ws, k, at);
    } else {
      ps := [];
      assert ws[..0] == [];
    }
  }

  lemma Rejoined(ws: seq<Tok>, k: nat, at: nat)
    requires 1 <= k <= at <= |ws|
    ensures [ws[0]] + ws[1..k] + ws[k..][..at - k] == ws[..at]
  {}

  /** And whatever is found to be one does. */
  lemma CommandWordOf(ws: seq<Tok>) returns (a: seq<Tok>, ps: seq<Prefix>)
    requires CommandWord(ws) >= 0
    ensures var at := CommandWord(ws);
      && AllAssign(a) && LeadsUp(ps, ws[at], true)
      && ws == a + (PrefixWords(ps) + [ws[at]] + ws[at + 1..])
  {
    var k := SkipAssignments(ws);
    SkippedAre(ws);
    a := ws[..k];
    ps := PrefixesOf(ws[k..], true);
    var at := CommandWord(ws);
    assert ws[k..][at - k] == ws[at];
    Cut(ws, k, at);
  }

  lemma Cut(ws: seq<Tok>, k: nat, at: nat)
    requires k <= at < |ws|
    ensures ws == ws[..k] + (ws[k..][..at - k] + [ws[at]] + ws[at + 1..])
  {}

  // ── the launch ───────────────────────────────────────────────────────────

  /** Position c of the line runs claude: it is the word its simple command runs, literally
      a path that leads to claude. */
  ghost predicate RunsClaude(toks: seq<Tok>, c: nat)
    requires c < |toks|
  {
    && toks[c].kind == Word && toks[c].literal && LeadsTo(toks[c].lit, "claude")
    && exists i: nat :: IsStart(toks, i, c)
         && CommandWord(Words(toks[i..c + 1])) == |Words(toks[i..c + 1])| - 1
  }

  /** The simple command that c is in begins at i. */
  predicate IsStart(toks: seq<Tok>, i: nat, c: nat)
    requires c < |toks|
  {
    i <= c && (i == 0 || toks[i - 1].kind == Op) && OneCommand(toks, i, c + 1)
  }

  lemma {:induction false} CommandStart(toks: seq<Tok>, c: nat) returns (i: nat)
    requires c < |toks| && toks[c].kind != Op
    ensures IsStart(toks, i, c)
  {
    i := c;
    if c > 0 && toks[c - 1].kind != Op {
      i := CommandStart(toks, c - 1);
    }
  }

  lemma CommandAt(toks: seq<Tok>, c: nat, i: nat)
    requires c < |toks| && IsStart(toks, i, c)
    ensures Current(toks[..c + 1]) == Words(toks[i..c + 1])
  {
    var pre := toks[..c + 1];
    assert pre[i..] == toks[i..c + 1];
    CurrentIsWords(pre, i);
  }

  lemma ClaudeMeans(toks: seq<Tok>, c: nat)
    requires c < |toks|
    ensures c in ClaudeWords(toks) <==> RunsClaude(toks, c)
  {
    hide CommandWord, Base, LeadsTo, Words, Current, ClaudeWords;
    ClaudeWordsAre(toks, c);
    BaseMeans(toks[c].lit, "claude");
    var pre := toks[..c + 1];
    assert pre[|pre| - 1] == toks[c];
    assert Base("") != "claude" by {
      EmptyBase();
    }
    if toks[c].kind == Word {
      var i := CommandStart(toks, c);
      CommandAt(toks, c, i);
      forall k: nat | IsStart(toks, k, c)
        ensures Words(toks[k..c + 1]) == Current(pre)
      {
        CommandAt(toks, c, k);
      }
    }
  }

  lemma EmptyBase()
    ensures Base("") != "claude"
  {
    assert Base("")[0] == '.';
  }

  /** The arguments' values: what is written, and nothing for what the shell expands. */
  ghost predicate AreValues(vals: seq<string>, toks: seq<Tok>, args: seq<nat>) {
    && |vals| == |args|
    && forall k :: 0 <= k < |args| ==>
         args[k] < |toks| && vals[k] == if toks[args[k]].literal then toks[args[k]].lit else ""
  }

  /** c is the only position of the line that runs claude, and its arguments show an input
      box. */
  ghost predicate OnlyClaudeShows(toks: seq<Tok>, c: nat) {
    && c < |toks| && RunsClaude(toks, c)
    && (forall d :: 0 <= d < |toks| && RunsClaude(toks, d) ==> d == c)
    && exists vals :: AreValues(vals, toks, ArgWords(toks, c + 1)) && ShowsBox(vals)
  }

  ghost predicate ShowsBox(args: seq<string>) {
    !AsksForText(args) && !(|args| > 0 && args[0] in SUBCOMMANDS)
  }

  ghost predicate IsShell(cmd: string) {
    exists sh :: sh in POSIX_SHELLS && LeadsTo(cmd, sh)
  }

  lemma ShellMeans(cmd: string)
    ensures Base(cmd) in POSIX_SHELLS <==> IsShell(cmd)
    ensures Base(cmd) == "claude" <==> LeadsTo(cmd, "claude")
  {
    hide Base, LeadsTo;
    BaseMeans(cmd, "claude");
    forall sh | sh in POSIX_SHELLS ensures Base(cmd) == sh <==> LeadsTo(cmd, sh) {
      BaseMeans(cmd, sh);
    }
  }

  lemma {:induction false} ClaudeWordsSorted(toks: seq<Tok>)
    ensures Ascending(ClaudeWords(toks))
    decreases |toks|
  {
    hide ClaudeAt;
    if toks != [] {
      ClaudeWordsSorted(toks[..|toks| - 1]);
    }
  }

  /** The one claude word, by position. */
  lemma OneClaude(toks: seq<Tok>, c: nat)
    ensures ClaudeWords(toks) == [c] <==>
      c < |toks| && RunsClaude(toks, c) && forall d :: 0 <= d < |toks| && RunsClaude(toks, d) ==> d == c
  {
    hide RunsClaude, ClaudeWords;
    var cs := ClaudeWords(toks);
    forall d | 0 <= d < |toks| ensures d in cs <==> RunsClaude(toks, d) {
      ClaudeMeans(toks, d);
    }
    ClaudeWordsSorted(toks);
    if cs == [c] {
      assert c in cs && forall d :: d in cs ==> d == c;
      assert c == cs[0] < |toks| by {
        ClaudeWordsIn(toks);
      }
    } else if c < |toks| && RunsClaude(toks, c) && forall d :: 0 <= d < |toks| && RunsClaude(toks, d) ==> d == c {
      ClaudeWordsIn(toks);
      assert c in cs;
      assert forall i :: 0 <= i < |cs| ==> cs[i] in cs;
      OnlyMember(cs, c);
    }
  }

  lemma OnlyMember(cs: seq<nat>, c: nat)
    requires Ascending(cs) && c in cs && forall i :: 0 <= i < |cs| ==> cs[i] == c
    ensures cs == [c]
  {
    var k := if |cs| > 1 then 1 else 0;
    assert cs[0] == cs[k];
  }

  lemma ClaudeWordsIn(toks: seq<Tok>)
    ensures forall i :: 0 <= i < |ClaudeWords(toks)| ==> ClaudeWords(toks)[i] < |toks|
  {}

  lemma ValuesShow(toks: seq<Tok>, args: seq<nat>)
    requires forall j :: 0 <= j < |args| ==> args[j] < |toks|
    ensures (exists vals :: AreValues(vals, toks, args) && ShowsBox(vals)) <==> !NoInputBox(Vals(toks, args))
  {
    hide NoInputBox, AsksForText;
    var vals := Vals(toks, args);
    NoInputBoxMeans(vals);
    assert AreValues(vals, toks, args);
    if other :| AreValues(other, toks, args) && ShowsBox(other) {
      assert other == vals;
    }
  }

  lemma LaunchOfToksMeans(line: string, toks: seq<Tok>)
    ensures LaunchOfToks(line, toks).direct <==> exists c: nat :: OnlyClaudeShows(toks, c)
    ensures forall c: nat :: OnlyClaudeShows(toks, c) ==> LaunchOfToks(line, toks).claude == c
  {
    hide RunsClaude, ClaudeWords, NoInputBox, AsksForText, ArgWords;
    var cs := ClaudeWords(toks);
    forall c: nat
      ensures OnlyClaudeShows(toks, c) <==> cs == [c] && !NoInputBox(Vals(toks, ArgWords(toks, c + 1)))
    {
      OneClaude(toks, c);
      ValuesShow(toks, ArgWords(toks, c + 1));
    }
    if |cs| == 1 {
      assert cs == [cs[0]];
    }
  }

  /** A direct launch: a path to claude, with arguments that show an input box; or a POSIX
      shell given one line that can be read and runs claude once, with such arguments. */
  lemma DirectMeans(cfg: PaneConfig)
    ensures LaunchOf(cfg).direct <==>
      if LeadsTo(cfg.cmd, "claude") then ShowsBox(cfg.args)
      else IsShell(cfg.cmd) && exists line, c: nat :: RunsLine(cfg, line, c)
    ensures !LeadsTo(cfg.cmd, "claude") && IsShell(cfg.cmd) ==>
      forall line, c: nat :: RunsLine(cfg, line, c) ==> LaunchOf(cfg).claude == c && LaunchOf(cfg).line == line
  {
    hide Base, LeadsTo, NoInputBox, AsksForText, OnlyClaudeShows, IsShell, LaunchOfToks, Lex;
    ShellMeans(cfg.cmd);
    NoInputBoxMeans(cfg.args);
    forall line
      ensures ShellLine(cfg.args) == Some(line) <==> cfg.args == ["-c", line] || cfg.args == ["-l", "-c", line]
    {
      ShellLineMeans(cfg.args, line);
    }
    var line := ShellLine(cfg.args);
    if line.Some? && Lex(line.value, 0).Some? {
      var toks := Lex(line.value, 0).value;
      LaunchOfToksMeans(line.value, toks);
      LineOfToks(line.value, toks);
      if c: nat :| OnlyClaudeShows(toks, c) {
        assert RunsLine(cfg, line.value, c);
      }
    }
  }

  lemma LineOfToks(line: string, toks: seq<Tok>)
    ensures var l := LaunchOfToks(line, toks); l.line == line && l.toks == toks && !l.unparsed
  {}

  /** The line is recorded for any program that is given one, and so are its tokens, unless
      they cannot be read with certainty; an argument list has neither. */
  lemma RecordMeans(cfg: PaneConfig)
    ensures LeadsTo(cfg.cmd, "claude") ==>
      LaunchOf(cfg) == LaunchInfo("", [], false, -1, [], !ShowsBox(cfg.args), ShowsBox(cfg.args))
    ensures !LeadsTo(cfg.cmd, "claude") ==> forall line ::
      cfg.args == ["-c", line] || cfg.args == ["-l", "-c", line] ==>
        var l := LaunchOf(cfg);
        && l.line == line && (l.unparsed <==> Lex(line, 0).None?)
        && l.toks == if Lex(line, 0).Some? then Lex(line, 0).value else []
    ensures !LeadsTo(cfg.cmd, "claude") ==>
      (forall line :: cfg.args != ["-c", line] && cfg.args != ["-l", "-c", line]) ==>
        LaunchOf(cfg) == LaunchInfo("", [], false, -1, [], false, false)
  {
    hide Base, LeadsTo, NoInputBox, AsksForText, LaunchOfToks, Lex;
    ShellMeans(cfg.cmd);
    NoInputBoxMeans(cfg.args);
    forall line
      ensures ShellLine(cfg.args) == Some(line) <==> cfg.args == ["-c", line] || cfg.args == ["-l", "-c", line]
    {
      ShellLineMeans(cfg.args, line);
    }
    var line := ShellLine(cfg.args);
    if line.Some? && Lex(line.value, 0).Some? {
      LineOfToks(line.value, Lex(line.value, 0).value);
    }
  }

  /** The shell is given this line, which runs claude at c and nowhere else. */
  ghost predicate RunsLine(cfg: PaneConfig, line: string, c: nat) {
    && (cfg.args == ["-c", line] || cfg.args == ["-l", "-c", line])
    && Lex(line, 0).Some? && OnlyClaudeShows(Lex(line, 0).value, c)
  }
}
