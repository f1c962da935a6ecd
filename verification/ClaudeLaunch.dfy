/**
Locating THE claude word of a launch (mux/claude_launch.go:29-283).

The source walks the tokens command by command. `ClaudeAt` says the same thing
of one token at a time, from the tokens up to it alone: it is the word a simple
command runs, and it names claude. `ScanCommands` is the source's loop, proved
against it.
*/
module ClaudeLaunch {
  import opened Wrappers
  import opened ShellLexer
  import opened ShellScan

  /** The fields of a pane's configuration that decide its launch. */
  datatype PaneConfig = PaneConfig(cmd: string, args: seq<string>)

  // ── names ────────────────────────────────────────────────────────────────

  const POSIX_SHELLS := {"sh", "bash", "zsh", "dash", "ksh", "mksh"}

  const SUBCOMMANDS := {
    "agents", "attach", "auth", "auto-mode", "config",
    "doctor", "gateway", "import", "install", "kill",
    "logs", "mcp", "migrate-installer", "plugin", "plugins",
    "purge", "respawn", "rm", "setup-token", "stop",
    "ultrareview", "update", "upgrade"}

  function TrimSlashes(p: string): string {
    if p != "" && p[|p| - 1] == '/' then TrimSlashes(p[..|p| - 1]) else p
  }

  function AfterLastSlash(p: string): string {
    if p == "" || p[|p| - 1] == '/' then ""
    else AfterLastSlash(p[..|p| - 1]) + [p[|p| - 1]]
  }

  /** The last element of a path. */
  function Base(p: string): string {
    if p == "" then "."
    else if TrimSlashes(p) == "" then "/"
    else AfterLastSlash(TrimSlashes(p))
  }

  /** The <s> of `[-l] -c <s>`. */
  function ShellLine(args: seq<string>): Option<string> {
    if |args| == 3 && args[0] == "-l" && args[1] == "-c" then Some(args[2])
    else if |args| == 2 && args[0] == "-c" then Some(args[1])
    else None
  }

  // ── which invocations show no input box ──────────────────────────────────

  predicate IsHelpFlag(a: string) {
    a == "-p" || a == "--print" || a == "-v" || a == "--version" || a == "-h" || a == "--help"
  }

  /** A print, version or help flag before a bare `--`. */
  predicate HasHelpFlag(args: seq<string>) {
    args != [] && args[0] != "--" && (IsHelpFlag(args[0]) || HasHelpFlag(args[1..]))
  }

  /** The invocation never shows an input box. */
  predicate NoInputBox(args: seq<string>) {
    HasHelpFlag(args) || (args != [] && args[0] in SUBCOMMANDS)
  }

  method NoInputBoxLoop(args: seq<string>) returns (r: bool)
    ensures r == NoInputBox(args)
  {
    for i := 0 to |args|
      invariant HasHelpFlag(args) == HasHelpFlag(args[i..])
      invariant i > 0 ==> args[0] !in SUBCOMMANDS
    {
      assert args[i..][1..] == args[i + 1..];
      if args[i] == "--" {
        return false;
      }
      if IsHelpFlag(args[i]) {
        return true;
      }
      if i == 0 && args[i] in SUBCOMMANDS {
        return true;
      }
    }
    return false;
  }

  // ── the word a simple command runs ───────────────────────────────────────

  predicate IsAssignment(t: Tok) {
    t.kind == Word && t.assign
  }

  predicate IsClaudeWord(t: Tok) {
    t.kind == Word && t.literal && t.lit != "" && Base(t.lit) == "claude"
  }

  function SkipAssignments(ws: seq<Tok>): (k: nat)
    ensures k <= |ws|
  {
    if ws != [] && IsAssignment(ws[0]) then 1 + SkipAssignments(ws[1..]) else 0
  }

  predicate IsPrefixWord(t: Tok) {
    t.lit == "exec" || t.lit == "command" || t.lit == "nohup"
  }

  /** The command word past the prefix words, or -1. */
  function PastPrefixes(ws: seq<Tok>): (at: int)
    ensures -1 <= at < |ws|
    decreases |ws|
  {
    if ws == [] then -1
    else if !ws[0].literal then 0
    else if IsPrefixWord(ws[0]) then Later(1, PastPrefixes(ws[1..]))
    else if ws[0].lit == "env" then
      var k := 1 + SkipAssignments(ws[1..]);
      Later(k, PastPrefixes(ws[k..]))
    else 0
  }

  function Later(k: nat, at: int): int {
    if at < 0 then -1 else k + at
  }

  /** The position in a simple command's words of the word it runs, or -1. */
  function CommandWord(ws: seq<Tok>): (at: int)
    ensures -1 <= at < |ws|
  {
    var k := SkipAssignments(ws);
    Later(k, PastPrefixes(ws[k..]))
  }

  /** commandWord's loop over assignments, from k. */
  method SkipAssignmentsLoop(ws: seq<Tok>, from: nat) returns (k: nat)
    requires from <= |ws|
    ensures k == from + SkipAssignments(ws[from..])
  {
    k := from;
    while k < |ws| && IsAssignment(ws[k])
      invariant from <= k <= |ws|
      invariant k + SkipAssignments(ws[k..]) == from + SkipAssignments(ws[from..])
    {
      assert ws[k..][1..] == ws[k + 1..];
      k := k + 1;
    }
  }

  /** What one prefix word at k does to the search. */
  predicate PrefixTurn(ws: seq<Tok>, k: nat)
    requires k < |ws|
  {
    if IsPrefixWord(ws[k]) then PastPrefixes(ws[k..]) == Later(1, PastPrefixes(ws[k + 1..]))
    else if ws[k].lit == "env" then
      var e := 1 + SkipAssignments(ws[k + 1..]);
      PastPrefixes(ws[k..]) == Later(e, PastPrefixes(ws[k + e..]))
    else PastPrefixes(ws[k..]) == 0
  }

  lemma PastPrefixesTurn(ws: seq<Tok>, k: nat)
    requires k < |ws|
    ensures if ws[k].literal then PrefixTurn(ws, k) else PastPrefixes(ws[k..]) == 0
  {
    assert ws[k..][1..] == ws[k + 1..];
    var e := 1 + SkipAssignments(ws[k + 1..]);
    assert ws[k..][e..] == ws[k + e..];
  }

  /** commandWord. */
  method CommandWordLoop(ws: seq<Tok>) returns (at: int)
    ensures at == CommandWord(ws)
  {
    hide PastPrefixes, SkipAssignments;
    assert ws[0..] == ws;
    var k := SkipAssignmentsLoop(ws, 0);
    while k < |ws|
      invariant k <= |ws|
      invariant Later(k, PastPrefixes(ws[k..])) == CommandWord(ws)
    {
      PastPrefixesTurn(ws, k);
      if !ws[k].literal {
        return k;
      }
      if IsPrefixWord(ws[k]) {
        k := k + 1;
      } else if ws[k].lit == "env" {
        k := SkipAssignmentsLoop(ws, k + 1);
      } else {
        return k;
      }
    }
    assert ws[k..] == [] && PastPrefixes([]) == -1;
    return -1;
  }

  // ── the claude words of a line ───────────────────────────────────────────

  /** The words so far of the simple command that pre's end is in. */
  function Current(pre: seq<Tok>): seq<Tok> {
    if pre == [] then []
    else
      var t := pre[|pre| - 1];
      if t.kind == Op then []
      else if t.kind == Redir then Current(pre[..|pre| - 1])
      else Current(pre[..|pre| - 1]) + [t]
  }

  /** Whether pre's last token is a claude word in command position. */
  predicate ClaudeAt(pre: seq<Tok>)
    requires pre != []
  {
    var t := pre[|pre| - 1];
    IsClaudeWord(t) && CommandWord(Current(pre)) == |Current(pre)| - 1
  }

  /** The indexes of the command-position claude words, in order. */
  function ClaudeWords(toks: seq<Tok>): (r: seq<nat>)
    ensures forall i :: 0 <= i < |r| ==> r[i] < |toks|
  {
    if toks == [] then []
    else ClaudeWords(toks[..|toks| - 1]) + (if ClaudeAt(toks) then [|toks| - 1] else [])
  }

  /** The indexes of the words from i on, up to the next control operator. */
  function ArgWords(toks: seq<Tok>, i: nat): (r: seq<nat>)
    ensures forall j :: 0 <= j < |r| ==> r[j] < |toks|
    decreases |toks| - i
  {
    if i >= |toks| || toks[i].kind == Op then []
    else if toks[i].kind == Word then [i] + ArgWords(toks, i + 1)
    else ArgWords(toks, i + 1)
  }

  /** What an argument word is worth to noInputBox. */
  function Val(t: Tok): string {
    if t.literal then t.lit else ""
  }

  function Vals(toks: seq<Tok>, args: seq<nat>): (r: seq<string>)
    requires forall j :: 0 <= j < |args| ==> args[j] < |toks|
    ensures |r| == |args|
  {
    seq(|args|, j requires 0 <= j < |args| => Val(toks[args[j]]))
  }

  /** What claudeLaunchOf found; claude is -1 unless there is exactly one. */
  datatype LaunchInfo = LaunchInfo(
    line: string, toks: seq<Tok>, unparsed: bool, claude: int, args: seq<nat>, noBox: bool, direct: bool)

  const NO_LAUNCH := LaunchInfo("", [], false, -1, [], false, false)

  function LaunchOfToks(line: string, toks: seq<Tok>): LaunchInfo {
    var found := ClaudeWords(toks);
    if |found| != 1 then LaunchInfo(line, toks, false, -1, [], false, false)
    else
      var args := ArgWords(toks, found[0] + 1);
      var noBox := NoInputBox(Vals(toks, args));
      LaunchInfo(line, toks, false, found[0], args, noBox, !noBox)
  }

  /** Whether cfg launches claude DIRECTLY, and where. */
  function LaunchOf(cfg: PaneConfig): LaunchInfo {
    if Base(cfg.cmd) == "claude" then
      NO_LAUNCH.(noBox := NoInputBox(cfg.args), direct := !NoInputBox(cfg.args))
    else
      match ShellLine(cfg.args)
      case None => NO_LAUNCH
      case Some(line) =>
        match Lex(line, 0)
        case None => NO_LAUNCH.(line := line, unparsed := true)
        case Some(toks) =>
          if Base(cfg.cmd) !in POSIX_SHELLS then NO_LAUNCH.(line := line, toks := toks)
          else LaunchOfToks(line, toks)
  }

  // ── the loop over simple commands ────────────────────────────────────────

  /** The command word depends only on the words up to it. */
  lemma {:induction false} PastPrefixesAppend(ws: seq<Tok>, t: Tok)
    ensures PastPrefixes(ws) >= 0 ==> PastPrefixes(ws + [t]) == PastPrefixes(ws)
    ensures PastPrefixes(ws) < 0 ==> PastPrefixes(ws + [t]) in {-1, |ws|}
    decreases |ws|
  {
    if ws != [] {
      assert (ws + [t])[1..] == ws[1..] + [t];
      if ws[0].literal && IsPrefixWord(ws[0]) {
        PastPrefixesAppend(ws[1..], t);
      } else if ws[0].literal && ws[0].lit == "env" {
        SkipAssignmentsAppend(ws[1..], t);
        var k := 1 + SkipAssignments(ws[1..]);
        if k < |ws| {
          assert (ws + [t])[k..] == ws[k..] + [t];
          PastPrefixesAppend(ws[k..], t);
        }
      }
    }
  }

  lemma {:induction false} SkipAssignmentsAppend(ws: seq<Tok>, t: Tok)
    ensures SkipAssignments(ws) < |ws| ==> SkipAssignments(ws + [t]) == SkipAssignments(ws)
    ensures SkipAssignments(ws) == |ws| ==> SkipAssignments(ws + [t]) >= |ws|
  {
    if ws != [] {
      assert (ws + [t])[1..] == ws[1..] + [t];
      SkipAssignmentsAppend(ws[1..], t);
    }
  }

  lemma CommandWordAppend(ws: seq<Tok>, t: Tok)
    ensures CommandWord(ws) >= 0 ==> CommandWord(ws + [t]) == CommandWord(ws)
    ensures CommandWord(ws) < 0 ==> CommandWord(ws + [t]) in {-1, |ws|}
  {
    SkipAssignmentsAppend(ws, t);
    var k := SkipAssignments(ws);
    if k < |ws| {
      assert (ws + [t])[k..] == ws[k..] + [t];
      PastPrefixesAppend(ws[k..], t);
    }
  }

  /** The word indexes of the simple command that ends at i. */
  function CurrentIndexes(toks: seq<Tok>, i: nat): (r: seq<nat>)
    requires i <= |toks|
    ensures forall j :: 0 <= j < |r| ==> r[j] < i
    ensures forall j, k :: 0 <= j < k < |r| ==> r[j] < r[k]
    ensures forall k :: r != [] && r[0] <= k < i ==> toks[k].kind != Op
  {
    if i == 0 || toks[i - 1].kind == Op then []
    else if toks[i - 1].kind == Redir then CurrentIndexes(toks, i - 1)
    else CurrentIndexes(toks, i - 1) + [i - 1]
  }

  function At(toks: seq<Tok>, idx: seq<nat>): (r: seq<Tok>)
    requires forall j :: 0 <= j < |idx| ==> idx[j] < |toks|
    ensures |r| == |idx| && forall j :: 0 <= j < |idx| ==> r[j] == toks[idx[j]]
  {
    seq(|idx|, j requires 0 <= j < |idx| => toks[idx[j]])
  }

  lemma {:induction false} CurrentIsAt(toks: seq<Tok>, i: nat)
    requires i <= |toks|
    ensures At(toks, CurrentIndexes(toks, i)) == Current(toks[..i])
  {
    if i > 0 {
      assert toks[..i][..i - 1] == toks[..i - 1];
      CurrentIsAt(toks, i - 1);
    }
  }

  /** The claude word of the simple command that is being read at i, if it has one. */
  function PendingClaude(toks: seq<Tok>, i: nat): seq<nat>
    requires i <= |toks|
  {
    var words := CurrentIndexes(toks, i);
    var at := CommandWord(At(toks, words));
    if at >= 0 && IsClaudeWord(toks[words[at]]) then [words[at]] else []
  }

  function NewClaude(toks: seq<Tok>, i: nat): seq<nat>
    requires i < |toks|
  {
    if ClaudeAt(toks[..i + 1]) then [i] else []
  }

  lemma NothingYet(toks: seq<Tok>)
    ensures CurrentIndexes(toks, 0) == [] && ClaudeWords(toks[..0]) == [] && PendingClaude(toks, 0) == []
  {
    assert At(toks, []) == [];
  }

  /** A word adds itself to the claude words exactly when it adds itself to its
      command's. */
  lemma ClaudeWordsTurn(toks: seq<Tok>, i: nat)
    requires i < |toks|
    ensures toks[i].kind != Word ==> ClaudeWords(toks[..i + 1]) == ClaudeWords(toks[..i])
    ensures toks[i].kind == Redir ==> PendingClaude(toks, i + 1) == PendingClaude(toks, i)
    ensures toks[i].kind == Op ==> PendingClaude(toks, i + 1) == []
    ensures toks[i].kind == Word ==>
      && ClaudeWords(toks[..i + 1]) == ClaudeWords(toks[..i]) + NewClaude(toks, i)
      && PendingClaude(toks, i + 1) == PendingClaude(toks, i) + NewClaude(toks, i)
    ensures CurrentIndexes(toks, i + 1)
         == match toks[i].kind
            case Op => []
            case Redir => CurrentIndexes(toks, i)
            case Word => CurrentIndexes(toks, i) + [i]
  {
    hide CommandWord, Base;
    var pre := toks[..i + 1];
    assert pre[..i] == toks[..i];
    CurrentIsAt(toks, i);
    CurrentIsAt(toks, i + 1);
    if toks[i].kind == Op {
      assert CurrentIndexes(toks, i + 1) == [];
    } else if toks[i].kind == Word {
      CommandWordAppend(Current(toks[..i]), toks[i]);
      assert PendingClaude(toks, i + 1) == PendingClaude(toks, i) + NewClaude(toks, i);
    }
  }

  /** A command's words are those read so far and those still to come. */
  lemma {:induction false} CommandSplit(toks: seq<Tok>, j: nat, i: nat)
    requires j <= i <= |toks| && (i == |toks| || toks[i].kind == Op)
    requires forall k :: j <= k < i ==> toks[k].kind != Op
    ensures CurrentIndexes(toks, i) == CurrentIndexes(toks, j) + ArgWords(toks, j)
    decreases i - j
  {
    if j < i {
      CommandSplit(toks, j + 1, i);
    }
  }

  /** At the end of a command, the words behind any of its words. */
  lemma ArgsBehind(toks: seq<Tok>, i: nat, at: nat)
    requires i <= |toks| && (i == |toks| || toks[i].kind == Op)
    requires at < |CurrentIndexes(toks, i)|
    ensures ArgWords(toks, CurrentIndexes(toks, i)[at] + 1) == CurrentIndexes(toks, i)[at + 1..]
  {
    var words := CurrentIndexes(toks, i);
    var c := words[at];
    assert toks[c].kind == Word by {
      CurrentKinds(toks, i, at);
    }
    CommandSplit(toks, c, i);
    var before := CurrentIndexes(toks, c);
    assert ArgWords(toks, c) == [c] + ArgWords(toks, c + 1);
    assert words == before + [c] + ArgWords(toks, c + 1);
    assert words[|before|] == c;
    assert |before| == at;
  }

  lemma {:induction false} CurrentKinds(toks: seq<Tok>, i: nat, at: nat)
    requires i <= |toks| && at < |CurrentIndexes(toks, i)|
    ensures toks[CurrentIndexes(toks, i)[at]].kind == Word
  {
    if at < |CurrentIndexes(toks, i - 1)| {
      CurrentKinds(toks, i - 1, at);
    }
  }

  /** What the callback has gathered from these claude words. */
  ghost predicate Gathered(toks: seq<Tok>, seen: seq<nat>, found: nat, claude: int, args: seq<nat>) {
    found == |seen| && (found == 1 ==> [claude] == seen && args == ArgWords(toks, seen[0] + 1))
  }

  lemma GatheredMore(toks: seq<Tok>, seen: seq<nat>, found: nat, claude: int, args: seq<nat>,
                     more: seq<nat>, found': nat, claude': int, args': seq<nat>)
    requires Gathered(toks, seen, found, claude, args) && found' == found + |more|
    requires more == [] ==> claude' == claude && args' == args
    requires more != [] ==> [claude'] == more && args' == ArgWords(toks, more[0] + 1)
    ensures Gathered(toks, seen + more, found', claude', args')
  {
    hide ArgWords;
    assert more == [] ==> seen + more == seen;
    assert seen == [] ==> seen + more == more;
  }

  /** claudeLaunchOf's loop: forEachSimpleCommand with its callback, which counts
      the claude words and remembers the last one and its arguments. */
  method ScanCommands(toks: seq<Tok>) returns (found: nat, claude: int, args: seq<nat>)
    ensures found == |ClaudeWords(toks)|
    ensures found == 1 ==> claude == ClaudeWords(toks)[0] && args == ArgWords(toks, ClaudeWords(toks)[0] + 1)
  {
    hide PendingClaude, ClaudeWords, CurrentIndexes, NewClaude, ArgWords, Gathered;
    found, claude, args := 0, -1, [];
    ghost var seen: seq<nat> := [];
    var words: seq<nat> := [];
    NothingYet(toks);
    NothingGathered(toks, claude, args);
    for i := 0 to |toks|
      invariant words == CurrentIndexes(toks, i)
      invariant ClaudeWords(toks[..i]) == seen + PendingClaude(toks, i)
      invariant Gathered(toks, seen, found, claude, args)
    {
      ClaudeWordsTurn(toks, i);
      if toks[i].kind == Op {
        ghost var more := PendingClaude(toks, i);
        var f, c, a := Visit(toks, i, words, found, claude, args);
        GatheredMore(toks, seen, found, claude, args, more, f, c, a);
        found, claude, args, seen := f, c, a, seen + more;
        words := [];
        assert seen + [] == seen;
      } else if toks[i].kind == Word {
        words := words + [i];
        Regroup(seen, PendingClaude(toks, i), NewClaude(toks, i));
      }
    }
    assert toks[..|toks|] == toks;
    var f, c, a := Visit(toks, |toks|, words, found, claude, args);
    GatheredMore(toks, seen, found, claude, args, PendingClaude(toks, |toks|), f, c, a);
    found, claude, args := f, c, a;
    GatheredMeans(toks, ClaudeWords(toks), found, claude, args);
  }

  lemma Regroup(a: seq<nat>, b: seq<nat>, c: seq<nat>)
    ensures a + (b + c) == a + b + c
  {}

  lemma NothingGathered(toks: seq<Tok>, claude: int, args: seq<nat>)
    ensures Gathered(toks, [], 0, claude, args)
  {}

  lemma GatheredMeans(toks: seq<Tok>, seen: seq<nat>, found: nat, claude: int, args: seq<nat>)
    requires Gathered(toks, seen, found, claude, args)
    ensures found == |seen|
    ensures found == 1 ==> claude == seen[0] && args == ArgWords(toks, seen[0] + 1)
  {}

  /** The callback, for the simple command that ends at i. */
  method Visit(toks: seq<Tok>, i: nat, words: seq<nat>, found: nat, claude: int, args: seq<nat>)
    returns (found': nat, claude': int, args': seq<nat>)
    requires i <= |toks| && (i == |toks| || toks[i].kind == Op)
    requires words == CurrentIndexes(toks, i)
    ensures found' == found + |PendingClaude(toks, i)|
    ensures PendingClaude(toks, i) == [] ==> claude' == claude && args' == args
    ensures PendingClaude(toks, i) != [] ==>
      [claude'] == PendingClaude(toks, i) && args' == ArgWords(toks, PendingClaude(toks, i)[0] + 1)
  {
    hide CommandWord, Base, ArgWords;
    found', claude', args' := found, claude, args;
    var at := CommandWordLoop(At(toks, words));
    if at < 0 || !IsClaudeWord(toks[words[at]]) {
      return;
    }
    ArgsBehind(toks, i, at);
    found', claude', args' := found + 1, words[at], words[at + 1..];
  }

  /** claudeLaunchOf. */
  method ClaudeLaunchOf(cfg: PaneConfig) returns (info: LaunchInfo)
    ensures info == LaunchOf(cfg)
  {
    hide ClaudeWords, ArgWords, Lex, NoInputBox;
    info := NO_LAUNCH;
    if Base(cfg.cmd) == "claude" {
      var noBox := NoInputBoxLoop(cfg.args);
      return info.(noBox := noBox, direct := !noBox);
    }
    var line := ShellLine(cfg.args);
    if line.None? {
      return;
    }
    info := info.(line := line.value);
    var toks := LexShell(line.value);
    if toks.None? {
      return info.(unparsed := true);
    }
    info := info.(toks := toks.value);
    if Base(cfg.cmd) !in POSIX_SHELLS {
      return;
    }
    var found, claude, args := ScanCommands(toks.value);
    if found != 1 {
      return;
    }
    var vals := Vals(toks.value, args);
    var noBox := NoInputBoxLoop(vals);
    return info.(claude := claude, args := args, noBox := noBox, direct := !noBox);
  }
}
