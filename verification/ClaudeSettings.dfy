/**
The `--settings` occurrences of a direct invocation (mux/claude_launch.go:619-627,
847-921): where each is, what its value is, and every doubt that makes the
invocation unparsed.
*/
module ClaudeSettings {
  import opened Wrappers
  import opened ShellLexer
  import opened ShellSpans
  import opened ClaudeLaunch
  import opened SettingsSplice

  /** One --settings occurrence; start and end are its span in the line. */
  datatype Use = Use(value: string, tilde: bool, start: nat, end: nat)

  /** What one argument word means to shellSettings: nothing, a doubt, the end of
      the flags, or an occurrence that takes `width` tokens. */
  datatype Arg = Plain | Doubt | Stop | Flag(use: Use, width: nat)

  /** Spans are in bounds and in order; every lexed line's are. */
  predicate SpansOk(line: string, toks: seq<Tok>) {
    && (forall i :: 0 <= i < |toks| ==> toks[i].start <= toks[i].end <= |line|)
    && (forall i, j :: 0 <= i < j < |toks| ==> toks[i].end <= toks[j].start)
  }

  lemma LexedSpansOk(line: string, toks: seq<Tok>)
    requires Lex(line, 0) == Some(toks)
    ensures SpansOk(line, toks)
  {
    LexSpanned(line, 0);
    forall i, j | 0 <= i < j < |toks|
      ensures toks[i].start < toks[i].end <= toks[j].start < toks[j].end <= |line|
    {
      SpannedOrdered(line, 0, toks, i, j);
    }
  }

  /** A two-token flag's value: a plain literal word that is no flag. */
  predicate PlainValue(v: Tok) {
    v.kind == Word && !v.assign && v.literal && v.lit != "" && v.lit[0] != '-'
  }

  predicate AllBlank(g: string) {
    forall i :: 0 <= i < |g| ==> IsBlank(g[i])
  }

  /** `--settings <w>`: two tokens with blanks and nothing else between them. */
  function ReadPair(line: string, toks: seq<Tok>, i: nat): (r: Arg)
    requires SpansOk(line, toks) && i < |toks|
    ensures r.Flag? ==> r.width == 2 && i + 2 <= |toks| && PlainValue(toks[i + 1])
  {
    if i + 1 >= |toks| || toks[i + 1].kind != Word then Doubt
    else
      var t, v := toks[i], toks[i + 1];
      var gap := line[t.end..v.start];
      if gap == "" || !AllBlank(gap) || !PlainValue(v) then Doubt
      else Flag(Use(v.lit, "~/" <= line[v.start..v.end], t.start, v.end), 2)
  }

  function ReadArg(line: string, toks: seq<Tok>, i: nat): (r: Arg)
    requires SpansOk(line, toks) && i < |toks|
    ensures r.Flag? ==> 1 <= r.width <= 2 && i + r.width <= |toks|
  {
    var t := toks[i];
    if !t.literal then (if FLAG <= t.lit then Doubt else Plain)
    else if t.lit == "--" then Stop
    else if t.lit == FLAG then ReadPair(line, toks, i)
    else if FLAG + "=" <= t.lit then
      Flag(Use(t.lit[|FLAG| + 1..], FLAG + "=~/" <= line[t.start..t.end], t.start, t.end), 1)
    else Plain
  }

  function ConsUse(u: Use, rest: Option<seq<Use>>): Option<seq<Use>> {
    match rest
    case None => None
    case Some(us) => Some([u] + us)
  }

  /** The occurrences among the words from token i to the end of the command;
      None on any doubt. */
  function Settings(line: string, toks: seq<Tok>, i: nat): Option<seq<Use>>
    requires SpansOk(line, toks)
    decreases |toks| - i
  {
    if i >= |toks| || toks[i].kind == Op then Some([])
    else if toks[i].kind == Redir then Settings(line, toks, i + 1)
    else
      match ReadArg(line, toks, i)
      case Plain => Settings(line, toks, i + 1)
      case Doubt => None
      case Stop => Some([])
      case Flag(u, w) => ConsUse(u, Settings(line, toks, i + w))
  }

  /** The tokens [a, b) of the last occurrence, the one Claude obeys. */
  function LastFlag(line: string, toks: seq<Tok>, i: nat): Option<(nat, nat)>
    requires SpansOk(line, toks)
    decreases |toks| - i
  {
    if i >= |toks| || toks[i].kind == Op then None
    else if toks[i].kind == Redir then LastFlag(line, toks, i + 1)
    else
      match ReadArg(line, toks, i)
      case Plain => LastFlag(line, toks, i + 1)
      case Doubt => None
      case Stop => None
      case Flag(u, w) =>
        var later := LastFlag(line, toks, i + w);
        if later.Some? then later else Some((i, i + w))
  }

  // ── shellSettings' loop ──────────────────────────────────────────────────

  function Prepend(us: seq<Use>, rest: Option<seq<Use>>): Option<seq<Use>> {
    match rest
    case None => None
    case Some(vs) => Some(us + vs)
  }

  lemma PrependCons(us: seq<Use>, u: Use, rest: Option<seq<Use>>)
    ensures Prepend(us, ConsUse(u, rest)) == Prepend(us + [u], rest)
  {
    if rest.Some? {
      assert us + ([u] + rest.value) == us + [u] + rest.value;
    }
  }

  /** The next argument word from i on, or |toks|. */
  lemma {:induction false} SettingsAtNextWord(line: string, toks: seq<Tok>, i: nat)
    requires SpansOk(line, toks) && i <= |toks|
    ensures ArgWords(toks, i) == [] ==> Settings(line, toks, i) == Some([])
    ensures ArgWords(toks, i) != [] ==>
      var n := ArgWords(toks, i)[0];
      && i <= n < |toks| && toks[n].kind == Word
      && Settings(line, toks, i) == Settings(line, toks, n)
      && ArgWords(toks, i) == [n] + ArgWords(toks, n + 1)
    decreases |toks| - i
  {
    hide ReadArg;
    if i < |toks| && toks[i].kind == Redir {
      SettingsAtNextWord(line, toks, i + 1);
    }
  }

  /** shellSettings: the source's loop over launch.args. */
  method ShellSettings(line: string, toks: seq<Tok>, claude: nat) returns (r: Option<seq<Use>>)
    requires SpansOk(line, toks) && claude < |toks|
    ensures r == Settings(line, toks, claude + 1)
  {
    hide ReadArg, Settings, ArgWords, SpansOk;
    var args := ArgWords(toks, claude + 1);
    var uses: seq<Use> := [];
    var k := 0;
    ghost var next: nat := claude + 1;
    assert Settings(line, toks, next).Some? ==>
      [] + Settings(line, toks, next).value == Settings(line, toks, next).value;
    while k < |args|
      invariant 0 <= k <= |args| && next <= |toks|
      invariant args[k..] == ArgWords(toks, next)
      invariant Prepend(uses, Settings(line, toks, next)) == Settings(line, toks, claude + 1)
    {
      SettingsAtNextWord(line, toks, next);
      var i := args[k];
      assert args[k..][0] == i;
      assert args[k..][1..] == args[k + 1..];
      SettingsTurn(line, toks, i, uses);
      match ReadArg(line, toks, i) {
        case Doubt => return None;
        case Stop => return Some(uses);
        case Plain =>
          next := i + 1;
        case Flag(u, w) =>
          uses := uses + [u];
          next := i + w;
          if k + 1 < |args| && args[k + 1] == i + 1 && w == 2 {
            k := k + 1;
            assert args[k..][1..] == args[k + 1..];
          }
      }
      k := k + 1;
    }
    SettingsAtNextWord(line, toks, next);
    assert uses + [] == uses;
    return Some(uses);
  }

  lemma SettingsTurn(line: string, toks: seq<Tok>, i: nat, uses: seq<Use>)
    requires SpansOk(line, toks) && i < |toks| && toks[i].kind == Word
    ensures match ReadArg(line, toks, i)
      case Doubt => Settings(line, toks, i) == None
      case Stop => Settings(line, toks, i) == Some([]) && uses + [] == uses
      case Plain => Settings(line, toks, i) == Settings(line, toks, i + 1)
      case Flag(u, w) =>
        && 1 <= w <= 2 && i + w <= |toks|
        && Prepend(uses, Settings(line, toks, i)) == Prepend(uses + [u], Settings(line, toks, i + w))
        && (w == 2 ==> toks[i + 1].kind == Word && ArgWords(toks, i + 1) == [i + 1] + ArgWords(toks, i + 2))
  {
    match ReadArg(line, toks, i)
    case Flag(u, w) => PrependCons(uses, u, Settings(line, toks, i + w));
    case _ =>
  }
}
