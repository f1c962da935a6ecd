/**
Which arguments are occurrences of --settings, said of their positions
(mux/claude_launch.go:833-921): every one that is the flag, or the flag and a value, in
front of a bare `--`; and any that is in doubt spoils the reading.
*/
module SettingsLaws {
  import opened Wrappers
  import opened ShellLexer
  import opened SettingsSplice
  import opened ClaudeSettings
  import opened ArgvRewrite

  predicate InOrder(us: seq<Use>) {
    forall i, j :: 0 <= i < j < |us| ==> us[i].end <= us[j].start
  }

  // ── an argument list ─────────────────────────────────────────────────────

  /** Element k is a flag to claude: from `from` on there is no bare `--` in front of it. */
  predicate Reaches(args: seq<string>, from: nat, k: nat) {
    from <= k < |args| && "--" !in args[from..k]
  }

  /** The flag with no value behind it: there is none, or an empty one, or another flag. */
  predicate LacksValue(args: seq<string>, k: nat)
    requires k < |args|
  {
    args[k] == "--settings" && (k + 1 == |args| || args[k + 1] == "" || args[k + 1][0] == '-')
  }

  /** The occurrence at element k. */
  predicate IsArgvUse(args: seq<string>, k: nat, u: Use)
    requires k < |args|
  {
    && u.start == k && !u.tilde
    && (|| (args[k] == "--settings" && u.end == k + 2 <= |args| && u.value == args[k + 1])
        || (args[k] == "--settings=" + u.value && u.end == k + 1))
  }

  ghost predicate ArgvUses(args: seq<string>, from: nat, us: seq<Use>) {
    && InOrder(us)
    && (forall u :: u in us ==> Reaches(args, from, u.start) && IsArgvUse(args, u.start, u))
    && (forall k, u :: Reaches(args, from, k) && IsArgvUse(args, k, u) ==> u in us)
  }

  ghost predicate ArgvDoubt(args: seq<string>, from: nat) {
    exists k: nat :: Reaches(args, from, k) && LacksValue(args, k)
  }

  lemma ReachesNext(args: seq<string>, from: nat, k: nat)
    requires from < |args|
    ensures Reaches(args, from, k) <==> k == from || (args[from] != "--" && Reaches(args, from + 1, k))
  {
    if from < k <= |args| {
      assert args[from..k] == [args[from]] + args[from + 1..k];
    }
  }

  lemma ReadArgvMeans(args: seq<string>, i: nat)
    requires i < |args|
    ensures ReadArgv(args, i).Stop? <==> args[i] == "--"
    ensures ReadArgv(args, i).Doubt? <==> LacksValue(args, i)
    ensures ReadArgv(args, i).Flag? ==> IsArgvUse(args, i, ReadArgv(args, i).use)
    ensures forall u :: IsArgvUse(args, i, u) && !LacksValue(args, i) ==>
      ReadArgv(args, i).Flag? && ReadArgv(args, i).use == u
    ensures ReadArgv(args, i).Flag? && ReadArgv(args, i).width == 2 ==>
      i + 1 < |args| && args[i + 1] != "" && args[i + 1][0] != '-'
  {
    var a := args[i];
    if FLAG + "=" <= a {
      assert a == FLAG + "=" + a[|FLAG| + 1..];
    }
    forall u | IsArgvUse(args, i, u) && !LacksValue(args, i)
      ensures ReadArgv(args, i).Flag? && ReadArgv(args, i).use == u
    {
      if a == "--settings=" + u.value {
        assert a[..|FLAG| + 1] == FLAG + "=" && a[|FLAG| + 1..] == u.value;
      }
    }
  }

  /** An element that is neither the end of the flags nor one of them changes nothing. */
  lemma PastElement(args: seq<string>, i: nat, us: seq<Use>)
    requires i < |args| && args[i] != "--" && !LacksValue(args, i)
    requires forall u :: !IsArgvUse(args, i, u)
    ensures ArgvDoubt(args, i) <==> ArgvDoubt(args, i + 1)
    ensures ArgvUses(args, i + 1, us) ==> ArgvUses(args, i, us)
  {
    hide IsArgvUse, LacksValue, Reaches;
    forall k: nat ensures Reaches(args, i, k) <==> k == i || Reaches(args, i + 1, k) {
      ReachesNext(args, i, k);
    }
  }

  lemma AtEnd(args: seq<string>, i: nat)
    requires i <= |args| && (i < |args| ==> args[i] == "--")
    ensures !ArgvDoubt(args, i) && ArgvUses(args, i, [])
  {
    hide Reaches;
    forall k: nat ensures Reaches(args, i, k) ==> k == i < |args| {
      if i < |args| {
        ReachesNext(args, i, k);
      } else {
        NoneReached(args, i, k);
      }
    }
    if i < |args| {
      assert args[i][1] == '-' && "--settings"[2] == 's' && |args[i]| == 2;
    }
  }

  lemma NoneReached(args: seq<string>, i: nat, k: nat)
    requires i >= |args|
    ensures !Reaches(args, i, k)
  {}

  /** An occurrence is in front of those behind it. */
  lemma AtFlag(args: seq<string>, i: nat, u: Use, us: seq<Use>)
    requires i < |args| && IsArgvUse(args, i, u) && !LacksValue(args, i) && args[i] != "--"
    requires forall v :: v in us ==> u.end <= v.start
    ensures ArgvDoubt(args, i) <==> ArgvDoubt(args, i + 1)
    ensures ArgvUses(args, i + 1, us) ==> ArgvUses(args, i, [u] + us)
  {
    hide IsArgvUse, LacksValue, Reaches;
    forall k: nat ensures Reaches(args, i, k) <==> k == i || Reaches(args, i + 1, k) {
      ReachesNext(args, i, k);
    }
    forall v | IsArgvUse(args, i, v) ensures v == u {
      OneUse(args, i, u, v);
    }
    if ArgvUses(args, i + 1, us) {
      StartsAt(args, i, u);
      assert InOrder([u] + us) by {
        assert forall j :: 0 <= j < |us| ==> us[j] in us;
      }
    }
  }

  lemma StartsAt(args: seq<string>, i: nat, u: Use)
    requires i < |args| && IsArgvUse(args, i, u)
    ensures u.start == i
  {}

  lemma OneUse(args: seq<string>, i: nat, u: Use, v: Use)
    requires i < |args| && IsArgvUse(args, i, u) && IsArgvUse(args, i, v)
    ensures u == v
  {
    if args[i] == "--settings=" + u.value {
      assert args[i][..11] == "--settings=" && args[i][11..] == u.value;
    }
    if args[i] == "--settings=" + v.value {
      assert args[i][..11] == "--settings=" && args[i][11..] == v.value;
    }
  }

  /** A value is neither a flag nor the end of them. */
  lemma ValueIsPlain(args: seq<string>, k: nat)
    requires k < |args| && args[k] != "" && args[k][0] != '-'
    ensures args[k] != "--" && !LacksValue(args, k) && forall u :: !IsArgvUse(args, k, u)
  {
    assert "--settings"[0] == '-' && "--"[0] == '-';
    forall u ensures !IsArgvUse(args, k, u) {
      assert ("--settings=" + u.value)[0] == '-';
    }
  }

  /** The occurrences of an argument list are all there are, and the reading fails exactly
      when a flag lacks its value. */
  lemma {:induction false} ArgvSettingsMeans(args: seq<string>, i: nat)
    requires i <= |args|
    ensures ArgvSettings(args, i).None? <==> ArgvDoubt(args, i)
    ensures ArgvSettings(args, i).Some? ==> ArgvUses(args, i, ArgvSettings(args, i).value)
    decreases |args| - i
  {
    hide ReadArgv, IsArgvUse, LacksValue, Reaches, ArgvUses, ArgvDoubt;
    if i >= |args| {
      AtEnd(args, i);
    } else {
      ReadArgvMeans(args, i);
      match ReadArgv(args, i)
      case Stop => AtEnd(args, i);
      case Doubt => DoubtHere(args, i);
      case Plain =>
        ArgvSettingsMeans(args, i + 1);
        PastElement(args, i, if ArgvSettings(args, i).Some? then ArgvSettings(args, i).value else []);
      case Flag(u, w) =>
        ArgvSettingsMeans(args, i + w);
        var us := if ArgvSettings(args, i + w).Some? then ArgvSettings(args, i + w).value else [];
        Behind(args, i + w, us);
        if w == 2 {
          ValueIsPlain(args, i + 1);
          PastElement(args, i + 1, us);
        }
        if ArgvSettings(args, i + w).Some? {
          AtFlag(args, i, u, us);
        } else {
          AtFlag(args, i, u, []);
        }
    }
  }

  lemma Behind(args: seq<string>, i: nat, us: seq<Use>)
    ensures ArgvUses(args, i, us) ==> forall v :: v in us ==> i <= v.start
  {}

  lemma DoubtHere(args: seq<string>, i: nat)
    requires i < |args| && LacksValue(args, i)
    ensures ArgvDoubt(args, i)
  {
    assert Reaches(args, i, i);
  }

  // ── a shell line ─────────────────────────────────────────────────────────

  predicate IsStop(t: Tok) {
    t.kind == Word && t.literal && t.lit == "--"
  }

  /** Token k is an argument of the command and a flag to claude. */
  predicate ReachesTok(toks: seq<Tok>, from: nat, k: nat) {
    from <= k < |toks| && toks[k].kind == Word && forall m :: from <= m < k ==> toks[m].kind != Op && !IsStop(toks[m])
  }

  /** Token k + 1 is a value that stands, blanks apart, right behind token k. */
  predicate HasValue(line: string, toks: seq<Tok>, k: nat)
    requires SpansOk(line, toks) && k < |toks|
  {
    && k + 1 < |toks|
    && var v := toks[k + 1];
    && toks[k].end < v.start && (forall p :: toks[k].end <= p < v.start ==> line[p] == ' ' || line[p] == '\t')
    && v.kind == Word && v.literal && !v.assign && v.lit != "" && v.lit[0] != '-'
  }

  /** A word the shell expands that could spell the flag, or the flag without its value. */
  predicate InDoubt(line: string, toks: seq<Tok>, k: nat)
    requires SpansOk(line, toks) && k < |toks|
  {
    if toks[k].literal then toks[k].lit == "--settings" && !HasValue(line, toks, k) else "--settings" <= toks[k].lit
  }

  /** The occurrence at token k; its value is the shell's to expand when it begins, as
      written, with an unquoted ~/. */
  predicate IsShellUse(line: string, toks: seq<Tok>, k: nat, u: Use)
    requires SpansOk(line, toks) && k < |toks|
  {
    var t := toks[k];
    && t.literal && u.start == t.start
    && (|| (t.lit == "--settings" && HasValue(line, toks, k)
            && u.value == toks[k + 1].lit && u.end == toks[k + 1].end
            && u.tilde == ("~/" <= line[toks[k + 1].start..toks[k + 1].end]))
        || (t.lit == "--settings=" + u.value && u.end == t.end && u.tilde == ("--settings=~/" <= line[t.start..t.end])))
  }

  ghost predicate ShellUses(line: string, toks: seq<Tok>, from: nat, us: seq<Use>)
    requires SpansOk(line, toks)
  {
    && InOrder(us)
    && (forall u :: u in us ==> exists k: nat :: ReachesTok(toks, from, k) && IsShellUse(line, toks, k, u))
    && (forall k: nat, u: Use :: ReachesTok(toks, from, k) && IsShellUse(line, toks, k, u) ==> u in us)
  }

  ghost predicate ShellDoubt(line: string, toks: seq<Tok>, from: nat)
    requires SpansOk(line, toks)
  {
    exists k: nat :: ReachesTok(toks, from, k) && InDoubt(line, toks, k)
  }

  lemma ReachesTokNext(toks: seq<Tok>, from: nat, k: nat)
    requires from < |toks|
    ensures ReachesTok(toks, from, k) <==>
      || (k == from && toks[from].kind == Word)
      || (toks[from].kind != Op && !IsStop(toks[from]) && ReachesTok(toks, from + 1, k))
  {}

  lemma ReadArgMeans(line: string, toks: seq<Tok>, k: nat)
    requires SpansOk(line, toks) && k < |toks| && toks[k].kind == Word
    ensures var r := ReadArg(line, toks, k);
      && (r.Stop? <==> IsStop(toks[k])) && (r.Doubt? <==> InDoubt(line, toks, k))
      && (r.Flag? ==> IsShellUse(line, toks, k, r.use) && (r.width == 2 ==> HasValue(line, toks, k)))
      && (r.Plain? ==> forall u: Use :: !IsShellUse(line, toks, k, u))
      && (r.Flag? ==> r.use.end == toks[k + r.width - 1].end)
  {
    var t := toks[k];
    assert "--" != FLAG && FLAG == "--settings" && FLAG + "=" == "--settings=" && FLAG + "=~/" == "--settings=~/";
    if t.literal && FLAG + "=" <= t.lit {
      assert t.lit == "--settings=" + t.lit[11..];
    }
    forall u: Use ensures t.literal && t.lit == "--settings=" + u.value ==> FLAG + "=" <= t.lit {
      assert ("--settings=" + u.value)[..11] == "--settings=";
    }
    if k + 1 < |toks| {
      GapMeans(line, toks[k].end, toks[k + 1].start);
    }
  }

  lemma GapMeans(line: string, p: nat, q: nat)
    requires p <= |line| && q <= |line|
    ensures p <= q ==> (AllBlank(line[p..q]) <==> forall i :: p <= i < q ==> line[i] == ' ' || line[i] == '\t')
  {
    if p <= q {
      assert forall i :: p <= i < q ==> line[i] == line[p..q][i - p];
    }
  }

  /** A token that is neither the end of the flags nor one of them changes nothing. */
  lemma PastToken(line: string, toks: seq<Tok>, i: nat, us: seq<Use>)
    requires SpansOk(line, toks) && i < |toks| && toks[i].kind != Op && !IsStop(toks[i])
    requires toks[i].kind == Word ==> !InDoubt(line, toks, i) && forall u: Use :: !IsShellUse(line, toks, i, u)
    ensures ShellDoubt(line, toks, i) <==> ShellDoubt(line, toks, i + 1)
    ensures ShellUses(line, toks, i + 1, us) ==> ShellUses(line, toks, i, us)
  {
    hide SpansOk, IsShellUse, InDoubt, ReachesTok;
    forall k: nat ensures ReachesTok(toks, i, k) <==> (k == i && toks[i].kind == Word) || ReachesTok(toks, i + 1, k) {
      ReachesTokNext(toks, i, k);
    }
  }

  lemma AtCommandEnd(line: string, toks: seq<Tok>, i: nat)
    requires SpansOk(line, toks) && i <= |toks| && (i < |toks| ==> toks[i].kind == Op || IsStop(toks[i]))
    ensures !ShellDoubt(line, toks, i) && ShellUses(line, toks, i, [])
  {
    hide SpansOk, ReachesTok;
    forall k: nat ensures ReachesTok(toks, i, k) ==> k == i < |toks| && toks[k].kind == Word {
      if i < |toks| {
        ReachesTokNext(toks, i, k);
      } else {
        NoTokReached(toks, i, k);
      }
    }
    if i < |toks| && IsStop(toks[i]) {
      assert "--settings"[2] == 's' && |toks[i].lit| == 2;
    }
  }

  lemma NoTokReached(toks: seq<Tok>, i: nat, k: nat)
    requires i >= |toks|
    ensures !ReachesTok(toks, i, k)
  {}

  lemma OneShellUse(line: string, toks: seq<Tok>, k: nat, u: Use, v: Use)
    requires SpansOk(line, toks) && k < |toks| && IsShellUse(line, toks, k, u) && IsShellUse(line, toks, k, v)
    ensures u == v
  {
    var l := toks[k].lit;
    if l == "--settings=" + u.value {
      assert l[..11] == "--settings=" && l[11..] == u.value;
    }
    if l == "--settings=" + v.value {
      assert l[..11] == "--settings=" && l[11..] == v.value;
    }
  }

  lemma AtShellFlag(line: string, toks: seq<Tok>, i: nat, u: Use, us: seq<Use>)
    requires SpansOk(line, toks) && i < |toks| && toks[i].kind == Word && !IsStop(toks[i])
    requires IsShellUse(line, toks, i, u) && !InDoubt(line, toks, i)
    requires forall v :: v in us ==> u.end <= v.start
    ensures ShellDoubt(line, toks, i) <==> ShellDoubt(line, toks, i + 1)
    ensures ShellUses(line, toks, i + 1, us) ==> ShellUses(line, toks, i, [u] + us)
  {
    hide SpansOk, IsShellUse, InDoubt, ReachesTok;
    forall k: nat ensures ReachesTok(toks, i, k) <==> k == i || ReachesTok(toks, i + 1, k) {
      ReachesTokNext(toks, i, k);
    }
    forall v: Use | IsShellUse(line, toks, i, v) ensures v == u {
      OneShellUse(line, toks, i, u, v);
    }
    if ShellUses(line, toks, i + 1, us) {
      assert InOrder([u] + us) by {
        assert forall j :: 0 <= j < |us| ==> us[j] in us;
      }
    }
  }

  lemma ValueTokIsPlain(line: string, toks: seq<Tok>, k: nat, v: nat)
    requires SpansOk(line, toks) && k < |toks| && HasValue(line, toks, k) && v == k + 1
    ensures !IsStop(toks[v]) && !InDoubt(line, toks, v)
    ensures forall u: Use :: !IsShellUse(line, toks, v, u)
  {
    hide SpansOk;
    assert "--settings"[0] == '-' && "--"[0] == '-';
    forall u: Use ensures !IsShellUse(line, toks, v, u) {
      assert ("--settings=" + u.value)[0] == '-';
    }
  }

  lemma ShellBehind(line: string, toks: seq<Tok>, i: nat, p: nat, us: seq<Use>)
    requires SpansOk(line, toks) && 0 < i && (i <= |toks| ==> toks[i - 1].end == p)
    ensures ShellUses(line, toks, i, us) ==> forall v :: v in us ==> p <= v.start
  {
    if ShellUses(line, toks, i, us) {
      forall v | v in us ensures p <= v.start {
        var k: nat :| ReachesTok(toks, i, k) && IsShellUse(line, toks, k, v);
        assert toks[i - 1].end <= toks[k].start;
      }
    }
  }

  /** The occurrences in a command are all there are among its words up to a bare `--`, and
      the reading fails exactly when one of those is in doubt. */
  lemma {:induction false} SettingsMeans(line: string, toks: seq<Tok>, i: nat)
    requires SpansOk(line, toks) && i <= |toks|
    ensures Settings(line, toks, i).None? <==> ShellDoubt(line, toks, i)
    ensures Settings(line, toks, i).Some? ==> ShellUses(line, toks, i, Settings(line, toks, i).value)
    decreases |toks| - i
  {
    hide SpansOk, ReadArg, IsShellUse, InDoubt, ReachesTok, ShellUses, ShellDoubt, HasValue, IsStop;
    if i >= |toks| || toks[i].kind == Op {
      AtCommandEnd(line, toks, i);
    } else if toks[i].kind == Redir {
      SettingsMeans(line, toks, i + 1);
      NoStop(toks[i]);
      PastToken(line, toks, i, Or(Settings(line, toks, i + 1)));
    } else {
      ReadArgMeans(line, toks, i);
      match ReadArg(line, toks, i)
      case Stop => AtCommandEnd(line, toks, i);
      case Doubt => ShellDoubtHere(line, toks, i);
      case Plain =>
        SettingsMeans(line, toks, i + 1);
        PastToken(line, toks, i, Or(Settings(line, toks, i + 1)));
      case Flag(u, w) =>
        SettingsMeans(line, toks, i + w);
        FlagAndRest(line, toks, i, u, w, Settings(line, toks, i + w));
    }
  }

  function Or(us: Option<seq<Use>>): seq<Use> {
    if us.Some? then us.value else []
  }

  lemma NoStop(t: Tok)
    ensures t.kind != Word ==> !IsStop(t)
  {}

  lemma ShellDoubtHere(line: string, toks: seq<Tok>, i: nat)
    requires SpansOk(line, toks) && i < |toks| && toks[i].kind == Word && InDoubt(line, toks, i)
    ensures ShellDoubt(line, toks, i)
  {
    hide SpansOk, InDoubt;
    assert ReachesTok(toks, i, i);
  }

  lemma FlagAndRest(line: string, toks: seq<Tok>, i: nat, u: Use, w: nat, rest: Option<seq<Use>>)
    requires SpansOk(line, toks) && i < |toks| && toks[i].kind == Word && !IsStop(toks[i])
    requires IsShellUse(line, toks, i, u) && !InDoubt(line, toks, i) && 1 <= w <= 2 && i + w <= |toks|
    requires (w == 2 ==> HasValue(line, toks, i)) && u.end == toks[i + w - 1].end
    requires rest.None? <==> ShellDoubt(line, toks, i + w)
    requires rest.Some? ==> ShellUses(line, toks, i + w, rest.value)
    ensures rest.None? <==> ShellDoubt(line, toks, i)
    ensures rest.Some? ==> ShellUses(line, toks, i, [u] + rest.value)
  {
    hide SpansOk, IsShellUse, InDoubt, ReachesTok, ShellUses, ShellDoubt, IsStop;
    var us := Or(rest);
    ShellBehind(line, toks, i + w, u.end, us);
    if w == 2 {
      ValueTokIsPlain(line, toks, i, i + 1);
      PastToken(line, toks, i + 1, us);
    }
    AtShellFlag(line, toks, i, u, us);
  }
}
