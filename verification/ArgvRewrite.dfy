/**
The rewrite of an argv launch (mux/claude_launch.go:668-727, 901-921): the same
decision as for a shell string, with list elements for spans.
*/
module ArgvRewrite {
  import opened Wrappers
  import opened ClaudeLaunch
  import opened SettingsSplice
  import opened ClaudeSettings
  import opened SettingsRewrite
  import opened RewriteTheorem

  /** One argument from i on: an occurrence takes one element or two. start and end
      index the argument list. */
  function ReadArgv(args: seq<string>, i: nat): (r: Arg)
    requires i < |args|
    ensures r.Flag? ==> 1 <= r.width <= 2 && i + r.width <= |args| && r.use.start == i && r.use.end == i + r.width
  {
    var a := args[i];
    if a == "--" then Stop
    else if a == FLAG then
      if i + 1 >= |args| || args[i + 1] == "" || args[i + 1][0] == '-' then Doubt
      else Flag(Use(args[i + 1], false, i, i + 2), 2)
    else if FLAG + "=" <= a then Flag(Use(a[|FLAG| + 1..], false, i, i + 1), 1)
    else Plain
  }

  function ArgvSettings(args: seq<string>, i: nat): Option<seq<Use>>
    decreases |args| - i
  {
    if i >= |args| then Some([])
    else
      match ReadArgv(args, i)
      case Plain => ArgvSettings(args, i + 1)
      case Doubt => None
      case Stop => Some([])
      case Flag(u, w) => ConsUse(u, ArgvSettings(args, i + w))
  }

  /** argvSettings. */
  method ArgvSettingsLoop(args: seq<string>) returns (r: Option<seq<Use>>)
    ensures r == ArgvSettings(args, 0)
  {
    hide ReadArgv;
    var uses: seq<Use> := [];
    var i := 0;
    assert ArgvSettings(args, 0).Some? ==> [] + ArgvSettings(args, 0).value == ArgvSettings(args, 0).value;
    while i < |args|
      invariant 0 <= i <= |args|
      invariant Prepend(uses, ArgvSettings(args, i)) == ArgvSettings(args, 0)
    {
      match ReadArgv(args, i) {
        case Doubt => return None;
        case Stop =>
          assert uses + [] == uses;
          return Some(uses);
        case Plain => i := i + 1;
        case Flag(u, w) =>
          PrependCons(uses, u, ArgvSettings(args, i + w));
          uses := uses + [u];
          i := i + w;
      }
    }
    assert uses + [] == uses;
    return Some(uses);
  }

  datatype ArgvEdit = ArgvEdit(args: seq<string>, value: string)

  /** The rewritten argument list, or None: unparsed. */
  function RewriteArgv(args: seq<string>, merge: Merge, copy: Copy): Option<ArgvEdit> {
    match ArgvSettings(args, 0)
    case None => None
    case Some(uses) =>
      if uses == [] then
        match merge("{}")
        case None => None
        case Some(m) => Some(ArgvEdit([FLAG + "=" + m] + args, m))
      else
        var use := uses[|uses| - 1];
        LastArgvUse(args, 0);
        match if IsInline(use.value) then merge(use.value) else copy(use)
        case None => None
        case Some(v) => Some(ArgvEdit(args[..use.start] + [FLAG + "=" + v] + args[use.end..], v))
  }

  /** The last occurrence is in bounds, is read there, and has none behind it. */
  lemma {:induction false} LastArgvUse(args: seq<string>, i: nat)
    requires i <= |args| && ArgvSettings(args, i).Some?
    ensures var us := ArgvSettings(args, i).value;
      us != [] ==>
        var use := us[|us| - 1];
        && i <= use.start < use.end <= |args|
        && ReadArgv(args, use.start) == Flag(use, use.end - use.start)
        && ArgvSettings(args, use.end) == Some([])
    decreases |args| - i
  {
    hide ReadArgv;
    if i < |args| {
      match ReadArgv(args, i)
      case Plain => LastArgvUse(args, i + 1);
      case Flag(u, w) => LastArgvUse(args, i + w);
      case _ =>
    }
  }

  lemma {:induction false} NoArgvSettingsMoved(xs: seq<string>, i: nat, ys: seq<string>, j: nat)
    requires i <= |xs| && j <= |ys| && xs[i..] == ys[j..] && ArgvSettings(xs, i) == Some([])
    ensures ArgvSettings(ys, j) == Some([])
    decreases |xs| - i
  {
    if i < |xs| {
      assert xs[i..][0] == xs[i] && ys[j..][0] == ys[j];
      assert xs[i..][1..] == xs[i + 1..] && ys[j..][1..] == ys[j + 1..];
      if ReadArgv(xs, i).Plain? {
        NoArgvSettingsMoved(xs, i + 1, ys, j + 1);
      }
    }
  }

  lemma FlagElementIsUse(args: seq<string>, i: nat, v: string)
    requires i < |args| && args[i] == FLAG + "=" + v
    ensures ReadArgv(args, i) == Flag(Use(v, false, i, i + 1), 1)
  {
    assert args[i][|FLAG| + 1..] == v;
    assert args[i][..|FLAG| + 1] == FLAG + "=";
    assert |args[i]| > |FLAG|;
  }

  /** Read back from anywhere in front of the replaced elements, the occurrences
      are the old ones with the last value replaced. */
  lemma {:induction false} ArgvReplaced(args: seq<string>, out: seq<string>, i: nat, a: nat, b: nat, v: string)
    requires i <= a < b <= |args|
    requires out == args[..a] + [FLAG + "=" + v] + args[b..]
    requires ArgvSettings(args, i).Some? && ArgvSettings(args, i).value != []
    requires var us := ArgvSettings(args, i).value; us[|us| - 1].start == a && us[|us| - 1].end == b
    ensures ArgvSettings(out, i).Some? && LastValueIs(ArgvSettings(args, i).value, ArgvSettings(out, i).value, v)
    decreases |args| - i
  {
    hide ReadArgv;
    var us := ArgvSettings(args, i).value;
    LastArgvUse(args, i);
    if i == a {
      FlagElementIsUse(out, a, v);
      assert out[a + 1..] == args[b..];
      NoArgvSettingsMoved(args, b, out, a + 1);
      assert ArgvSettings(args, a) == ConsUse(us[|us| - 1], ArgvSettings(args, b));
      assert ArgvSettings(out, a) == ConsUse(Use(v, false, a, a + 1), Some([]));
    } else {
      ArgvBefore(args, out, i, a, b, v);
      var step := ReadArgv(args, i);
      var next := if step.Plain? then i + 1 else i + step.width;
      if step.Flag? {
        assert us == [step.use] + ArgvSettings(args, next).value;
        ArgvLastBehind(args, i, a);
      }
      LastArgvUse(args, next);
      ArgvReplaced(args, out, next, a, b, v);
    }
  }

  /** The occurrence read at i is not the last one unless it stands there. */
  lemma ArgvLastBehind(args: seq<string>, i: nat, a: nat)
    requires i < a && i < |args| && ReadArgv(args, i).Flag?
    requires ArgvSettings(args, i).Some?
    requires var us := ArgvSettings(args, i).value; us[|us| - 1].start == a
    ensures ArgvSettings(args, i + ReadArgv(args, i).width).value != []
  {}

  lemma ArgvBefore(args: seq<string>, out: seq<string>, i: nat, a: nat, b: nat, v: string)
    requires i < a < b <= |args| && out == args[..a] + [FLAG + "=" + v] + args[b..]
    requires ArgvSettings(args, i).Some? && ArgvSettings(args, i).value != []
    requires var us := ArgvSettings(args, i).value; us[|us| - 1].start == a
    ensures ReadArgv(out, i) == ReadArgv(args, i)
  {
    assert out[i] == args[i];
    var step := ReadArgv(args, i);
    if step.Flag? {
      ArgvLastBehind(args, i, a);
      LastArgvUse(args, i + step.width);
      if i + 1 < a {
        assert out[i + 1] == args[i + 1];
      }
    }
  }

  /** The elements the rewrite replaces: the last occurrence's, or none, in front. */
  function LastRange(us: seq<Use>): (nat, nat) {
    if us == [] then (0, 0) else (us[|us| - 1].start, us[|us| - 1].end)
  }

  /** out is args with one element for v in place of the last occurrence. */
  predicate OneElementReplaced(args: seq<string>, us: seq<Use>, v: string, out: seq<string>) {
    var (a, b) := LastRange(us);
    a <= b <= |args| && out == args[..a] + [FLAG + "=" + v] + args[b..]
  }

  lemma RewriteReplacesOne(args: seq<string>, merge: Merge, copy: Copy)
    requires RewriteArgv(args, merge, copy).Some?
    ensures var e := RewriteArgv(args, merge, copy).value;
      ArgvSettings(args, 0).Some? && OneElementReplaced(args, ArgvSettings(args, 0).value, e.value, e.args)
  {
    hide ArgvSettings;
    LastArgvUse(args, 0);
  }

  /** An element needs no quoting: v is the merged text itself, or the copy's path. */
  ghost predicate GivesPlain(v: string, before: seq<Use>, merge: Merge, copy: Copy) {
    if IsPath(before) then copy(before[|before| - 1]) == Some(v) else Merged(before, merge) == Some(v)
  }

  lemma RewriteArgvGives(args: seq<string>, merge: Merge, copy: Copy)
    ensures var before := ArgvSettings(args, 0);
      var e := RewriteArgv(args, merge, copy);
      && (e.Some? <==> before.Some? && CanGive(before.value, merge, copy))
      && (e.Some? ==> GivesPlain(e.value.value, before.value, merge, copy))
  {
    hide ArgvSettings, IsInline, OpensObject;
    var before := ArgvSettings(args, 0);
    if before.Some? {
      LastArgvUse(args, 0);
      if before.value != [] {
        InlineMeans(before.value[|before.value| - 1].value);
      }
    }
  }

  /** Main theorem, for an argv launch: there is a rewrite exactly when the occurrences are
      read with certainty and the settings can be had. In the rewritten list one element
      stands for the last occurrence and all others are as they were; it shows an input
      box again, and the last --settings Claude sees gives those settings. */
  lemma RewriteArgvKeepsCommand(args: seq<string>, merge: Merge, copy: Copy)
    requires !NoInputBox(args)
    ensures var before := ArgvSettings(args, 0);
      var e := RewriteArgv(args, merge, copy);
      && (e.Some? <==> before.Some? && CanGive(before.value, merge, copy))
      && (e.Some? ==> ArgvKept(args, e.value) && LastElementGives(args, e.value.args, merge, copy))
  {
    hide NoInputBox, ReadArgv, ArgvSettings, LastValueIs, RewriteArgv, CanGive, GivesPlain;
    RewriteArgvGives(args, merge, copy);
    if RewriteArgv(args, merge, copy).Some? {
      RewriteArgvKept(args, merge, copy);
      LastOf(ArgvSettings(args, 0).value, ArgvSettings(RewriteArgv(args, merge, copy).value.args, 0).value,
        RewriteArgv(args, merge, copy).value.value);
    }
  }

  lemma LastOf(before: seq<Use>, us: seq<Use>, v: string)
    requires LastValueIs(before, us, v)
    ensures us != [] && us[|us| - 1].value == v
  {}

  /** The last --settings of the list as rewritten gives what the old ones asked for. */
  ghost predicate LastElementGives(args: seq<string>, args': seq<string>, merge: Merge, copy: Copy) {
    var before, after := ArgvSettings(args, 0), ArgvSettings(args', 0);
    && before.Some? && after.Some? && after.value != []
    && GivesPlain(after.value[|after.value| - 1].value, before.value, merge, copy)
  }

  /** What the theorem says of one rewrite. */
  ghost predicate ArgvKept(args: seq<string>, e: ArgvEdit) {
    && ArgvSettings(args, 0).Some? && OneElementReplaced(args, ArgvSettings(args, 0).value, e.value, e.args)
    && !NoInputBox(e.args)
    && ArgvSettings(e.args, 0).Some?
    && LastValueIs(ArgvSettings(args, 0).value, ArgvSettings(e.args, 0).value, e.value)
  }

  lemma RewriteArgvKept(args: seq<string>, merge: Merge, copy: Copy)
    requires !NoInputBox(args) && RewriteArgv(args, merge, copy).Some?
    ensures ArgvKept(args, RewriteArgv(args, merge, copy).value)
  {
    hide NoInputBox, ReadArgv, ArgvSettings, LastValueIs, RewriteArgv;
    RewriteReplacesOne(args, merge, copy);
    var e := RewriteArgv(args, merge, copy).value;
    var us := ArgvSettings(args, 0).value;
    if us == [] {
      assert e.args == [FLAG + "=" + e.value] + args;
      InsertedElement(args, e.value);
    } else {
      LastArgvUse(args, 0);
      ReplacedElement(args, us[|us| - 1].start, us[|us| - 1].end, e.value);
    }
  }

  /** The new element in front. */
  lemma InsertedElement(args: seq<string>, v: string)
    requires !NoInputBox(args) && ArgvSettings(args, 0) == Some([])
    ensures var out := [FLAG + "=" + v] + args;
      && !NoInputBox(out)
      && ArgvSettings(out, 0).Some? && LastValueIs([], ArgvSettings(out, 0).value, v)
  {
    hide NoInputBox, ReadArgv;
    var flag := FLAG + "=" + v;
    var out := [flag] + args;
    assert flag[..|FLAG| + 1] == FLAG + "=";
    assert [] + [] + args == args;
    BoxKept([], [], flag, args);
    assert [] + [flag] + args == out;
    FlagElementIsUse(out, 0, v);
    NoArgvSettingsMoved(args, 0, out, 1);
    assert ArgvSettings(out, 0) == ConsUse(Use(v, false, 0, 1), Some([]));
  }

  lemma ThreePieces(args: seq<string>, a: nat, b: nat)
    requires a <= b <= |args|
    ensures args[..a] + args[a..b] + args[b..] == args
  {}

  /** The new element in place of the last occurrence. */
  lemma ReplacedElement(args: seq<string>, a: nat, b: nat, v: string)
    requires !NoInputBox(args) && a < b <= |args|
    requires ArgvSettings(args, 0).Some? && ArgvSettings(args, 0).value != []
    requires var us := ArgvSettings(args, 0).value; us[|us| - 1].start == a && us[|us| - 1].end == b
    ensures var out := args[..a] + [FLAG + "=" + v] + args[b..];
      && !NoInputBox(out)
      && ArgvSettings(out, 0).Some? && LastValueIs(ArgvSettings(args, 0).value, ArgvSettings(out, 0).value, v)
  {
    hide NoInputBox, ReadArgv, ArgvSettings, LastValueIs;
    var flag := FLAG + "=" + v;
    assert flag[..|FLAG| + 1] == FLAG + "=";
    LastArgvUse(args, 0);
    ArgvReplaced(args, args[..a] + [flag] + args[b..], 0, a, b, v);
    ThreePieces(args, a, b);
    ReplacedElementsInert(args, a);
    BoxKept(args[..a], args[a..b], flag, args[b..]);
  }

  lemma ReplacedElementsInert(args: seq<string>, a: nat)
    requires a < |args| && ReadArgv(args, a).Flag?
    ensures a + ReadArgv(args, a).width <= |args| && AllInert(args[a..a + ReadArgv(args, a).width])
  {
    var w := ReadArgv(args, a).width;
    assert args[a..a + w][0] == args[a];
    assert FLAG <= args[a] by {
      assert (FLAG + "=")[..|FLAG|] == FLAG;
      if w == 1 {
        assert args[a][..|FLAG| + 1][..|FLAG|] == FLAG;
      }
    }
    assert args[a][..|FLAG|] == FLAG;
    assert args[a][2] == 's' && |args[a]| >= 10;
  }
}
