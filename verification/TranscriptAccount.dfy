/**
What the byte account of the transcript parse is worth (mux/controller_claude.go:797-831,
848-862).

`sizes` is called the bytes retained per turn. It is the bytes charged: a result filed
on a call that had one is charged in full, and the bytes it replaced are not given
back.
*/
module TranscriptAccount {
  import opened InputKey
  import opened Transcript

  // ── what a run replaces ──────────────────────────────────────────────────

  /** The result a block's result takes the place of. */
  function Displaced(b: Book, block: Block): string {
    if !block.ToolResult? then ""
    else
      var i := AttachedIn(b.turns, block.id);
      if i < 0 then "" else b.turns[i].tools[LastCall(b.turns[i].tools, block.id)].result
  }

  function DisplacedBytes(b: Book, blocks: seq<Block>): nat {
    if blocks == [] then 0
    else
      var init := blocks[..|blocks| - 1];
      DisplacedBytes(b, init) + Size(Displaced(Results(b, init), blocks[|blocks| - 1]))
  }

  /** The bytes of all results that another has replaced. */
  function ReplacedBytes(entries: seq<Entry>): nat {
    if entries == [] then 0
    else
      var init, e := entries[..|entries| - 1], entries[|entries| - 1];
      ReplacedBytes(init) + if e.User? then DisplacedBytes(Parse(init), e.blocks) else 0
  }

  predicate FilesOnOpenCalls(b: Book, blocks: seq<Block>) {
    blocks == [] ||
    (FilesOnOpenCalls(b, blocks[..|blocks| - 1])
     && Displaced(Results(b, blocks[..|blocks| - 1]), blocks[|blocks| - 1]) == "")
  }

  /** No result is filed on a call that has one. */
  predicate AnswersOnce(entries: seq<Entry>) {
    entries == [] ||
    (AnswersOnce(entries[..|entries| - 1])
     && (entries[|entries| - 1].User? ==>
           FilesOnOpenCalls(Parse(entries[..|entries| - 1]), entries[|entries| - 1].blocks)))
  }

  // ── sums ─────────────────────────────────────────────────────────────────

  lemma {:induction false} TotalAppend(turns: seq<Turn>, t: Turn)
    ensures TotalBytes(turns + [t]) == TotalBytes(turns) + TurnBytes(t)
  {
    if turns == [] {
      assert (turns + [t])[1..] == [];
    } else {
      assert (turns + [t])[1..] == turns[1..] + [t];
      TotalAppend(turns[1..], t);
    }
  }

  lemma {:induction false} TotalUpdate(turns: seq<Turn>, i: nat, t: Turn)
    requires i < |turns|
    ensures TotalBytes(turns[i := t]) == TotalBytes(turns) - TurnBytes(turns[i]) + TurnBytes(t)
  {
    hide TurnBytes;
    if i == 0 {
      assert turns[i := t][1..] == turns[1..];
    } else {
      assert turns[i := t][1..] == turns[1..][i - 1 := t];
      TotalUpdate(turns[1..], i - 1, t);
    }
  }

  /** The charges are the bytes held and `more`. */
  ghost predicate Accounts(b: Book, more: nat) {
    |b.turns| == |b.sizes| && Sum(b.sizes) == TotalBytes(b.turns) + more
  }

  lemma PushAccounts(b: Book, t: Turn, open: bool, more: nat)
    requires Accounts(b, more)
    ensures Accounts(Pushed(b, t, TurnBytes(t), open), more)
  {
    hide TurnBytes;
    SumAppend(b.sizes, TurnBytes(t));
    TotalAppend(b.turns, t);
  }

  lemma AnsweredBytes(t: Turn, id: string, text: string)
    requires LastCall(t.tools, id) >= 0
    ensures TurnBytes(Answered(t, id, text)) ==
      TurnBytes(t) - Size(t.tools[LastCall(t.tools, id)].result) + Size(text)
  {
    CallBytesUpdate(t.tools, LastCall(t.tools, id), text);
  }

  lemma ResultAccounts(b: Book, block: Block, more: nat)
    requires Accounts(b, more)
    ensures Accounts(Result(b, block), more + Size(Displaced(b, block)))
  {
    hide Sum, TotalBytes, TurnBytes, Answered, AttachedIn, LastCall, Size;
    NoSizeIsEmpty("");
    if block.ToolResult? {
      var i := AttachedIn(b.turns, block.id);
      if i >= 0 {
        var t := b.turns[i];
        AnsweredBytes(t, block.id, block.text);
        SumCharge(b.sizes, i, Size(block.text));
        TotalUpdate(b.turns, i, Answered(t, block.id, block.text));
      }
    }
  }

  lemma {:induction false} ResultsAccount(b: Book, blocks: seq<Block>, more: nat)
    requires Accounts(b, more)
    ensures Accounts(Results(b, blocks), more + DisplacedBytes(b, blocks))
    decreases |blocks|
  {
    hide Accounts, Result, Displaced, Size;
    if blocks != [] {
      var init := blocks[..|blocks| - 1];
      ResultsAccount(b, init, more);
      ResultAccounts(Results(b, init), blocks[|blocks| - 1], more + DisplacedBytes(b, init));
    }
  }

  lemma ReplyAccounts(b: Book, blocks: seq<Block>, more: nat)
    requires Accounts(b, more)
    ensures Accounts(Reply(b, blocks), more)
  {
    hide Sum, TotalBytes;
    if b.turns != [] {
      var i := |b.turns| - 1;
      WithBlocksBytes(b.turns[i], blocks);
      SumCharge(b.sizes, i, BlocksCost(b.turns[i], blocks));
      TotalUpdate(b.turns, i, WithBlocks(b.turns[i], blocks));
    }
  }

  /** The account, to the byte: what is charged is what is held and what was replaced. */
  lemma {:induction false} ChargedIsHeldAndReplaced(entries: seq<Entry>)
    ensures Accounts(Parse(entries), ReplacedBytes(entries))
    decreases |entries|
  {
    hide Accounts, Results, Reply, DisplacedBytes, TurnBytes;
    if entries == [] {
      NothingCharged();
      return;
    }
    var init, e := entries[..|entries| - 1], entries[|entries| - 1];
    var b, more := Parse(init), ReplacedBytes(init);
    ChargedIsHeldAndReplaced(init);
    match e
    case Prompt(text, time) =>
      TextWeighsItself(text, time);
      PushAccounts(b, Turn(true, text, [], time), false, more);
    case User(blocks) =>
      ResultsAccount(b, blocks, more);
    case Assistant(time, blocks) =>
      NothingWeighsNothing(time);
      PushAccounts(b, Turn(false, "", [], time), true, more);
      ReplyAccounts(Opened(b, time), blocks, more);
    case Skipped =>
  }

  lemma NothingCharged()
    ensures Accounts(EMPTY, 0)
  {}

  lemma TextWeighsItself(text: string, time: int)
    ensures TurnBytes(Turn(true, text, [], time)) == Size(text)
  {}

  lemma NothingWeighsNothing(time: int)
    ensures TurnBytes(Turn(false, "", [], time)) == 0
  {}

  // ── when the account is exact ────────────────────────────────────────────

  lemma {:induction false} NoSizeIsEmpty(s: string)
    ensures Size(s) == 0 <==> s == ""
  {
    SizeAtMost(s);
  }

  lemma {:induction false} OpenCallsReplaceNothing(b: Book, blocks: seq<Block>)
    ensures DisplacedBytes(b, blocks) == 0 <==> FilesOnOpenCalls(b, blocks)
    decreases |blocks|
  {
    if blocks != [] {
      var init := blocks[..|blocks| - 1];
      OpenCallsReplaceNothing(b, init);
      NoSizeIsEmpty(Displaced(Results(b, init), blocks[|blocks| - 1]));
    }
  }

  lemma {:induction false} AnswersOnceReplacesNothing(entries: seq<Entry>)
    ensures ReplacedBytes(entries) == 0 <==> AnswersOnce(entries)
    decreases |entries|
  {
    if entries != [] {
      var init, e := entries[..|entries| - 1], entries[|entries| - 1];
      AnswersOnceReplacesNothing(init);
      if e.User? {
        OpenCallsReplaceNothing(Parse(init), e.blocks);
      }
    }
  }

  predicate IsExact(turns: seq<Turn>, sizes: seq<nat>) {
    |turns| == |sizes| && forall i :: 0 <= i < |turns| ==> TurnBytes(turns[i]) == sizes[i]
  }

  lemma {:induction false} SumsAgree(turns: seq<Turn>, sizes: seq<nat>)
    requires |turns| == |sizes| && forall i :: 0 <= i < |turns| ==> TurnBytes(turns[i]) <= sizes[i]
    ensures Sum(sizes) == TotalBytes(turns) <==> IsExact(turns, sizes)
  {
    hide TurnBytes;
    if turns != [] {
      TotalWithin(turns[1..], sizes[1..]);
      SumsAgree(turns[1..], sizes[1..]);
      ExactHeadAndTail(turns, sizes);
    }
  }

  lemma ExactHeadAndTail(turns: seq<Turn>, sizes: seq<nat>)
    requires |turns| == |sizes| && turns != []
    ensures IsExact(turns, sizes) <==> TurnBytes(turns[0]) == sizes[0] && IsExact(turns[1..], sizes[1..])
  {
    hide TurnBytes;
    if TurnBytes(turns[0]) == sizes[0] && IsExact(turns[1..], sizes[1..]) {
      forall i | 0 <= i < |turns| ensures TurnBytes(turns[i]) == sizes[i] {
        if i > 0 {
          assert turns[i] == turns[1..][i - 1] && sizes[i] == sizes[1..][i - 1];
        }
      }
    }
  }

  /** Every turn is charged the bytes it holds if and only if no result was filed on a call
      that had one. */
  lemma ExactlyWhenAnsweredOnce(entries: seq<Entry>)
    ensures IsExact(Parse(entries).turns, Parse(entries).sizes) <==> AnswersOnce(entries)
  {
    hide Sum, TotalBytes, TurnBytes;
    var b := Parse(entries);
    ParseCovers(entries);
    ChargedIsHeldAndReplaced(entries);
    AnswersOnceReplacesNothing(entries);
    SumsAgree(b.turns, b.sizes);
  }

  // ── what over-charging costs ─────────────────────────────────────────────

  function Held(turns: seq<Turn>): (sizes: seq<nat>)
    ensures |sizes| == |turns| && forall i :: 0 <= i < |turns| ==> sizes[i] == TurnBytes(turns[i])
  {
    seq(|turns|, i requires 0 <= i < |turns| => TurnBytes(turns[i]))
  }

  lemma {:induction false} LessIsKeptOfMore(held: seq<nat>, charged: seq<nat>, maxTurns: int, budget: int)
    requires |held| == |charged| && forall i :: 0 <= i < |held| ==> held[i] <= charged[i]
    ensures FirstKept(held, maxTurns, budget) <= FirstKept(charged, maxTurns, budget)
    decreases |held|
  {
    SumAtMost(held, charged);
    if |held| > 1 && !Fits(held, maxTurns, budget) {
      LessIsKeptOfMore(held[1..], charged[1..], maxTurns, budget);
    }
  }

  lemma {:induction false} SumAtMost(a: seq<nat>, b: seq<nat>)
    requires |a| == |b| && forall i :: 0 <= i < |a| ==> a[i] <= b[i]
    ensures Sum(a) <= Sum(b)
  {
    if a != [] {
      SumAtMost(a[1..], b[1..]);
    }
  }

  /** By its charges the parse never keeps a turn it would drop by the bytes held; and it
      keeps just those when no result was replaced. */
  lemma KeptByBytesHeld(entries: seq<Entry>, maxTurns: int, budget: int)
    ensures var b := Parse(entries);
      && FirstKept(Held(b.turns), maxTurns, budget) <= FirstKept(b.sizes, maxTurns, budget)
      && (AnswersOnce(entries) ==> FirstKept(Held(b.turns), maxTurns, budget) == FirstKept(b.sizes, maxTurns, budget))
  {
    hide TurnBytes, Parse, AnswersOnce, FirstKept;
    var b := Parse(entries);
    ParseCovers(entries);
    LessIsKeptOfMore(Held(b.turns), b.sizes, maxTurns, budget);
    ExactlyWhenAnsweredOnce(entries);
    assert AnswersOnce(entries) ==> Held(b.turns) == b.sizes;
  }

  // ── an entry list that shows it ──────────────────────────────────────────

  /** A prompt, one call, and two results for it. */
  function AnsweredTwice(prompt: string, name: string, id: string, first: string, second: string): seq<Entry> {
    [Prompt(prompt, 0), Assistant(0, [ToolUse(name, id, "")]), User([ToolResult(id, first), ToolResult(id, second)])]
  }

  lemma ParseMore(es: seq<Entry>, e: Entry)
    ensures Parse(es + [e]) == Step(Parse(es), e)
  {
    assert (es + [e])[..|es|] == es;
  }

  lemma TwoResults(b: Book, r1: Block, r2: Block)
    ensures Results(b, [r1, r2]) == Result(Result(b, r1), r2)
  {
    hide Result;
    assert [r1, r2][..1] == [r1] && [r1][..0] == [];
    assert Results(b, [r1]) == Result(Results(b, []), r1);
  }

  lemma UsesOneCall(name: string, id: string)
    ensures WithBlocks(Turn(false, "", [], 0), [ToolUse(name, id, "")]) == Turn(false, "", [Call(name, id, "", "")], 0)
    ensures BlocksCost(Turn(false, "", [], 0), [ToolUse(name, id, "")]) == Size(name)
  {
    var use := [ToolUse(name, id, "")];
    assert use[..0] == [];
    assert Size("") == 0;
  }

  /** Two turns, the second with one call, and that is the one a result answers. */
  function Pair(prompt: string, call: Call): seq<Turn> {
    [Turn(true, prompt, [], 0), Turn(false, "", [call], 0)]
  }

  lemma OneCallTakes(prompt: string, call: Call, sizes: seq<nat>, open: bool, text: string)
    requires call.id != "" && |sizes| == 2
    ensures Result(Book(Pair(prompt, call), sizes, open), ToolResult(call.id, text)) ==
      Book(Pair(prompt, call.(result := text)), [sizes[0], sizes[1] + Size(text)], open)
  {
    hide Size;
    assert LastCall([call], call.id) == 0;
    assert AttachedIn(Pair(prompt, call), call.id) == 1;
    assert [call][0 := call.(result := text)] == [call.(result := text)];
  }

  lemma CallParses(prompt: string, name: string, id: string)
    ensures Parse([Prompt(prompt, 0), Assistant(0, [ToolUse(name, id, "")])]) ==
      Book(Pair(prompt, Call(name, id, "", "")), [Size(prompt), Size(name)], true)
  {
    hide Size, WithBlocks, BlocksCost, Parse;
    var e1, e2 := Prompt(prompt, 0), Assistant(0, [ToolUse(name, id, "")]);
    NothingParsed();
    ParseMore([], e1);
    ParseMore([e1], e2);
    assert [] + [e1] == [e1] && [e1] + [e2] == [e1, e2];
    UsesOneCall(name, id);
  }

  lemma TwoAnswers(prompt: string, call: Call, a: nat, c: nat, first: string, second: string)
    requires call.id != ""
    ensures
      var results := [ToolResult(call.id, first), ToolResult(call.id, second)];
      Results(Book(Pair(prompt, call), [a, c], true), results) ==
      Book(Pair(prompt, call.(result := second)), [a, c + Size(first) + Size(second)], true)
  {
    hide Size, Results, Result, Pair;
    TwoResults(Book(Pair(prompt, call), [a, c], true), ToolResult(call.id, first), ToolResult(call.id, second));
    OneCallTakes(prompt, call, [a, c], true, first);
    OneCallTakes(prompt, call.(result := first), [a, c + Size(first)], true, second);
  }

  lemma AnsweredTwiceParses(prompt: string, name: string, id: string, first: string, second: string)
    requires id != ""
    ensures var b := Parse(AnsweredTwice(prompt, name, id, first, second));
      && b.turns == Pair(prompt, Call(name, id, "", second))
      && b.sizes == [Size(prompt), Size(name) + Size(first) + Size(second)]
  {
    hide Size, Results, Parse, Pair;
    var es := [Prompt(prompt, 0), Assistant(0, [ToolUse(name, id, "")])];
    var e := User([ToolResult(id, first), ToolResult(id, second)]);
    CallParses(prompt, name, id);
    ParseMore(es, e);
    assert es + [e] == AnsweredTwice(prompt, name, id, first, second);
    TwoAnswers(prompt, Call(name, id, "", ""), Size(prompt), Size(name), first, second);
  }

  lemma NothingParsed()
    ensures Parse([]) == EMPTY
  {}

  lemma PairBytes(prompt: string, call: Call)
    requires call.input == ""
    ensures var turns := Pair(prompt, call);
      && TurnBytes(turns[1]) == Size(call.name) + Size(call.result)
      && TotalBytes(turns) == Size(prompt) + TurnBytes(turns[1])
      && Held(turns) == [Size(prompt), TurnBytes(turns[1])]
  {
    hide Size;
    var t1, t2, none: seq<Turn> := Turn(true, prompt, [], 0), Turn(false, "", [call], 0), [];
    NoSizeIsEmpty("");
    TextWeighsItself(prompt, 0);
    CallWeighs(call);
    TotalAppend(none, t1);
    TotalAppend(none + [t1], t2);
    assert none + [t1] + [t2] == Pair(prompt, call);
  }

  lemma CallWeighs(call: Call)
    ensures CallBytes([call]) == Size(call.name) + Size(call.input) + Size(call.result)
  {
    var calls, none: seq<Call> := [call], [];
    assert calls[..|calls| - 1] == none;
  }

  lemma TwoKept(a: nat, c: nat, budget: int)
    ensures FirstKept([a, c], 2, budget) == if a + c <= budget then 0 else 1
  {
    var none: seq<nat> := [];
    SumAppend(none, a);
    SumAppend(none + [a], c);
    var two := [a, c];
    assert none + [a] + [c] == two && two[1..] == [c];
  }

  /** Its second turn is charged the first result too; and with a budget of just the bytes
      held, the prompt is dropped that would have fitted. */
  lemma ReplacedResultIsCharged(prompt: string, name: string, id: string, first: string, second: string)
    requires id != "" && first != ""
    ensures var b := Parse(AnsweredTwice(prompt, name, id, first, second));
      && |b.turns| == |b.sizes| == 2
      && b.sizes[1] == TurnBytes(b.turns[1]) + Size(first)
      && b.sizes[1] > TurnBytes(b.turns[1])
      && FirstKept(b.sizes, 2, TotalBytes(b.turns)) == 1
      && FirstKept(Held(b.turns), 2, TotalBytes(b.turns)) == 0
  {
    hide Size, Parse, FirstKept, TurnBytes, TotalBytes, Held;
    var b := Parse(AnsweredTwice(prompt, name, id, first, second));
    AnsweredTwiceParses(prompt, name, id, first, second);
    NoSizeIsEmpty(first);
    PairBytes(prompt, Call(name, id, "", second));
    TwoKept(b.sizes[0], b.sizes[1], TotalBytes(b.turns));
    TwoKept(b.sizes[0], TurnBytes(b.turns[1]), TotalBytes(b.turns));
  }
}
