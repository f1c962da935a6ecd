/**
What the turns of `Transcript` are, said of the entries as they lie there
(mux/controller_claude.go:784-905): the prompts, and between two of them one reply that
gathers all that was said and called in that stretch.
*/
module TranscriptTurns {
  import opened InputKey
  import opened Transcript

  // ── a stretch without prompts ────────────────────────────────────────────

  /** A text said, trimmed; a blank one is none. */
  function TextOf(b: Block): seq<string> {
    if b.TextBlock? && TrimSpace(b.text) != "" then [TrimSpace(b.text)] else []
  }

  function TextsOf(blocks: seq<Block>): seq<string> {
    if blocks == [] then [] else TextOf(blocks[0]) + TextsOf(blocks[1..])
  }

  /** A call made, not answered yet. */
  function CallOf(b: Block): seq<Call> {
    if b.ToolUse? then [Call(b.name, b.id, b.input, "")] else []
  }

  function CallsOf(blocks: seq<Block>): seq<Call> {
    if blocks == [] then [] else CallOf(blocks[0]) + CallsOf(blocks[1..])
  }

  /** What an entry of the assistant's holds. */
  function Said(e: Entry): seq<Block> {
    if e.Assistant? then e.blocks else []
  }

  function BlocksOf(es: seq<Entry>): seq<Block> {
    if es == [] then [] else Said(es[0]) + BlocksOf(es[1..])
  }

  /** The texts with a blank line between any two. */
  function Paragraphs(texts: seq<string>): string {
    if texts == [] then ""
    else if |texts| == 1 then texts[0]
    else texts[0] + "\n\n" + Paragraphs(texts[1..])
  }

  /** The first of the assistant's entries. */
  function FirstReply(es: seq<Entry>): (i: nat)
    ensures i <= |es| && (i < |es| ==> es[i].Assistant?)
    ensures forall j :: 0 <= j < i ==> !es[j].Assistant?
  {
    if es == [] || es[0].Assistant? then 0 else 1 + FirstReply(es[1..])
  }

  predicate HasReply(es: seq<Entry>) {
    FirstReply(es) < |es|
  }

  /** One turn if the assistant said anything at all, even nothing; else none. */
  function StretchTurns(es: seq<Entry>): seq<Turn> {
    if !HasReply(es) then []
    else [Turn(false, Paragraphs(TextsOf(BlocksOf(es))), CallsOf(BlocksOf(es)), es[FirstReply(es)].time)]
  }

  // ── the conversation ─────────────────────────────────────────────────────

  /** The last prompt, or -1. */
  function LastPrompt(es: seq<Entry>): (p: int)
    ensures -1 <= p < |es| && (p >= 0 ==> es[p].Prompt?)
    ensures forall j :: p < j < |es| ==> !es[j].Prompt?
  {
    if es == [] then -1 else if es[|es| - 1].Prompt? then |es| - 1 else LastPrompt(es[..|es| - 1])
  }

  /** A turn for each prompt, and behind it the reply, if there is one. */
  function Conversation(es: seq<Entry>): seq<Turn>
    decreases |es|
  {
    var p := LastPrompt(es);
    (if p < 0 then [] else Conversation(es[..p]) + [Turn(true, es[p].text, [], es[p].time)]) + StretchTurns(es[p + 1..])
  }

  /** The call before it was answered. */
  function Open(c: Call): Call {
    c.(result := "")
  }

  function OpenCalls(calls: seq<Call>): (r: seq<Call>)
    ensures |r| == |calls|
  {
    seq(|calls|, i requires 0 <= i < |calls| => Open(calls[i]))
  }

  /** The turns but for the results that were filed on their calls. */
  function Unanswered(turns: seq<Turn>): (r: seq<Turn>)
    ensures |r| == |turns|
  {
    seq(|turns|, i requires 0 <= i < |turns| => turns[i].(tools := OpenCalls(turns[i].tools)))
  }

  // ── the proof ────────────────────────────────────────────────────────────

  lemma {:induction false} TextsAppend(a: seq<Block>, b: seq<Block>)
    ensures TextsOf(a + b) == TextsOf(a) + TextsOf(b)
    ensures CallsOf(a + b) == CallsOf(a) + CallsOf(b)
  {
    hide TextOf, CallOf;
    if a == [] {
      assert a + b == b;
    } else {
      assert (a + b)[1..] == a[1..] + b;
      TextsAppend(a[1..], b);
    }
  }

  lemma {:induction false} BlocksAppend(es: seq<Entry>, e: Entry)
    ensures BlocksOf(es + [e]) == BlocksOf(es) + Said(e)
  {
    hide Said;
    if es == [] {
      assert (es + [e])[1..] == [];
      assert BlocksOf([e]) == Said(e) + BlocksOf([]);
    } else {
      assert (es + [e])[1..] == es[1..] + [e];
      BlocksAppend(es[1..], e);
    }
  }

  lemma {:induction false} ParagraphsAppend(texts: seq<string>, t: string)
    ensures Paragraphs(texts + [t]) == if texts == [] then t else Paragraphs(texts) + "\n\n" + t
  {
    if |texts| > 1 {
      assert (texts + [t])[1..] == texts[1..] + [t];
      ParagraphsAppend(texts[1..], t);
    } else if |texts| == 1 {
      assert (texts + [t])[1..] == [t];
    }
  }

  lemma {:induction false} ParagraphsEmpty(texts: seq<string>)
    requires "" !in texts
    ensures Paragraphs(texts) == "" <==> texts == []
  {}

  lemma {:induction false} TextsNotBlank(blocks: seq<Block>)
    ensures "" !in TextsOf(blocks)
  {
    if blocks != [] {
      TextsNotBlank(blocks[1..]);
    }
  }

  /** A turn with more blocks has their texts and calls behind its own. */
  lemma {:induction false} WithBlocksMeans(t: Turn, done: seq<Block>, blocks: seq<Block>)
    requires t.text == Paragraphs(TextsOf(done)) && OpenCalls(t.tools) == CallsOf(done)
    ensures var t' := WithBlocks(t, blocks);
      && t'.text == Paragraphs(TextsOf(done + blocks)) && OpenCalls(t'.tools) == CallsOf(done + blocks)
      && t'.user == t.user && t'.time == t.time
    decreases |blocks|
  {
    if blocks == [] {
      assert done + blocks == done;
    } else {
      var init, b := blocks[..|blocks| - 1], blocks[|blocks| - 1];
      WithBlocksMeans(t, done, init);
      assert done + blocks == done + init + [b];
      WithBlockMeans(WithBlocks(t, init), done + init, b);
    }
  }

  lemma WithBlockMeans(t: Turn, done: seq<Block>, b: Block)
    requires t.text == Paragraphs(TextsOf(done)) && OpenCalls(t.tools) == CallsOf(done)
    ensures var t' := WithBlock(t, b);
      && t'.text == Paragraphs(TextsOf(done + [b])) && OpenCalls(t'.tools) == CallsOf(done + [b])
      && t'.user == t.user && t'.time == t.time
  {
    hide TrimSpace, Paragraphs;
    TextsAppend(done, [b]);
    TextsNotBlank(done);
    ParagraphsEmpty(TextsOf(done));
    OneBlock(b);
    assert TextsOf(done) + [] == TextsOf(done) && CallsOf(done) + [] == CallsOf(done);
    match b
    case TextBlock(text) =>
      if TrimSpace(text) != "" {
        ParagraphsAppend(TextsOf(done), TrimSpace(text));
      }
    case ToolUse(name, id, input) =>
      assert OpenCalls(t.tools + [Call(name, id, input, "")]) == OpenCalls(t.tools) + [Call(name, id, input, "")];
    case _ =>
  }

  lemma OneBlock(b: Block)
    ensures TextsOf([b]) == TextOf(b) && CallsOf([b]) == CallOf(b)
  {
    assert [b][1..] == [];
    assert TextOf(b) + [] == TextOf(b) && CallOf(b) + [] == CallOf(b);
  }

  lemma {:induction false} ResultsOpen(b: Book, blocks: seq<Block>)
    ensures Unanswered(Results(b, blocks).turns) == Unanswered(b.turns) && Results(b, blocks).open == b.open
    decreases |blocks|
  {
    hide AttachedIn, LastCall;
    if blocks != [] {
      var init := Results(b, blocks[..|blocks| - 1]);
      ResultsOpen(b, blocks[..|blocks| - 1]);
      if blocks[|blocks| - 1].ToolResult? {
        AttachedOpen(init.turns, blocks[|blocks| - 1].id, blocks[|blocks| - 1].text);
      }
    }
  }

  lemma AttachedOpen(turns: seq<Turn>, id: string, text: string)
    ensures Unanswered(Attached(turns, id, text)) == Unanswered(turns)
  {
    var i := AttachedIn(turns, id);
    if i >= 0 {
      var j := LastCall(turns[i].tools, id);
      assert OpenCalls(turns[i].tools[j := turns[i].tools[j].(result := text)]) == OpenCalls(turns[i].tools);
    }
  }

  lemma {:induction false} FirstReplyAppend(es: seq<Entry>, e: Entry)
    ensures FirstReply(es + [e]) == if HasReply(es) || e.Assistant? then FirstReply(es) else |es| + 1
  {
    if es == [] {
      assert (es + [e])[1..] == [];
    } else {
      assert (es + [e])[1..] == es[1..] + [e];
      FirstReplyAppend(es[1..], e);
    }
  }

  /** The entries behind the last prompt. */
  function Stretch(es: seq<Entry>): seq<Entry> {
    es[LastPrompt(es) + 1..]
  }

  lemma MoreStretch(es: seq<Entry>, e: Entry)
    requires !e.Prompt?
    ensures LastPrompt(es + [e]) == LastPrompt(es) && Stretch(es + [e]) == Stretch(es) + [e]
    ensures Conversation(es + [e]) ==
      Conversation(es)[..|Conversation(es)| - |StretchTurns(Stretch(es))|] + StretchTurns(Stretch(es) + [e])
  {
    hide StretchTurns;
    var p := LastPrompt(es);
    assert (es + [e])[..|es|] == es;
    assert (es + [e])[p + 1..] == es[p + 1..] + [e];
    EndsInStretch(es);
    ConversationIs(es);
    ConversationIs(es + [e]);
    if p >= 0 {
      assert (es + [e])[..p] == es[..p];
    }
  }

  /** What is in front of the last stretch. */
  function Front(es: seq<Entry>): seq<Turn> {
    var p := LastPrompt(es);
    if p < 0 then [] else Conversation(es[..p]) + [Turn(true, es[p].text, [], es[p].time)]
  }

  lemma ConversationIs(es: seq<Entry>)
    ensures Conversation(es) == Front(es) + StretchTurns(Stretch(es))
  {
    hide StretchTurns, LastPrompt;
  }

  /** The unbounded parse is the conversation, results aside. */
  lemma {:induction false} ParseIsConversation(es: seq<Entry>)
    ensures Unanswered(Parse(es).turns) == Conversation(es)
    ensures Parse(es).open == HasReply(Stretch(es))
    decreases |es|
  {
    hide Conversation, StretchTurns, Results, WithBlocks, LastPrompt, Unanswered, Stretch, FirstReply, Reply;
    if es == [] {
      NothingSaid();
    } else {
      var init, e := es[..|es| - 1], es[|es| - 1];
      ParseIsConversation(init);
      assert es == init + [e];
      match e
      case Prompt(text, time) => PromptStep(init, e);
      case User(blocks) =>
        ResultsOpen(Parse(init), blocks);
        SilentStep(init, e);
      case Skipped => SilentStep(init, e);
      case Assistant(time, blocks) => ReplyStep(init, e);
    }
  }

  lemma NothingSaid()
    ensures Conversation([]) == [] && !HasReply(Stretch([]))
  {
    hide Paragraphs, TextsOf, CallsOf, BlocksOf;
    ConversationIs([]);
  }

  lemma PromptStep(init: seq<Entry>, e: Entry)
    requires e.Prompt? && Unanswered(Parse(init).turns) == Conversation(init)
    ensures var b := Step(Parse(init), e);
      Unanswered(b.turns) == Conversation(init + [e]) && b.open == HasReply(Stretch(init + [e]))
  {
    hide Conversation;
    var es := init + [e];
    assert es[..|init|] == init && es[|init| + 1..] == [];
    ConversationIs(es);
    assert StretchTurns([]) == [];
    assert OpenCalls([]) == [];
    assert Unanswered(Parse(init).turns + [Turn(true, e.text, [], e.time)]) ==
      Unanswered(Parse(init).turns) + [Turn(true, e.text, [], e.time)];
  }

  lemma SilentStep(init: seq<Entry>, e: Entry)
    requires e.User? || e.Skipped?
    ensures Conversation(init + [e]) == Conversation(init)
    ensures HasReply(Stretch(init + [e])) == HasReply(Stretch(init))
  {
    hide Conversation;
    var s := Stretch(init);
    MoreStretch(init, e);
    FirstReplyAppend(s, e);
    BlocksAppend(s, e);
    assert BlocksOf(s + [e]) == BlocksOf(s);
    EndsInStretch(init);
  }

  lemma EndsInStretch(es: seq<Entry>)
    ensures var c, s := Conversation(es), StretchTurns(Stretch(es));
      |s| <= |c| && c[|c| - |s|..] == s && c[..|c| - |s|] == Front(es) && c[..|c| - |s|] + s == c
  {
    hide StretchTurns, Conversation, Front;
    ConversationIs(es);
  }

  lemma ReplyStep(init: seq<Entry>, e: Entry)
    requires e.Assistant? && Unanswered(Parse(init).turns) == Conversation(init)
    requires Parse(init).open == HasReply(Stretch(init))
    ensures var b := Step(Parse(init), e);
      Unanswered(b.turns) == Conversation(init + [e]) && b.open == HasReply(Stretch(init + [e]))
  {
    hide Conversation, WithBlocks, StretchTurns, Stretch, LastPrompt, Parse, Charge, BlocksCost, FirstReply;
    var s, b := Stretch(init), Parse(init);
    MoreStretch(init, e);
    FirstReplyAppend(s, e);
    EndsInStretch(init);
    var o := Opened(b, e.time);
    var i := |o.turns| - 1;
    LongerReply(s, e, b.open);
    if b.open {
      assert Unanswered(b.turns)[i] == Conversation(init)[i] == StretchTurns(s)[0];
    }
    OneReply(o.turns[i], s, e);
    var t' := WithBlocks(o.turns[i], e.blocks);
    assert Unanswered(o.turns[i := t']) == Unanswered(o.turns[..i]) + [t'.(tools := OpenCalls(t'.tools))];
    assert Unanswered(o.turns[..i]) == Conversation(init)[..|Conversation(init)| - |StretchTurns(s)|];
  }

  lemma LongerReply(s: seq<Entry>, e: Entry, open: bool)
    requires e.Assistant? && open == HasReply(s)
    ensures |StretchTurns(s)| == (if open then 1 else 0) && |StretchTurns(s + [e])| == 1
    ensures HasReply(s + [e])
  {
    FirstReplyAppend(s, e);
  }

  /** The turn the stretch has, with the blocks of one more entry. */
  lemma OneReply(t: Turn, s: seq<Entry>, e: Entry)
    requires e.Assistant?
    requires
      if HasReply(s) then [t.(tools := OpenCalls(t.tools))] == StretchTurns(s) else t == Turn(false, "", [], e.time)
    ensures var t' := WithBlocks(t, e.blocks);
      [t'.(tools := OpenCalls(t'.tools))] == StretchTurns(s + [e])
  {
    hide WithBlocks, TextsOf, CallsOf, Paragraphs, BlocksOf;
    FirstReplyAppend(s, e);
    BlocksAppend(s, e);
    if HasReply(s) {
      assert t.(tools := OpenCalls(t.tools)) == StretchTurns(s)[0];
      assert s[FirstReply(s)] == (s + [e])[FirstReply(s)];
    } else {
      NoBlocks(s);
    }
    WithBlocksMeans(t, BlocksOf(s), e.blocks);
  }

  lemma {:induction false} NoBlocks(es: seq<Entry>)
    requires !HasReply(es)
    ensures BlocksOf(es) == [] && TextsOf([]) == [] && CallsOf([]) == [] && Paragraphs([]) == "" && OpenCalls([]) == []
  {
    if es != [] {
      NoBlocks(es[1..]);
    }
  }

  /** Trimming takes the blanks off both ends and nothing else. */
  lemma {:induction false} TrimmedIs(s: string) returns (i: nat, j: nat)
    ensures i <= j <= |s| && TrimSpace(s) == s[i..j]
    ensures (forall k :: 0 <= k < i ==> IsSpace(s[k])) && (forall k :: j <= k < |s| ==> IsSpace(s[k]))
    ensures i < j ==> !IsSpace(s[i]) && !IsSpace(s[j - 1])
    decreases |s|
  {
    hide IsSpace;
    if s == "" {
      i, j := 0, 0;
    } else if IsSpace(s[0]) {
      i, j := TrimmedIs(s[1..]);
      assert s[1..][i..j] == s[i + 1..j + 1];
      assert forall k :: 1 <= k < |s| ==> s[k] == s[1..][k - 1];
      i, j := i + 1, j + 1;
    } else if IsSpace(s[|s| - 1]) {
      i, j := TrimmedIs(s[..|s| - 1]);
    } else {
      i, j := 0, |s|;
    }
  }
}
