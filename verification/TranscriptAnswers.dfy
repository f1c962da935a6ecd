/**
Which result a call of `Transcript` ends up with (mux/controller_claude.go:853-866,
907-935), said of the entries: the last one filed for it since it was made.
*/
module TranscriptAnswers {
  import opened Wrappers
  import opened Transcript
  import opened TranscriptTurns

  /** The last result for this id among the blocks. */
  function LastAnswer(blocks: seq<Block>, id: string): Option<string> {
    if blocks == [] then None
    else
      var b := blocks[|blocks| - 1];
      if b.ToolResult? && b.id == id then Some(b.text) else LastAnswer(blocks[..|blocks| - 1], id)
  }

  predicate Makes(blocks: seq<Block>, id: string) {
    exists k :: 0 <= k < |blocks| && blocks[k].ToolUse? && blocks[k].id == id
  }

  /** The last result for this id since the call was made. */
  function ResultFor(es: seq<Entry>, id: string): string {
    if es == [] then ""
    else
      var init, e := es[..|es| - 1], es[|es| - 1];
      if e.User? && LastAnswer(e.blocks, id).Some? then LastAnswer(e.blocks, id).value
      else if e.Assistant? && Makes(e.blocks, id) then ""
      else ResultFor(init, id)
  }

  /** Every result says which call it answers. */
  predicate AllNamed(blocks: seq<Block>) {
    forall k :: 0 <= k < |blocks| && blocks[k].ToolResult? ==> blocks[k].id != ""
  }

  predicate IsCall(turns: seq<Turn>, id: string, i: nat, j: nat) {
    i < |turns| && j < |turns[i].tools| && turns[i].tools[j].id == id
  }

  /** No two calls have this id. */
  ghost predicate CallsOnce(turns: seq<Turn>, id: string) {
    forall i: nat, j: nat, k: nat, l: nat :: IsCall(turns, id, i, j) && IsCall(turns, id, k, l) ==> i == k && j == l
  }

  /** Filing a result leaves every call where it is, and changes only the one it names. */
  lemma ResultNames(b: Book, block: Block, id: string, i: nat, j: nat)
    requires CallsOnce(b.turns, id) && IsCall(b.turns, id, i, j)
    requires block.ToolResult? ==> block.id != ""
    ensures IsCall(Result(b, block).turns, id, i, j) && CallsOnce(Result(b, block).turns, id)
    ensures Result(b, block).turns[i].tools[j].result ==
      if block.ToolResult? && block.id == id then block.text else b.turns[i].tools[j].result
  {
    hide LastCall, AttachedIn, Attached;
    if block.ToolResult? {
      AttachedMeans(b.turns, block.id, block.text);
      var k := AttachedIn(b.turns, block.id);
      if k < 0 {
        NothingAttached(b.turns, block.id, block.text);
        assert block.id != id || TakenBy(b.turns[i], id, j);
      } else {
        var l := LastCall(b.turns[k].tools, block.id);
        assert IsCall(b.turns, block.id, k, l);
        assert forall m: nat, n: nat :: IsCall(Result(b, block).turns, id, m, n) ==> IsCall(b.turns, id, m, n);
      }
    }
  }

  lemma NothingAttached(turns: seq<Turn>, id: string, text: string)
    requires AttachedIn(turns, id) < 0
    ensures Attached(turns, id, text) == turns
  {}

  lemma {:induction false} ResultsName(b: Book, blocks: seq<Block>, id: string, i: nat, j: nat)
    requires CallsOnce(b.turns, id) && IsCall(b.turns, id, i, j) && AllNamed(blocks)
    ensures var after := Results(b, blocks).turns;
      && IsCall(after, id, i, j) && CallsOnce(after, id)
      && after[i].tools[j].result ==
           if LastAnswer(blocks, id).Some? then LastAnswer(blocks, id).value else b.turns[i].tools[j].result
    decreases |blocks|
  {
    hide Result, CallsOnce;
    if blocks != [] {
      var init := blocks[..|blocks| - 1];
      ResultsName(b, init, id, i, j);
      ResultNames(Results(b, init), blocks[|blocks| - 1], id, i, j);
    }
  }

  /** A result makes no call. */
  lemma {:induction false} ResultsMakeNone(b: Book, blocks: seq<Block>, id: string, i: nat, j: nat)
    requires IsCall(Results(b, blocks).turns, id, i, j)
    ensures IsCall(b.turns, id, i, j)
    decreases |blocks|
  {
    hide LastCall, AttachedIn;
    if blocks != [] {
      ResultsMakeNone(b, blocks[..|blocks| - 1], id, i, j);
    }
  }

  /** A turn with more blocks has its calls and, behind them, new ones without a result. */
  lemma {:induction false} MoreCalls(t: Turn, blocks: seq<Block>)
    ensures var more := WithBlocks(t, blocks).tools;
      && |t.tools| <= |more| && more[..|t.tools|] == t.tools
      && (forall k :: |t.tools| <= k < |more| ==> more[k].result == "" && Makes(blocks, more[k].id))
      && (forall id :: Makes(blocks, id) ==> exists k :: |t.tools| <= k < |more| && more[k].id == id)
    decreases |blocks|
  {
    hide TrimSpace;
    if blocks != [] {
      var n := |blocks| - 1;
      var init := blocks[..n];
      MoreCalls(t, init);
      var some, more := WithBlocks(t, init).tools, WithBlocks(t, blocks).tools;
      forall k | |t.tools| <= k < |some| ensures Makes(blocks, more[k].id) {
        var m :| 0 <= m < |init| && init[m].ToolUse? && init[m].id == some[k].id;
        assert blocks[m] == init[m];
      }
      forall id | Makes(blocks, id) ensures exists k :: |t.tools| <= k < |more| && more[k].id == id {
        var m :| 0 <= m < |blocks| && blocks[m].ToolUse? && blocks[m].id == id;
        if m < n {
          assert init[m] == blocks[m];
          assert Makes(init, id);
          var k :| |t.tools| <= k < |some| && some[k].id == id;
          assert more[k] == some[k];
        } else {
          assert more[|some|].id == id;
        }
      }
    }
  }

  /** What the assistant's entry does to a call: none that was there changes, and those it
      makes have no result. */
  lemma ReplyNames(b: Book, time: int, blocks: seq<Block>, id: string, i: nat, j: nat)
    requires b.open ==> b.turns != []
    requires IsCall(Reply(Opened(b, time), blocks).turns, id, i, j)
    ensures var after := Reply(Opened(b, time), blocks).turns;
      if IsCall(b.turns, id, i, j) then after[i].tools[j] == b.turns[i].tools[j]
      else Makes(blocks, id) && after[i].tools[j].result == ""
  {
    hide WithBlocks, Makes;
    var o := Opened(b, time);
    MoreCalls(o.turns[|o.turns| - 1], blocks);
  }

  lemma ReplyKeeps(b: Book, time: int, blocks: seq<Block>, id: string)
    requires b.open ==> b.turns != []
    ensures var after := Reply(Opened(b, time), blocks).turns;
      && (forall i: nat, j: nat :: IsCall(b.turns, id, i, j) ==> IsCall(after, id, i, j))
      && (Makes(blocks, id) ==> exists i: nat, j: nat :: IsCall(after, id, i, j) && !IsCall(b.turns, id, i, j))
  {
    hide WithBlocks, Makes;
    var o := Opened(b, time);
    var n := |o.turns| - 1;
    var t := o.turns[n];
    MoreCalls(t, blocks);
    var after := Reply(o, blocks).turns;
    if Makes(blocks, id) {
      var k :| |t.tools| <= k < |after[n].tools| && after[n].tools[k].id == id;
      assert IsCall(after, id, n, k) && !IsCall(b.turns, id, n, k);
    }
  }

  /** A call made once, in a transcript whose results name their calls, has the last result
      filed for it since it was made, or none. */
  lemma {:induction false} AnswerIsLast(es: seq<Entry>, id: string, i: nat, j: nat)
    requires forall k :: 0 <= k < |es| && es[k].User? ==> AllNamed(es[k].blocks)
    requires CallsOnce(Parse(es).turns, id) && IsCall(Parse(es).turns, id, i, j)
    ensures Parse(es).turns[i].tools[j].result == ResultFor(es, id)
    decreases |es|
  {
    hide CallsOnce, AllNamed, Results, Reply, Opened, Makes, LastAnswer;
    var init, e := es[..|es| - 1], es[|es| - 1];
    var b := Parse(init);
    ParseIsConversation(init);
    OpenHasTurn(init);
    match e
    case Prompt(text, time) =>
      FewerCalls(b.turns, Parse(es).turns, id);
      AnswerIsLast(init, id, i, j);
    case Skipped =>
      FewerCalls(b.turns, Parse(es).turns, id);
      AnswerIsLast(init, id, i, j);
    case User(blocks) =>
      ResultsKeepCalls(b, blocks, id);
      FewerCalls(b.turns, Parse(es).turns, id);
      ResultsMakeNone(b, blocks, id, i, j);
      ResultsName(b, blocks, id, i, j);
      AnswerIsLast(init, id, i, j);
    case Assistant(time, blocks) =>
      ReplyKeeps(b, time, blocks, id);
      FewerCalls(b.turns, Parse(es).turns, id);
      ReplyNames(b, time, blocks, id, i, j);
      if IsCall(b.turns, id, i, j) {
        NewCallIsSecond(b.turns, Parse(es).turns, id, i, j, blocks);
        AnswerIsLast(init, id, i, j);
      }
  }

  /** What a result is filed on: with an id, the newest call of that id, answered or not; and
      without one, the newest call that has no result. It is filed nowhere only when
      there is no such call. */
  lemma FiledOn(turns: seq<Turn>, id: string, text: string)
    ensures var i := AttachedIn(turns, id);
      if i < 0 then
        forall k: nat, l: nat :: k < |turns| && l < |turns[k].tools| ==>
          if id == "" then turns[k].tools[l].result != "" else turns[k].tools[l].id != id
      else
        exists j: nat ::
          && j < |turns[i].tools|
          && (if id == "" then turns[i].tools[j].result == "" else turns[i].tools[j].id == id)
          && (forall k: nat, l: nat ::
                k < |turns| && l < |turns[k].tools| && (k > i || (k == i && l > j)) ==>
                  if id == "" then turns[k].tools[l].result != "" else turns[k].tools[l].id != id)
          && Attached(turns, id, text) ==
               turns[i := turns[i].(tools := turns[i].tools[j := turns[i].tools[j].(result := text)])]
  {
    hide LastCall, AttachedIn, Attached;
    AttachedMeans(turns, id, text);
    forall k: nat, l: nat | k < |turns| && l < |turns[k].tools|
      ensures TakenBy(turns[k], id, l) <==>
        if id == "" then turns[k].tools[l].result == "" else turns[k].tools[l].id == id
    {}
    var i := AttachedIn(turns, id);
    if i >= 0 {
      var j := LastCall(turns[i].tools, id);
      assert TakenBy(turns[i], id, j);
    }
  }

  lemma OpenHasTurn(es: seq<Entry>)
    ensures Parse(es).open ==> Parse(es).turns != []
  {
    ParseCovers(es);
  }

  lemma FewerCalls(turns: seq<Turn>, more: seq<Turn>, id: string)
    requires CallsOnce(more, id)
    requires forall i: nat, j: nat :: IsCall(turns, id, i, j) ==> IsCall(more, id, i, j)
    ensures CallsOnce(turns, id)
  {}

  lemma NewCallIsSecond(turns: seq<Turn>, more: seq<Turn>, id: string, i: nat, j: nat, blocks: seq<Block>)
    requires CallsOnce(more, id) && IsCall(more, id, i, j) && IsCall(turns, id, i, j)
    requires Makes(blocks, id) ==> exists k: nat, l: nat :: IsCall(more, id, k, l) && !IsCall(turns, id, k, l)
    ensures !Makes(blocks, id)
  {}

  lemma {:induction false} ResultsKeepCalls(b: Book, blocks: seq<Block>, id: string)
    ensures forall i: nat, j: nat :: IsCall(b.turns, id, i, j) ==> IsCall(Results(b, blocks).turns, id, i, j)
    decreases |blocks|
  {
    hide LastCall, AttachedIn;
    if blocks != [] {
      ResultsKeepCalls(b, blocks[..|blocks| - 1], id);
    }
  }
}
