/**
The bounded parse of a transcript (mux/controller_claude.go:784-935).

Entries come decoded. The unbounded parse is a `Book`: every turn, and for each the
bytes charged to it; `Parser` is the streaming one, which forgets old turns.
*/
module Transcript {
  import opened InputKey

  datatype Call = Call(name: string, id: string, input: string, result: string)
  datatype Turn = Turn(user: bool, text: string, tools: seq<Call>, time: int)

  datatype Block =
    | TextBlock(text: string)
    | ToolUse(name: string, id: string, input: string)
    | ToolResult(id: string, text: string)
    | OtherBlock

  /** A prompt; a user entry that is none; an assistant entry; anything else, a line
      that does not decode among them. */
  datatype Entry =
    | Prompt(text: string, time: int)
    | User(blocks: seq<Block>)
    | Assistant(time: int, blocks: seq<Block>)
    | Skipped

  // ── one turn ─────────────────────────────────────────────────────────────

  function TrimSpace(s: string): string {
    if s == "" then ""
    else if IsSpace(s[0]) then TrimSpace(s[1..])
    else if IsSpace(s[|s| - 1]) then TrimSpace(s[..|s| - 1])
    else s
  }

  /** An assistant turn with one more block. */
  function WithBlock(t: Turn, b: Block): Turn {
    match b
    case TextBlock(text) =>
      var txt := TrimSpace(text);
      if txt == "" then t else t.(text := if t.text == "" then txt else t.text + "\n\n" + txt)
    case ToolUse(name, id, input) => t.(tools := t.tools + [Call(name, id, input, "")])
    case _ => t
  }

  function WithBlocks(t: Turn, blocks: seq<Block>): Turn {
    if blocks == [] then t else WithBlock(WithBlocks(t, blocks[..|blocks| - 1]), blocks[|blocks| - 1])
  }

  function CallBytes(calls: seq<Call>): nat {
    if calls == [] then 0
    else
      var c := calls[|calls| - 1];
      CallBytes(calls[..|calls| - 1]) + Size(c.name) + Size(c.input) + Size(c.result)
  }

  function TurnBytes(t: Turn): nat {
    Size(t.text) + CallBytes(t.tools)
  }

  // ── attachToolResult ─────────────────────────────────────────────────────

  /** Whether the call is one a result with this id answers. */
  predicate Takes(c: Call, id: string) {
    if id != "" then c.id == id else c.result == ""
  }

  function LastCall(calls: seq<Call>, id: string): (j: int)
    ensures -1 <= j < |calls|
  {
    if calls == [] then -1
    else if Takes(calls[|calls| - 1], id) then |calls| - 1
    else LastCall(calls[..|calls| - 1], id)
  }

  /** The newest turn with a call the result answers. */
  function AttachedIn(turns: seq<Turn>, id: string): (i: int)
    ensures -1 <= i < |turns|
    ensures i >= 0 ==> LastCall(turns[i].tools, id) >= 0
  {
    if turns == [] then -1
    else if LastCall(turns[|turns| - 1].tools, id) >= 0 then |turns| - 1
    else AttachedIn(turns[..|turns| - 1], id)
  }

  function Answered(t: Turn, id: string, text: string): Turn {
    var j := LastCall(t.tools, id);
    if j < 0 then t else t.(tools := t.tools[j := t.tools[j].(result := text)])
  }

  function Attached(turns: seq<Turn>, id: string, text: string): seq<Turn> {
    var i := AttachedIn(turns, id);
    if i < 0 then turns else turns[i := Answered(turns[i], id, text)]
  }

  method FindCall(calls: seq<Call>, id: string) returns (j: int)
    ensures j == LastCall(calls, id)
  {
    j := |calls| - 1;
    assert calls[..|calls|] == calls;
    while j >= 0
      invariant -1 <= j < |calls|
      invariant LastCall(calls, id) == LastCall(calls[..j + 1], id)
    {
      assert calls[..j + 1][..j] == calls[..j];
      if (id != "" && calls[j].id == id) || (id == "" && calls[j].result == "") {
        return;
      }
      j := j - 1;
    }
  }

  method AttachToolResult(turns: seq<Turn>, id: string, text: string) returns (turns': seq<Turn>, i: int)
    ensures i == AttachedIn(turns, id) && turns' == Attached(turns, id, text)
  {
    i := |turns| - 1;
    assert turns[..|turns|] == turns;
    while i >= 0
      invariant -1 <= i < |turns|
      invariant AttachedIn(turns, id) == AttachedIn(turns[..i + 1], id)
    {
      assert turns[..i + 1][..i] == turns[..i];
      var calls := turns[i].tools;
      var j := FindCall(calls, id);
      if j >= 0 {
        turns' := turns[i := turns[i].(tools := calls[j := calls[j].(result := text)])];
        return;
      }
      i := i - 1;
    }
    turns' := turns;
  }

  predicate TakenBy(t: Turn, id: string, j: nat) {
    j < |t.tools| && Takes(t.tools[j], id)
  }

  lemma {:induction false} LastCallIs(calls: seq<Call>, id: string)
    ensures var j := LastCall(calls, id);
      && (j >= 0 ==> Takes(calls[j], id))
      && forall k :: j < k < |calls| ==> !Takes(calls[k], id)
    decreases |calls|
  {
    if calls != [] {
      LastCallIs(calls[..|calls| - 1], id);
    }
  }

  /** A result goes to the newest call it answers: none behind that takes it, in its turn
      or in a later one; and nothing but that call's result changes. It goes nowhere
      only when no call takes it. */
  lemma {:induction false} AttachedMeans(turns: seq<Turn>, id: string, text: string)
    ensures var i := AttachedIn(turns, id);
      && (forall k, j: nat :: i < k < |turns| ==> !TakenBy(turns[k], id, j))
      && (i >= 0 ==>
            var j := LastCall(turns[i].tools, id);
            && j >= 0 && TakenBy(turns[i], id, j)
            && (forall k: nat :: k > j ==> !TakenBy(turns[i], id, k))
            && Attached(turns, id, text) ==
                 turns[i := turns[i].(tools := turns[i].tools[j := turns[i].tools[j].(result := text)])])
    decreases |turns|
  {
    if turns != [] {
      var n := |turns| - 1;
      LastCallIs(turns[n].tools, id);
      AttachedMeans(turns[..n], id, text);
      if AttachedIn(turns, id) < n {
        forall k, j: nat | AttachedIn(turns, id) < k < |turns| ensures !TakenBy(turns[k], id, j) {
          assert k < n ==> turns[..n][k] == turns[k];
        }
      }
    }
  }

  /** Forgetting old turns does not change where a result goes, unless it went to one
      of those. */
  lemma {:induction false} AttachedInSuffix(turns: seq<Turn>, d: nat, id: string)
    requires d <= |turns|
    ensures AttachedIn(turns[d..], id) == if AttachedIn(turns, id) >= d then AttachedIn(turns, id) - d else -1
    decreases |turns| - d
  {
    if d < |turns| {
      var init := turns[..|turns| - 1];
      assert turns[d..][..|turns[d..]| - 1] == init[d..];
      assert turns[d..][|turns[d..]| - 1] == turns[|turns| - 1];
      if LastCall(turns[|turns| - 1].tools, id) < 0 {
        AttachedInSuffix(init, d, id);
      }
    }
  }

  lemma AttachedSuffix(turns: seq<Turn>, d: nat, id: string, text: string)
    requires d <= |turns|
    ensures |Attached(turns, id, text)| == |turns|
    ensures Attached(turns, id, text)[d..] == Attached(turns[d..], id, text)
  {
    hide Answered, LastCall;
    AttachedInSuffix(turns, d, id);
  }

  // ── the unbounded parse ──────────────────────────────────────────────────

  datatype Book = Book(turns: seq<Turn>, sizes: seq<nat>, open: bool)

  const EMPTY := Book([], [], false)

  function Charge(sizes: seq<nat>, i: int, n: nat): seq<nat> {
    if i < 0 || i >= |sizes| then sizes else sizes[i := sizes[i] + n]
  }

  function Pushed(b: Book, t: Turn, size: nat, open: bool): Book {
    Book(b.turns + [t], b.sizes + [size], open)
  }

  function Result(b: Book, block: Block): Book {
    if !block.ToolResult? then b
    else
      var i := AttachedIn(b.turns, block.id);
      Book(Attached(b.turns, block.id, block.text), Charge(b.sizes, i, Size(block.text)), b.open)
  }

  function Results(b: Book, blocks: seq<Block>): Book {
    if blocks == [] then b else Result(Results(b, blocks[..|blocks| - 1]), blocks[|blocks| - 1])
  }

  /** What a block adds to the bytes charged. */
  function BlockCost(t: Turn, b: Block): nat {
    match b
    case TextBlock(text) =>
      var txt := TrimSpace(text);
      if txt == "" then 0 else (if t.text == "" then 0 else 2) + Size(txt)
    case ToolUse(name, _, input) => Size(name) + Size(input)
    case _ => 0
  }

  function BlocksCost(t: Turn, blocks: seq<Block>): nat {
    if blocks == [] then 0
    else
      var init := blocks[..|blocks| - 1];
      BlocksCost(t, init) + BlockCost(WithBlocks(t, init), blocks[|blocks| - 1])
  }

  /** One reply comes as several entries: they go on the turn that is open. */
  function Reply(b: Book, blocks: seq<Block>): Book {
    if b.turns == [] then b
    else
      var i := |b.turns| - 1;
      Book(b.turns[i := WithBlocks(b.turns[i], blocks)], Charge(b.sizes, i, BlocksCost(b.turns[i], blocks)), b.open)
  }

  function Opened(b: Book, time: int): Book {
    if b.open then b else Pushed(b, Turn(false, "", [], time), 0, true)
  }

  function Step(b: Book, e: Entry): Book {
    match e
    case Prompt(text, time) => Pushed(b, Turn(true, text, [], time), Size(text), false)
    case User(blocks) => Results(b, blocks)
    case Assistant(time, blocks) => Reply(Opened(b, time), blocks)
    case Skipped => b
  }

  function Parse(entries: seq<Entry>): Book {
    if entries == [] then EMPTY else Step(Parse(entries[..|entries| - 1]), entries[|entries| - 1])
  }

  // ── what is kept ─────────────────────────────────────────────────────────

  function Sum(sizes: seq<nat>): nat {
    if sizes == [] then 0 else sizes[0] + Sum(sizes[1..])
  }

  predicate Fits(sizes: seq<nat>, maxTurns: int, budget: int) {
    |sizes| <= maxTurns && Sum(sizes) <= budget
  }

  /** The first turn kept: as many of the newest turns as fit the bounds, and at least
      one. */
  function FirstKept(sizes: seq<nat>, maxTurns: int, budget: int): (d: nat)
    ensures d <= |sizes| && (sizes != [] ==> d < |sizes|)
    decreases |sizes|
  {
    if |sizes| <= 1 || Fits(sizes, maxTurns, budget) then 0 else 1 + FirstKept(sizes[1..], maxTurns, budget)
  }

  lemma {:induction false} SumSuffix(sizes: seq<nat>, d: nat)
    requires d <= |sizes|
    ensures Sum(sizes[d..]) <= Sum(sizes)
    decreases d
  {
    if d > 0 {
      SumSuffix(sizes[1..], d - 1);
      assert sizes[1..][d - 1..] == sizes[d..];
    } else {
      assert sizes[0..] == sizes;
    }
  }

  lemma {:induction false} SumAppend(sizes: seq<nat>, n: nat)
    ensures Sum(sizes + [n]) == Sum(sizes) + n
  {
    if sizes == [] {
      assert (sizes + [n])[1..] == [];
    } else {
      assert (sizes + [n])[1..] == sizes[1..] + [n];
      SumAppend(sizes[1..], n);
    }
  }

  lemma {:induction false} SumCharge(sizes: seq<nat>, i: nat, n: nat)
    requires i < |sizes|
    ensures Sum(sizes[i := sizes[i] + n]) == Sum(sizes) + n
  {
    var s := sizes[i := sizes[i] + n];
    if i == 0 {
      assert s[1..] == sizes[1..];
    } else {
      assert s[1..] == sizes[1..][i - 1 := sizes[1..][i - 1] + n];
      SumCharge(sizes[1..], i - 1, n);
    }
  }

  /** Nothing before d is kept if the turns from d - 1 on do not fit; and d itself is
      kept if it is the last or those from d on do. */
  lemma {:induction false} FirstKeptIs(sizes: seq<nat>, d: nat, maxTurns: int, budget: int)
    requires d <= |sizes| && (d == |sizes| ==> d == 0)
    requires |sizes| - d <= 1 || Fits(sizes[d..], maxTurns, budget)
    requires d > 0 ==> !Fits(sizes[d - 1..], maxTurns, budget)
    ensures FirstKept(sizes, maxTurns, budget) == d
    decreases d
  {
    if d > 0 {
      SumSuffix(sizes, d - 1);
      assert sizes[1..][d - 1..] == sizes[d..];
      if d > 1 {
        assert sizes[1..][d - 2..] == sizes[d - 1..];
      }
      FirstKeptIs(sizes[1..], d - 1, maxTurns, budget);
    } else {
      assert sizes[0..] == sizes;
    }
  }

  // ── the streaming parse ──────────────────────────────────────────────────

  /** These are the newest of all turns, and with the one before them they would not
      fit. */
  ghost predicate Newest(all: seq<Turn>, allSizes: seq<nat>, turns: seq<Turn>, sizes: seq<nat>,
                         maxTurns: int, budget: int)
  {
    var d := |all| - |turns|;
    && |all| == |allSizes| && |turns| == |sizes| && 0 <= d
    && turns == all[d..] && sizes == allSizes[d..]
    && (all != [] ==> turns != [])
    && (d > 0 ==> !Fits(allSizes[d - 1..], maxTurns, budget))
  }

  lemma DropKeeps(all: seq<Turn>, allSizes: seq<nat>, turns: seq<Turn>, sizes: seq<nat>, maxTurns: int, budget: int)
    requires Newest(all, allSizes, turns, sizes, maxTurns, budget) && |turns| > 1 && !Fits(sizes, maxTurns, budget)
    ensures |turns| == |sizes| && Newest(all, allSizes, turns[1..], sizes[1..], maxTurns, budget)
  {
    hide Fits;
    var d := |all| - |turns|;
    assert all[d + 1..] == turns[1..] && allSizes[d + 1..] == sizes[1..];
  }

  lemma PushKeeps(all: seq<Turn>, allSizes: seq<nat>, turns: seq<Turn>, sizes: seq<nat>,
                  maxTurns: int, budget: int, t: Turn, size: nat)
    requires Newest(all, allSizes, turns, sizes, maxTurns, budget)
    ensures Newest(all + [t], allSizes + [size], turns + [t], sizes + [size], maxTurns, budget)
  {
    hide Sum;
    var d := |all| - |turns|;
    assert (all + [t])[d..] == turns + [t] && (allSizes + [size])[d..] == sizes + [size];
    if d > 0 {
      assert (allSizes + [size])[d - 1..] == allSizes[d - 1..] + [size];
      SumAppend(allSizes[d - 1..], size);
    }
  }

  lemma ChargeSuffix(sizes: seq<nat>, d: nat, g: int, n: nat)
    requires d <= |sizes| && g < |sizes|
    ensures |Charge(sizes, g, n)| == |sizes| && Charge(sizes, g, n)[d..] == Charge(sizes[d..], g - d, n)
  {}

  lemma ChargeSum(sizes: seq<nat>, i: int, n: nat)
    requires i < |sizes|
    ensures |Charge(sizes, i, n)| == |sizes|
    ensures Sum(Charge(sizes, i, n)) == Sum(sizes) + if i < 0 then 0 else n
  {
    if i >= 0 {
      SumCharge(sizes, i, n);
    }
  }

  /** A turn is charged, kept or not. */
  lemma ChargeKeeps(all: seq<Turn>, allSizes: seq<nat>, turns: seq<Turn>, sizes: seq<nat>,
                    maxTurns: int, budget: int, g: nat, n: nat)
    requires Newest(all, allSizes, turns, sizes, maxTurns, budget) && g < |allSizes|
    ensures Newest(all, Charge(allSizes, g, n), turns, Charge(sizes, g - (|all| - |turns|), n), maxTurns, budget)
  {
    hide Sum, Charge;
    var d := |all| - |turns|;
    ChargeSuffix(allSizes, d, g, n);
    ChargeSum(sizes, g - d, n);
    if d > 0 {
      ChargeSuffix(allSizes, d - 1, g, n);
      ChargeSum(allSizes[d - 1..], g - d + 1, n);
    }
  }

  /** A turn changes, kept or not. */
  lemma ChangeKeeps(all: seq<Turn>, allSizes: seq<nat>, turns: seq<Turn>, sizes: seq<nat>,
                    maxTurns: int, budget: int, all': seq<Turn>)
    requires Newest(all, allSizes, turns, sizes, maxTurns, budget) && |all'| == |all|
    ensures Newest(all', allSizes, all'[|all| - |turns|..], sizes, maxTurns, budget)
  {}

  lemma UpdateLast(all: seq<Turn>, turns: seq<Turn>, t: Turn)
    requires turns != [] && |turns| <= |all|
    requires turns == all[|all| - |turns|..]
    ensures all[|all| - 1 := t][|all| - |turns|..] == turns[|turns| - 1 := t]
  {}

  // ── the parser ───────────────────────────────────────────────────────────
  class Parser {
    const maxTurns: int
    const byteBudget: int
    var turns: seq<Turn>
    var sizes: seq<nat>
    var total: int
    var open: bool
    /** What the unbounded parse has by now. */
    ghost var book: Book

    ghost function Dropped(): int
      reads this
    {
      |book.turns| - |turns|
    }

    ghost predicate Tracks()
      reads this
    {
      && Newest(book.turns, book.sizes, turns, sizes, maxTurns, byteBudget)
      && total == Sum(sizes) && open == book.open && (open ==> turns != [])
    }

    ghost predicate Settled()
      reads this
    {
      |turns| <= 1 || Fits(sizes, maxTurns, byteBudget)
    }

    ghost predicate Valid()
      reads this
    {
      Tracks() && Settled()
    }

    constructor (maxTurns: int, byteBudget: int)
      ensures Valid() && book == EMPTY
      ensures this.maxTurns == maxTurns && this.byteBudget == byteBudget
    {
      this.maxTurns, this.byteBudget := maxTurns, byteBudget;
      turns, sizes, total, open := [], [], 0, false;
      book := EMPTY;
    }

    /** Nothing is left to reset open for: one turn always stays. */
    method Trim()
      requires Tracks()
      modifies this`turns, this`sizes, this`total
      ensures Valid()
    {
      hide Newest;
      SameLength();
      while |turns| > 1 && (|turns| > maxTurns || total > byteBudget)
        invariant Tracks() && |turns| == |sizes|
        decreases |turns|
      {
        DropKeeps(book.turns, book.sizes, turns, sizes, maxTurns, byteBudget);
        total := total - sizes[0];
        turns, sizes := turns[1..], sizes[1..];
      }
    }

    lemma SameLength()
      requires Tracks()
      ensures |turns| == |sizes| && |book.turns| == |book.sizes| && Dropped() >= 0
      ensures turns == book.turns[Dropped()..]
    {}

    method Push(t: Turn, size: nat)
      requires Valid()
      modifies this
      ensures Valid() && book == Pushed(old(book), t, size, old(open))
      ensures turns != []
    {
      hide Newest;
      SameLength();
      PushKeeps(book.turns, book.sizes, turns, sizes, maxTurns, byteBudget, t, size);
      SumAppend(sizes, size);
      turns, sizes, total := turns + [t], sizes + [size], total + size;
      book := Pushed(book, t, size, open);
      SameLength();
      Trim();
      SameLength();
      assert Newest(book.turns, book.sizes, turns, sizes, maxTurns, byteBudget);
      NotEmpty();
    }

    lemma NotEmpty()
      requires Tracks() && book.turns != []
      ensures turns != []
    {}

    method Grow(i: int, n: nat)
      requires Valid()
      modifies this
      ensures Valid()
      ensures
        var charged :=
          if i < 0 || i >= old(|sizes|) then old(book.sizes) else Charge(old(book.sizes), old(Dropped()) + i, n);
        book == old(book).(sizes := charged)
    {
      hide Newest;
      SameLength();
      if i < 0 || i >= |sizes| || n == 0 {
        return;
      }
      SumCharge(sizes, i, n);
      ChargeKeeps(book.turns, book.sizes, turns, sizes, maxTurns, byteBudget, Dropped() + i, n);
      book := book.(sizes := Charge(book.sizes, Dropped() + i, n));
      sizes, total := sizes[i := sizes[i] + n], total + n;
      Trim();
    }

    /** One tool_result block. */
    method FileResult(id: string, text: string)
      requires Valid()
      modifies this
      ensures Valid() && book == Result(old(book), ToolResult(id, text))
    {
      hide Newest, Attached, Charge, Sum, Fits;
      SameLength();
      ghost var d, before := Dropped(), book;
      ghost var g := AttachedIn(book.turns, id);
      ghost var after := Attached(book.turns, id, text);
      AttachedInSuffix(book.turns, d, id);
      AttachedSuffix(book.turns, d, id, text);
      ChangeKeeps(book.turns, book.sizes, turns, sizes, maxTurns, byteBudget, after);
      var i;
      turns, i := AttachToolResult(turns, id, text);
      book := book.(turns := after);
      if i >= 0 {
        Grow(i, Size(text));
      } else {
        Missed(g, Size(text));
      }
    }

    /** The result of a call in a turn no longer kept, or of none. */
    ghost method Missed(g: int, n: nat)
      requires Valid() && -1 <= g < Dropped()
      modifies this`book
      ensures Valid() && book == old(book).(sizes := Charge(old(book.sizes), g, n))
    {
      if g >= 0 {
        ChargeKeeps(book.turns, book.sizes, turns, sizes, maxTurns, byteBudget, g, n);
      }
      book := book.(sizes := Charge(book.sizes, g, n));
    }

    method FilePrompt(text: string, time: int)
      requires Valid()
      modifies this
      ensures Valid() && book == Pushed(old(book), Turn(true, text, [], time), Size(text), false)
    {
      hide Newest;
      open := false;
      book := book.(open := false);
      Push(Turn(true, text, [], time), Size(text));
    }

    /** The turns held are those one would keep of the whole. */
    lemma Kept()
      requires Valid()
      ensures |book.turns| == |book.sizes|
      ensures turns == book.turns[FirstKept(book.sizes, maxTurns, byteBudget)..]
    {
      FirstKeptIs(book.sizes, Dropped(), maxTurns, byteBudget);
    }

    method FileResults(blocks: seq<Block>)
      requires Valid()
      modifies this
      ensures Valid() && book == Results(old(book), blocks)
    {
      for k := 0 to |blocks|
        invariant Valid() && book == Results(old(book), blocks[..k])
      {
        assert blocks[..k + 1][..k] == blocks[..k];
        if blocks[k].ToolResult? {
          FileResult(blocks[k].id, blocks[k].text);
        }
      }
      assert blocks[..|blocks|] == blocks;
    }

    method OpenReply(time: int)
      requires Valid()
      modifies this
      ensures Valid() && turns != [] && book == Opened(old(book), time)
    {
      hide Newest, Sum, Fits;
      if !open {
        Push(Turn(false, "", [], time), 0);
        open := true;
        book := book.(open := true);
      }
    }

    /** An assistant entry. */
    method FileReply(time: int, blocks: seq<Block>)
      requires Valid()
      modifies this
      ensures Valid() && book == Reply(Opened(old(book), time), blocks)
    {
      OpenReply(time);
      AppendReply(blocks);
    }

    method AppendReply(blocks: seq<Block>)
      requires Valid() && turns != []
      modifies this
      ensures Valid() && book == Reply(old(book), blocks)
    {
      hide Newest, WithBlocks, BlocksCost, Sum, Fits, Reply, Charge;
      SameLength();
      ReplyIs(book, blocks);
      var n := |turns|;
      var cur, added := AppendBlocks(turns[n - 1], blocks);
      ghost var after := book.turns[|book.turns| - 1 := cur];
      ChangeKeeps(book.turns, book.sizes, turns, sizes, maxTurns, byteBudget, after);
      UpdateLast(book.turns, turns, cur);
      turns := turns[n - 1 := cur];
      book := book.(turns := after);
      Grow(n - 1, added);
    }
  }

  lemma ReplyIs(b: Book, blocks: seq<Block>)
    requires b.turns != []
    ensures var i := |b.turns| - 1;
      Reply(b, blocks) ==
        Book(b.turns[i := WithBlocks(b.turns[i], blocks)], Charge(b.sizes, i, BlocksCost(b.turns[i], blocks)), b.open)
  {}

  method AppendBlocks(t: Turn, blocks: seq<Block>) returns (cur: Turn, added: nat)
    ensures cur == WithBlocks(t, blocks) && added == BlocksCost(t, blocks)
  {
    cur, added := t, 0;
    for k := 0 to |blocks|
      invariant cur == WithBlocks(t, blocks[..k])
      invariant added == BlocksCost(t, blocks[..k])
    {
      assert blocks[..k + 1][..k] == blocks[..k];
      match blocks[k] {
        case TextBlock(text) =>
          var txt := TrimSpace(text);
          if txt == "" {
            continue;
          }
          if cur.text != "" {
            cur := cur.(text := cur.text + "\n\n");
            added := added + 2;
          }
          cur := cur.(text := cur.text + txt);
          added := added + Size(txt);
        case ToolUse(name, id, input) =>
          cur := cur.(tools := cur.tools + [Call(name, id, input, "")]);
          added := added + Size(name) + Size(input);
        case _ =>
      }
    }
    assert blocks[..|blocks|] == blocks;
  }

  /** parseClaudeTurns: what streaming keeps is what one would keep of the whole, the
      results of its calls included. */
  method ParseClaudeTurns(entries: seq<Entry>, maxTurns: int, byteBudget: int) returns (turns: seq<Turn>)
    ensures
      var all := Parse(entries);
      && |all.turns| == |all.sizes|
      && turns == all.turns[FirstKept(all.sizes, maxTurns, byteBudget)..]
  {
    hide Newest, Sum, Results, Reply, Opened, Parser.Valid, FirstKept;
    var p := new Parser(maxTurns, byteBudget);
    for k := 0 to |entries|
      invariant fresh(p) && p.Valid() && p.maxTurns == maxTurns && p.byteBudget == byteBudget
      invariant p.book == Parse(entries[..k])
    {
      assert entries[..k + 1][..k] == entries[..k];
      match entries[k] {
        case Prompt(text, time) =>
          p.FilePrompt(text, time);
        case User(blocks) =>
          p.FileResults(blocks);
        case Assistant(time, blocks) =>
          p.FileReply(time, blocks);
        case Skipped =>
      }
    }
    assert entries[..|entries|] == entries;
    p.Kept();
    turns := p.turns;
  }

  // ── what the bounds promise ──────────────────────────────────────────────

  predicate Covers(b: Book) {
    && |b.turns| == |b.sizes|
    && (b.open ==> b.turns != [])
    && forall i :: 0 <= i < |b.turns| ==> TurnBytes(b.turns[i]) <= b.sizes[i]
  }

  lemma {:induction false} CallBytesUpdate(calls: seq<Call>, j: nat, result: string)
    requires j < |calls|
    ensures CallBytes(calls[j := calls[j].(result := result)]) ==
      CallBytes(calls) - Size(calls[j].result) + Size(result)
    decreases |calls|
  {
    var n := |calls| - 1;
    var calls' := calls[j := calls[j].(result := result)];
    if j < n {
      assert calls'[..n] == calls[..n][j := calls[..n][j].(result := result)];
      CallBytesUpdate(calls[..n], j, result);
    } else {
      assert calls'[..n] == calls[..n];
    }
  }

  lemma WithBlockBytes(t: Turn, b: Block)
    ensures TurnBytes(WithBlock(t, b)) == TurnBytes(t) + BlockCost(t, b)
  {
    match b
    case TextBlock(text) =>
      var txt := TrimSpace(text);
      SizeConcat(t.text + "\n\n", txt);
      SizeConcat(t.text, "\n\n");
      SizeAppend("\n", '\n');
      SizeAppend("", '\n');
      assert "\n\n" == "\n" + ['\n'] && "\n" == "" + ['\n'];
    case ToolUse(name, id, input) =>
      assert (t.tools + [Call(name, id, input, "")])[..|t.tools|] == t.tools;
    case _ =>
  }

  lemma {:induction false} WithBlocksBytes(t: Turn, blocks: seq<Block>)
    ensures TurnBytes(WithBlocks(t, blocks)) == TurnBytes(t) + BlocksCost(t, blocks)
    decreases |blocks|
  {
    if blocks != [] {
      var init := blocks[..|blocks| - 1];
      WithBlocksBytes(t, init);
      WithBlockBytes(WithBlocks(t, init), blocks[|blocks| - 1]);
    }
  }

  lemma {:induction false} ResultsCover(b: Book, blocks: seq<Block>)
    requires Covers(b)
    ensures Covers(Results(b, blocks))
    decreases |blocks|
  {
    if blocks != [] {
      var init := blocks[..|blocks| - 1];
      ResultsCover(b, init);
      ResultCovers(Results(b, init), blocks[|blocks| - 1]);
    }
  }

  lemma ResultCovers(b: Book, block: Block)
    requires Covers(b)
    ensures Covers(Result(b, block))
  {
    if block.ToolResult? {
      var i := AttachedIn(b.turns, block.id);
      if i >= 0 {
        var t := b.turns[i];
        CallBytesUpdate(t.tools, LastCall(t.tools, block.id), block.text);
      }
    }
  }

  lemma ReplyCovers(b: Book, blocks: seq<Block>)
    requires Covers(b)
    ensures Covers(Reply(b, blocks))
  {
    if b.turns != [] {
      WithBlocksBytes(b.turns[|b.turns| - 1], blocks);
    }
  }

  /** No turn holds more bytes than it is charged; it may hold fewer, because a result
      that replaces another is charged on top of it. */
  lemma {:induction false} ParseCovers(entries: seq<Entry>)
    ensures Covers(Parse(entries))
    decreases |entries|
  {
    if entries != [] {
      var b, e := Parse(entries[..|entries| - 1]), entries[|entries| - 1];
      ParseCovers(entries[..|entries| - 1]);
      match e
      case User(blocks) => ResultsCover(b, blocks);
      case Assistant(time, blocks) => ReplyCovers(Opened(b, time), blocks);
      case _ =>
    }
  }

  function TotalBytes(turns: seq<Turn>): nat {
    if turns == [] then 0 else TurnBytes(turns[0]) + TotalBytes(turns[1..])
  }

  lemma {:induction false} TotalWithin(turns: seq<Turn>, sizes: seq<nat>)
    requires |turns| == |sizes| && forall i :: 0 <= i < |turns| ==> TurnBytes(turns[i]) <= sizes[i]
    ensures TotalBytes(turns) <= Sum(sizes)
  {
    if turns != [] {
      TotalWithin(turns[1..], sizes[1..]);
    }
  }

  lemma {:induction false} FirstKeptFits(sizes: seq<nat>, maxTurns: int, budget: int)
    ensures var d := FirstKept(sizes, maxTurns, budget);
      |sizes| - d <= 1 || Fits(sizes[d..], maxTurns, budget)
    decreases |sizes|
  {
    if |sizes| > 1 && !Fits(sizes, maxTurns, budget) {
      FirstKeptFits(sizes[1..], maxTurns, budget);
      var d := FirstKept(sizes[1..], maxTurns, budget);
      assert sizes[1..][d..] == sizes[1 + d..];
    } else {
      assert sizes[0..] == sizes;
    }
  }

  /** And no turn is forgotten that could have been kept: with it, those kept would be more
      than maxTurns or charged with more than the budget. */
  lemma {:induction false} KeptIsMost(sizes: seq<nat>, maxTurns: int, budget: int, k: nat)
    requires k < FirstKept(sizes, maxTurns, budget)
    ensures |sizes| - k > maxTurns || Sum(sizes[k..]) > budget
    decreases k
  {
    if k > 0 {
      assert sizes[1..][k - 1..] == sizes[k..];
      KeptIsMost(sizes[1..], maxTurns, budget, k - 1);
    } else {
      assert sizes[0..] == sizes;
    }
  }

  /** What a caller gets: some turn if the transcript has any, never more turns than
      asked for, and never more bytes than the budget unless it is one turn. */
  lemma KeptWithinBounds(entries: seq<Entry>, maxTurns: int, budget: int)
    requires maxTurns >= 1
    ensures |Parse(entries).turns| == |Parse(entries).sizes|
    ensures var all := Parse(entries);
      var kept := all.turns[FirstKept(all.sizes, maxTurns, budget)..];
      && (all.turns != [] ==> kept != [])
      && |kept| <= maxTurns
      && (TotalBytes(kept) <= budget || |kept| <= 1)
  {
    var all := Parse(entries);
    var d := FirstKept(all.sizes, maxTurns, budget);
    ParseCovers(entries);
    FirstKeptFits(all.sizes, maxTurns, budget);
    TotalWithin(all.turns[d..], all.sizes[d..]);
  }
}
