/**
Exactly one fate for every delivered item, in order, over every run of
`LaneProtocol`; and after Quiesce has swept the lanes, no item starts.
*/
module LaneTheorem {
  import opened Wrappers
  import opened Lanes
  import opened LaneProtocol
  import opened LaneInvariant

  // ── the history is kept ──────────────────────────────────────────────────

  /** A step that moves neither items nor what is known of accepted calls. */
  lemma HistUnmoved(s: State, s': State)
    requires Hist(s) && s'.accepted == s.accepted && s'.left == s.left
    requires Pending(s') == Pending(s)
    requires |s'.calls| >= |s.calls|
    requires forall d :: 0 <= d < |s.calls| && s.calls[d].pc == Accepted ==>
      s'.calls[d].pc == Accepted && s'.calls[d].item == s.calls[d].item
    ensures Hist(s')
  {}

  /** While a lane is retired, the map may let go of it. */
  lemma RetiredHoldsNothing(s: State, l: nat)
    requires Struct(s) && l < |s.lanes| && s.lanes[l].st.retired
    ensures s.lanes[l].st.q == []
  {
    assert LaneRecOk(s, l);
  }

  lemma PushHist(s: State, c: nat)
    requires Struct(s) && Hist(s) && Enabled(s, PushItem(c))
    ensures Hist(After(s, PushItem(c)))
  {
    hide LaneOk;
    var s' := After(s, PushItem(c));
    assert CallOk(s, c);
    var l := s.calls[c].pc.lane;
    assert LaneRecOk(s, l);
    if Push(s.lanes[l].st, s.calls[c].item).1 == PushOK {
      assert s.cur == Some(l);
      var item := s.calls[c].item;
      assert Pending(s') == Pending(s) + [item];
      assert s'.accepted == LeftItems(s'.left) + Pending(s');
      assert forall i :: 0 <= i < |s.accepted| ==> s.accepted[i].id != c;
    } else {
      HistUnmoved(s, s');
    }
  }

  /** What a lane starts is the first of what is queued. */
  lemma NextTakesPending(s: State, l: nat)
    requires Struct(s) && Enabled(s, TakeNext(l)) && Next(s.lanes[l].st).1.RunItem?
    ensures var s' := After(s, TakeNext(l));
      var item := Next(s.lanes[l].st).1.item;
      && s.cur == Some(l)
      && Pending(s) == [item] + Pending(s')
      && LeftItems(s'.left) == LeftItems(s.left) + [item]
  {
    hide LaneOk;
    SectionsKeepOrder(s.lanes[l].st, Item(0, 0));
    assert LaneRecOk(s, l);
  }

  lemma NoNextLeavesPending(s: State, l: nat)
    requires Struct(s) && Enabled(s, TakeNext(l)) && !Next(s.lanes[l].st).1.RunItem?
    ensures Pending(After(s, TakeNext(l))) == Pending(s)
  {
    hide Struct;
    CurInRange(s);
  }

  lemma TakeNextHist(s: State, l: nat)
    requires Struct(s) && Hist(s) && Enabled(s, TakeNext(l))
    ensures Hist(After(s, TakeNext(l)))
  {
    hide LaneOk, Pending;
    var s' := After(s, TakeNext(l));
    if Next(s.lanes[l].st).1.RunItem? {
      NextTakesPending(s, l);
      assert s'.accepted == LeftItems(s'.left) + Pending(s');
    } else {
      NoNextLeavesPending(s, l);
      HistUnmoved(s, s');
    }
  }

  /** What quiescing a lane takes from it is what it held, and it holds all that is
      queued or nothing. */
  lemma QuiesceTakesPending(s: State, l: nat)
    requires Struct(s) && Enabled(s, QuiesceLane(l))
    ensures var s' := After(s, QuiesceLane(l));
      var dropped := Quiesce(s.lanes[l].st).1;
      && Pending(s) == dropped + Pending(s')
      && (dropped != [] ==> s.cur == Some(l) && Pending(s') == [])
      && LeftItems(s'.left) == LeftItems(s.left) + dropped
  {
    hide Struct;
    DroppedHaveLeft(s, l);
    DroppedWerePending(s, l);
  }

  lemma DroppedHaveLeft(s: State, l: nat)
    requires Enabled(s, QuiesceLane(l))
    ensures LeftItems(After(s, QuiesceLane(l)).left) == LeftItems(s.left) + Quiesce(s.lanes[l].st).1
  {
    SectionsKeepOrder(s.lanes[l].st, Item(0, 0));
  }

  lemma DroppedWerePending(s: State, l: nat)
    requires Struct(s) && Enabled(s, QuiesceLane(l))
    ensures var s' := After(s, QuiesceLane(l));
      var dropped := Quiesce(s.lanes[l].st).1;
      && Pending(s) == dropped + Pending(s')
      && (dropped != [] ==> s.cur == Some(l) && Pending(s') == [])
  {
    hide LaneOk;
    SectionsKeepOrder(s.lanes[l].st, Item(0, 0));
    if s.lanes[l].st.q != [] {
      QueuedIsPending(s, l);
    }
    assert LaneRecOk(s, l);
    RetiredOrQuiescedEmpty(s, l);
  }

  lemma QuiesceLaneHist(s: State, l: nat)
    requires Struct(s) && Hist(s) && Enabled(s, QuiesceLane(l))
    ensures Hist(After(s, QuiesceLane(l)))
  {
    hide Struct, Pending, Enabled;
    QuiesceTakesPending(s, l);
    var s' := After(s, QuiesceLane(l));
    assert s'.accepted == LeftItems(s'.left) + Pending(s');
    assert s'.calls == s.calls && s'.accepted == s.accepted;
  }

  lemma MapStepHist(s: State, e: Event)
    requires Struct(s) && Hist(s) && Enabled(s, e)
    requires e.Install? || e.DropRetired? || e.LeaveSub?
    ensures Hist(After(s, e))
  {
    hide LaneOk;
    var s' := After(s, e);
    match e
    case Install(c) =>
      assert CallOk(s, c);
      assert LaneRecOk(s, s.calls[c].pc.lane);
      HistUnmoved(s, s');
    case DropRetired(c) =>
      assert CallOk(s, c);
      RetiredHoldsNothing(s, s.calls[c].pc.lane);
      HistUnmoved(s, s');
    case LeaveSub(l) =>
      assert LaneRecOk(s, l);
      RetiredHoldsNothing(s, l);
      HistUnmoved(s, s');
  }

  /** Steps that leave every queue, the map and every accepted call alone. */
  predicate IsQuiet(e: Event) {
    !e.PushItem? && !e.TakeNext? && !e.QuiesceLane? && !e.Install? && !e.DropRetired? && !e.LeaveSub?
  }

  lemma QuietHist(s: State, e: Event)
    requires Struct(s) && Hist(s) && Enabled(s, e) && IsQuiet(e)
    ensures Hist(After(s, e))
  {
    hide Struct, Hist;
    HistUnmoved(s, After(s, e)) by {
      assert s.cur.Some? ==> s.cur.value < |s.lanes| by {
        CurInRange(s);
      }
    }
  }

  lemma CurInRange(s: State)
    requires Struct(s)
    ensures s.cur.Some? ==> s.cur.value < |s.lanes|
  {}

  /** Every step keeps the history. */
  lemma HistKept(s: State, e: Event)
    requires Struct(s) && Hist(s) && Enabled(s, e)
    ensures Hist(After(s, e))
  {
    hide After, Struct, Hist;
    match e
    case PushItem(c) => PushHist(s, c);
    case TakeNext(l) => TakeNextHist(s, l);
    case QuiesceLane(l) => QuiesceLaneHist(s, l);
    case Install(_) => MapStepHist(s, e);
    case DropRetired(_) => MapStepHist(s, e);
    case LeaveSub(_) => MapStepHist(s, e);
    case _ => QuietHist(s, e);
  }

  // ── Quiesce reaches every lane ───────────────────────────────────────────

  /** Once Quiesce has its snapshot, each lane it can still meet is quiesced or
      waiting to be. */
  ghost predicate Swept(s: State) {
    s.quiescer.Sweeping? ==>
      forall l :: l in s.hub && l < |s.lanes| ==> s.lanes[l].st.quiesced || l in s.quiescer.todo
  }

  lemma SweptKept(s: State, e: Event)
    requires Struct(s) && Swept(s) && Enabled(s, e)
    ensures Swept(After(s, e))
  {
    hide Struct;
    var s' := After(s, e);
    if s'.quiescer.Sweeping? && s.quiescer.Sweeping? {
      forall l | l in s'.hub && l < |s'.lanes|
        ensures s'.lanes[l].st.quiesced || l in s'.quiescer.todo
      {
        assert l in s.hub && l < |s.lanes|;
        assert s.lanes[l].st.quiesced || l in s.quiescer.todo;
      }
    }
  }

  /** Quiesce has quiesced every lane it saw. */
  predicate SweepDone(s: State) {
    s.quiescer.Sweeping? && s.quiescer.todo == {}
  }

  /** After that nothing is queued, so nothing can start and nothing is accepted. */
  lemma NothingStartsAfterSweep(s: State, e: Event)
    requires Struct(s) && Swept(s) && SweepDone(s) && Enabled(s, e)
    ensures SweepDone(After(s, e))
    ensures After(s, e).left == s.left && After(s, e).accepted == s.accepted
    ensures Pending(s) == []
  {
    hide LaneOk;
    if s.cur.Some? {
      assert LaneRecOk(s, s.cur.value);
      RetiredOrQuiescedEmpty(s, s.cur.value);
    }
    match e
    case PushItem(c) =>
      assert CallOk(s, c);
      assert LaneRecOk(s, s.calls[c].pc.lane);
    case TakeNext(l) =>
      assert LaneRecOk(s, l);
      RetiredOrQuiescedEmpty(s, l);
    case _ =>
  }

  lemma RetiredOrQuiescedEmpty(s: State, l: nat)
    requires l < |s.lanes| && LaneRecOk(s, l)
    ensures s.lanes[l].st.retired || s.lanes[l].st.quiesced ==> s.lanes[l].st.q == []
  {}

  // ── one answer per call ──────────────────────────────────────────────────

  /** The item inside Run, if there is one. */
  function InRun(s: State): seq<Item> {
    if s.cur.Some? && s.cur.value < |s.lanes| && s.lanes[s.cur.value].pc.Running? then
      [s.lanes[s.cur.value].pc.item]
    else []
  }

  /** The items Quiesce has discarded and not yet told. */
  function Telling(s: State): seq<Item> {
    if s.quiescer.Sweeping? then s.quiescer.telling else []
  }

  predicate AnsweredInRun(s: State) {
    InRun(s) != [] && s.lanes[s.cur.value].pc.answered
  }

  /** How often a call's reply function has been invoked: not while the item is
      queued, inside Run before its outcome or the caller's timeout, or discarded
      and not yet told; once in every other state past acceptance or refusal. */
  function Replies(s: State, c: nat): nat
    requires c < |s.calls|
  {
    var item := s.calls[c].item;
    match s.calls[c].pc
    case Refused => 1
    case Accepted =>
      if item in Pending(s) || item in Telling(s) || (item in InRun(s) && !AnsweredInRun(s)) then 0 else 1
    case _ => 0
  }

  ghost predicate RepliesOk(s: State) {
    forall c :: 0 <= c < |s.calls| ==> s.calls[c].replies == Replies(s, c)
  }

  /** The item inside Run and those being told are different items, all of which
      have left their queue. */
  ghost predicate Apart(s: State) {
    AreApart(InRun(s), Telling(s), LeftItems(s.left))
  }

  ghost predicate AreApart(run: seq<Item>, telling: seq<Item>, left: seq<Item>) {
    && Distinct(run + telling)
    && forall x :: x in run + telling ==> x in left
  }

  lemma RunningIsCurrent(s: State, l: nat)
    requires Struct(s) && l < |s.lanes| && s.lanes[l].pc.Running?
    ensures s.cur == Some(l) && InRun(s) == [s.lanes[l].pc.item]
  {
    assert LaneRecOk(s, l);
  }

  /** What left the queue is not in it. */
  lemma LeftIsNotPending(s: State, x: Item, y: Item)
    requires Hist(s) && x in LeftItems(s.left) && y in Pending(s)
    ensures x.id != y.id
  {
    var i :| 0 <= i < |s.left| && LeftItems(s.left)[i] == x;
    var j :| 0 <= j < |Pending(s)| && Pending(s)[j] == y;
    assert s.accepted[i] == x && s.accepted[|s.left| + j] == y;
  }

  lemma ApartKept(s: State, e: Event)
    requires Struct(s) && Hist(s) && Apart(s) && Enabled(s, e)
    ensures Apart(After(s, e))
  {
    hide Struct, Hist, Distinct;
    var s' := After(s, e);
    match e
    case TakeNext(l) => TakeNextApart(s, l);
    case QuiesceLane(l) => QuiesceLaneApart(s, l);
    case TellDiscarded =>
      TellApart(s);
    case _ => OtherApart(s, e);
  }

  /** What taking an item does to the three places an item can be. */
  lemma TakeNextMoves(s: State, l: nat)
    requires Struct(s) && Enabled(s, TakeNext(l))
    ensures var s' := After(s, TakeNext(l));
      && InRun(s) == []
      && Telling(s') == Telling(s)
      && match Next(s.lanes[l].st).1
         case RunItem(item) =>
           && InRun(s') == [item] && !AnsweredInRun(s')
           && Pending(s) == [item] + Pending(s')
           && LeftItems(s'.left) == LeftItems(s.left) + [item]
         case _ => InRun(s') == [] && Pending(s') == Pending(s) && s'.left == s.left
  {
    hide LaneOk;
    assert LaneRecOk(s, l);
    SectionsKeepOrder(s.lanes[l].st, Item(0, 0));
  }

  lemma TakeNextApart(s: State, l: nat)
    requires Struct(s) && Hist(s) && Apart(s) && Enabled(s, TakeNext(l))
    ensures Apart(After(s, TakeNext(l)))
  {
    hide Struct, Hist, After, InRun, Telling, Pending, Distinct, LeftItems;
    TakeNextMoves(s, l);
    match Next(s.lanes[l].st).1
    case RunItem(item) =>
      assert item in Pending(s);
      forall x | x in Telling(s)
        ensures x.id != item.id
      {
        assert x in InRun(s) + Telling(s);
        LeftIsNotPending(s, x, item);
      }
      NewRunApart(item, Telling(s), LeftItems(s.left));
    case _ =>
  }

  lemma NewRunApart(item: Item, telling: seq<Item>, left: seq<Item>)
    requires AreApart([], telling, left)
    requires forall x :: x in telling ==> x.id != item.id
    ensures AreApart([item], telling, left + [item])
  {
    assert [] + telling == telling;
  }

  lemma QuiesceLaneApart(s: State, l: nat)
    requires Struct(s) && Hist(s) && Apart(s) && Enabled(s, QuiesceLane(l))
    ensures Apart(After(s, QuiesceLane(l)))
  {
    hide Struct, Hist, Pending, Distinct, LeftItems;
    var s' := After(s, QuiesceLane(l));
    QuiesceTakesPending(s, l);
    var dropped := Telling(s');
    assert InRun(s') == InRun(s);
    forall x, y | x in InRun(s) && y in dropped
      ensures x.id != y.id
    {
      assert x in InRun(s) + Telling(s);
      assert y in Pending(s);
      LeftIsNotPending(s, x, y);
    }
    PendingDistinct(s);
    DroppedApart(InRun(s), dropped, LeftItems(s.left), Pending(s'));
  }

  lemma PendingDistinct(s: State)
    requires Hist(s)
    ensures Distinct(Pending(s))
  {
    assert Pending(s) == s.accepted[|s.left|..];
  }

  lemma DroppedApart(run: seq<Item>, dropped: seq<Item>, left: seq<Item>, rest: seq<Item>)
    requires AreApart(run, [], left) && Distinct(dropped + rest)
    requires forall x, y :: x in run && y in dropped ==> x.id != y.id
    ensures AreApart(run, dropped, left + dropped)
  {
    assert run + [] == run;
    assert dropped == (dropped + rest)[..|dropped|];
  }

  lemma TellApart(s: State)
    requires Apart(s) && Enabled(s, TellDiscarded)
    ensures Apart(After(s, TellDiscarded))
  {
    var s' := After(s, TellDiscarded);
    assert InRun(s') == InRun(s);
    var all := InRun(s) + Telling(s);
    var all' := InRun(s') + Telling(s');
    forall i, j | 0 <= i < j < |all'|
      ensures all'[i].id != all'[j].id
    {
      var i' := if i < |InRun(s)| then i else i + 1;
      var j' := if j < |InRun(s)| then j else j + 1;
      assert all[i'] == all'[i] && all[j'] == all'[j];
    }
    assert forall x :: x in all' ==> x in all;
  }

  /** The other steps move no item into or out of Run, nor tell one. */
  lemma OtherApart(s: State, e: Event)
    requires Struct(s) && Apart(s) && Enabled(s, e)
    requires !e.TakeNext? && !e.QuiesceLane? && !e.TellDiscarded?
    ensures Apart(After(s, e))
  {
    hide Struct, InRun, Distinct, LeftItems;
    TellingKept(s, e);
    if e.EndRun? {
      RunningIsCurrent(s, e.l);
      EndRunMoves(s, e.l);
      TailDistinct(InRun(s), Telling(s));
    } else {
      InRunKept(s, e);
    }
  }

  lemma TellingKept(s: State, e: Event)
    requires Enabled(s, e)
    requires !e.TakeNext? && !e.QuiesceLane? && !e.TellDiscarded?
    ensures Telling(After(s, e)) == Telling(s) && After(s, e).left == s.left
  {}

  lemma EndRunMoves(s: State, l: nat)
    requires Struct(s) && Enabled(s, EndRun(l))
    ensures InRun(After(s, EndRun(l))) == [] && Pending(After(s, EndRun(l))) == Pending(s)
  {
    assert LaneRecOk(s, l);
  }

  lemma TailDistinct(xs: seq<Item>, ys: seq<Item>)
    requires Distinct(xs + ys)
    ensures Distinct([] + ys) && forall y :: y in [] + ys ==> y in xs + ys
  {
    assert forall i :: 0 <= i < |ys| ==> (xs + ys)[|xs| + i] == ys[i];
  }

  lemma InRunKept(s: State, e: Event)
    requires Struct(s) && Enabled(s, e)
    requires !e.TakeNext? && !e.EndRun?
    ensures InRun(After(s, e)) == InRun(s)
  {
    hide Struct;
    CurInRange(s);
    if e.Install? || e.DropRetired? || e.Spawn? || e.LeaveSub? {
      InRunKeptByMap(s, e);
    } else if e.Wake? || e.Idle? || e.MarkRetired? || e.LeaveHub? || e.Timeout? {
      InRunKeptByDrainer(s, e);
    }
  }

  lemma InRunKeptByMap(s: State, e: Event)
    requires Struct(s) && Enabled(s, e)
    requires e.Install? || e.DropRetired? || e.Spawn? || e.LeaveSub?
    ensures InRun(After(s, e)) == InRun(s)
  {
    hide LaneOk;
    if s.cur.Some? {
      assert LaneRecOk(s, s.cur.value);
    }
    if e.LeaveSub? {
      assert LaneRecOk(s, e.l);
    } else {
      assert CallOk(s, e.c);
    }
  }

  lemma InRunKeptByDrainer(s: State, e: Event)
    requires Struct(s) && Enabled(s, e)
    requires e.Wake? || e.Idle? || e.MarkRetired? || e.LeaveHub? || e.Timeout?
    ensures InRun(After(s, e)) == InRun(s)
  {
    hide LaneOk;
    assert LaneRecOk(s, e.l);
  }

  /** Only these three steps move queued items. */
  lemma PendingKept(s: State, e: Event)
    requires Struct(s) && Enabled(s, e)
    requires !e.PushItem? && !e.TakeNext? && !e.QuiesceLane?
    ensures Pending(After(s, e)) == Pending(s)
  {
    hide Struct;
    CurInRange(s);
    if e.Install? || e.DropRetired? || e.LeaveSub? {
      PendingKeptByMap(s, e);
    }
  }

  lemma PendingKeptByMap(s: State, e: Event)
    requires Struct(s) && Enabled(s, e)
    requires e.Install? || e.DropRetired? || e.LeaveSub?
    ensures Pending(After(s, e)) == Pending(s)
  {
    hide LaneOk;
    if e.LeaveSub? {
      assert LaneRecOk(s, e.l);
      RetiredHoldsNothing(s, e.l);
    } else if e.Install? {
      assert CallOk(s, e.c);
      assert LaneRecOk(s, s.calls[e.c].pc.lane);
    } else {
      assert CallOk(s, e.c);
      RetiredHoldsNothing(s, s.calls[e.c].pc.lane);
    }
  }

  /** The steps that move no item and accept none. */
  predicate IsStill(s: State, e: Event)
    requires Enabled(s, e)
  {
    && !e.TakeNext? && !e.QuiesceLane? && !e.TellDiscarded? && !e.EndRun? && !e.Timeout?
    && (e.PushItem? ==> Push(s.lanes[s.calls[e.c].pc.lane].st, s.calls[e.c].item).1 != PushOK)
  }

  lemma PlacesKept(s: State, e: Event)
    requires Struct(s) && Enabled(s, e) && IsStill(s, e)
    ensures var s' := After(s, e);
      && Pending(s') == Pending(s) && Telling(s') == Telling(s) && InRun(s') == InRun(s)
      && AnsweredInRun(s') == AnsweredInRun(s)
  {
    hide Struct, InRun;
    TellingKept(s, e);
    InRunKept(s, e);
    if !e.PushItem? {
      PendingKept(s, e);
    }
    AnsweredKept(s, e);
  }

  lemma AnsweredKept(s: State, e: Event)
    requires Struct(s) && Enabled(s, e) && IsStill(s, e)
    requires InRun(After(s, e)) == InRun(s)
    ensures AnsweredInRun(After(s, e)) == AnsweredInRun(s)
  {
    hide LaneOk;
    if InRun(s) != [] {
      var l := s.cur.value;
      assert LaneRecOk(s, l);
      if e.DropRetired? || e.Install? || e.Spawn? {
        assert CallOk(s, e.c);
      }
      if e.LeaveSub? {
        assert LaneRecOk(s, e.l);
      }
    }
  }

  /** Still steps answer a call exactly when they refuse it. */
  function RefusalReplies(c: Call): nat {
    if c.pc.Refused? then 1 else 0
  }

  /** A still step leaves an accepted call alone and accepts none. */
  lemma StillCall(s: State, e: Event, d: nat)
    requires Enabled(s, e) && IsStill(s, e) && d < |After(s, e).calls|
    requires d < |s.calls| && s.calls[d].pc != Accepted ==> s.calls[d].replies == RefusalReplies(s.calls[d])
    ensures var c := After(s, e).calls[d];
      if c.pc == Accepted then d < |s.calls| && c == s.calls[d] else c.replies == RefusalReplies(c)
  {
    hide Pending;
  }

  lemma StillReplies(s: State, e: Event)
    requires Struct(s) && RepliesOk(s) && Enabled(s, e) && IsStill(s, e)
    ensures RepliesOk(After(s, e))
  {
    hide Struct, Pending, Telling, InRun, AnsweredInRun, After, Enabled, IsStill;
    PlacesKept(s, e);
    var s' := After(s, e);
    forall d | 0 <= d < |s'.calls|
      ensures s'.calls[d].replies == Replies(s', d)
    {
      assert d < |s.calls| ==> s.calls[d].replies == Replies(s, d);
      StillCall(s, e, d);
    }
  }

  lemma OwnItem(s: State, d: nat)
    requires Struct(s) && d < |s.calls|
    ensures s.calls[d].item.id == d
  {
    assert CallOk(s, d);
  }

  /** An item that has left its queue belongs to an accepted call and is not queued. */
  lemma LeftItemIs(s: State, x: Item)
    requires Hist(s) && x in LeftItems(s.left)
    ensures x.id < |s.calls| && s.calls[x.id].item == x && s.calls[x.id].pc == Accepted
    ensures x !in Pending(s)
  {
    var i :| 0 <= i < |s.left| && LeftItems(s.left)[i] == x;
    assert s.accepted[i] == x;
    if x in Pending(s) {
      LeftIsNotPending(s, x, x);
    }
  }

  lemma AcceptReplies(s: State, c: nat)
    requires Struct(s) && RepliesOk(s) && Enabled(s, PushItem(c)) && !IsStill(s, PushItem(c))
    ensures RepliesOk(After(s, PushItem(c)))
  {
    hide LaneOk, AnsweredInRun;
    var s' := After(s, PushItem(c));
    var l := s.calls[c].pc.lane;
    assert CallOk(s, c);
    assert LaneRecOk(s, l);
    assert Pending(s') == Pending(s) + [s.calls[c].item];
    InRunKept(s, PushItem(c));
    TellingKept(s, PushItem(c));
    assert AnsweredInRun(s') == AnsweredInRun(s) by {
      AnsweredSame(s, s', l);
    }
    forall d | 0 <= d < |s'.calls|
      ensures s'.calls[d].replies == Replies(s', d)
    {
      OwnItem(s, d);
      assert s.calls[d].replies == Replies(s, d);
    }
  }

  lemma AnsweredSame(s: State, s': State, l: nat)
    requires l < |s.lanes| == |s'.lanes| && s.cur == Some(l) && s'.cur == s.cur
    requires s'.lanes[l].pc == s.lanes[l].pc
    ensures AnsweredInRun(s') == AnsweredInRun(s)
  {}

  lemma TakeReplies(s: State, l: nat)
    requires Struct(s) && RepliesOk(s) && Enabled(s, TakeNext(l))
    ensures RepliesOk(After(s, TakeNext(l)))
  {
    hide Struct, Pending, Telling, InRun, AnsweredInRun, LeftItems;
    TakeNextMoves(s, l);
    var s' := After(s, TakeNext(l));
    forall d | 0 <= d < |s'.calls|
      ensures s'.calls[d].replies == Replies(s', d)
    {
      assert s'.calls[d] == s.calls[d];
      assert s.calls[d].replies == Replies(s, d);
    }
  }

  /** The running item's own call gains its one answer, at the caller's timeout or
      at the end of the run, whichever comes first. */
  lemma RunReplies(s: State, e: Event)
    requires Struct(s) && Hist(s) && Apart(s) && RepliesOk(s) && Enabled(s, e)
    requires e.Timeout? || e.EndRun?
    ensures RepliesOk(After(s, e))
  {
    hide Struct, Hist, LeftItems;
    var s' := After(s, e);
    var x := s.lanes[e.l].pc.item;
    RunningIsCurrent(s, e.l);
    assert x in InRun(s) + Telling(s);
    LeftItemIs(s, x);
    NotBoth(InRun(s), Telling(s), x);
    assert Pending(s') == Pending(s);
    forall d | 0 <= d < |s'.calls|
      ensures s'.calls[d].replies == Replies(s', d)
    {
      OwnItem(s, d);
      assert s.calls[d].replies == Replies(s, d);
    }
  }

  lemma NotBoth(run: seq<Item>, telling: seq<Item>, x: Item)
    requires Distinct(run + telling) && x in run
    ensures x !in telling
  {
    var i :| 0 <= i < |run| && run[i] == x;
    forall j | 0 <= j < |telling|
      ensures telling[j] != x
    {
      assert (run + telling)[i].id != (run + telling)[|run| + j].id;
    }
  }

  lemma QuiesceReplies(s: State, l: nat)
    requires Struct(s) && RepliesOk(s) && Enabled(s, QuiesceLane(l))
    ensures RepliesOk(After(s, QuiesceLane(l)))
  {
    hide Struct, Pending, LeftItems;
    QuiesceTakesPending(s, l);
    var s' := After(s, QuiesceLane(l));
    forall d | 0 <= d < |s'.calls|
      ensures s'.calls[d].replies == Replies(s', d)
    {
      assert s.calls[d].replies == Replies(s, d);
    }
  }

  lemma TellReplies(s: State)
    requires Struct(s) && Hist(s) && Apart(s) && RepliesOk(s) && Enabled(s, TellDiscarded)
    ensures RepliesOk(After(s, TellDiscarded))
  {
    hide Struct, Hist, LeftItems;
    var s' := After(s, TellDiscarded);
    var x := Telling(s)[0];
    assert x in InRun(s) + Telling(s);
    LeftItemIs(s, x);
    FirstOnly(InRun(s), Telling(s));
    assert Pending(s') == Pending(s) && InRun(s') == InRun(s);
    forall d | 0 <= d < |s'.calls|
      ensures s'.calls[d].replies == Replies(s', d)
    {
      OwnItem(s, d);
      assert Telling(s) == [x] + Telling(s');
      assert s.calls[d].replies == Replies(s, d);
    }
  }

  lemma FirstOnly(run: seq<Item>, telling: seq<Item>)
    requires Distinct(run + telling) && telling != []
    ensures telling[0] !in run && telling[0] !in telling[1..]
  {
    forall i | 0 <= i < |run|
      ensures run[i] != telling[0]
    {
      assert (run + telling)[i].id != (run + telling)[|run|].id;
    }
    forall i | 0 <= i < |telling[1..]|
      ensures telling[1..][i] != telling[0]
    {
      assert (run + telling)[|run|].id != (run + telling)[|run| + 1 + i].id;
    }
  }

  lemma RepliesKept(s: State, e: Event)
    requires Struct(s) && Hist(s) && Apart(s) && RepliesOk(s) && Enabled(s, e)
    ensures RepliesOk(After(s, e))
  {
    hide After, Struct, Hist, Apart, RepliesOk;
    if IsStill(s, e) {
      StillReplies(s, e);
    } else {
      match e
      case PushItem(c) => AcceptReplies(s, c);
      case TakeNext(l) => TakeReplies(s, l);
      case QuiesceLane(l) => QuiesceReplies(s, l);
      case TellDiscarded => TellReplies(s);
      case _ => RunReplies(s, e);
    }
  }

  // ── runs ─────────────────────────────────────────────────────────────────

  ghost predicate Inv(s: State) {
    Struct(s) && Hist(s) && Swept(s) && Apart(s) && RepliesOk(s)
  }

  /** Every state of every run satisfies the invariant. */
  lemma {:induction false} InvOverRuns(s: State, es: seq<Event>)
    requires Inv(s) && IsRun(s, es)
    ensures Inv(Final(s, es))
    decreases |es|
  {
    hide After, Struct, Hist, Swept, Apart, RepliesOk;
    if es != [] {
      StructKept(s, es[0]);
      HistKept(s, es[0]);
      SweptKept(s, es[0]);
      ApartKept(s, es[0]);
      RepliesKept(s, es[0]);
      InvOverRuns(After(s, es[0]), es[1..]);
    }
  }

  lemma InitialInv()
    ensures Inv(INITIAL)
  {}

  /** The drainer of lane l will look at its queue again. */
  predicate IsDrained(s: State, l: nat)
    requires l < |s.lanes|
  {
    var pc := s.lanes[l].pc;
    pc.AtNext? || pc.Waiting? || pc.Running? || (pc.Unstarted? && Enabled(s, Spawn(s.lanes[l].owner)))
  }

  /** One fate for every accepted item, over every run from the start: the items
      accepted are, in order, those that left their queue, each once, to be run or
      to be discarded, followed by those still queued; what is queued is on the one
      lane that is alive, whose drainer will look again; every retired lane is
      empty. */
  lemma ExactlyOneFate(es: seq<Event>)
    requires IsRun(INITIAL, es)
    ensures var s := Final(INITIAL, es);
      && s.accepted == LeftItems(s.left) + Pending(s)
      && Distinct(s.accepted)
      && (forall l :: 0 <= l < |s.lanes| ==>
            && (s.lanes[l].st.retired ==> s.lanes[l].st.q == [])
            && (s.lanes[l].st.q != [] ==>
                  s.cur == Some(l) && Pending(s) == s.lanes[l].st.q && IsDrained(s, l)))
  {
    InitialInv();
    InvOverRuns(INITIAL, es);
    var s := Final(INITIAL, es);
    forall l | 0 <= l < |s.lanes|
      ensures s.lanes[l].st.retired ==> s.lanes[l].st.q == []
      ensures s.lanes[l].st.q != [] ==>
        s.cur == Some(l) && Pending(s) == s.lanes[l].st.q && IsDrained(s, l)
    {
      assert LaneRecOk(s, l);
      if s.lanes[l].pc.Unstarted? {
        assert CallOk(s, s.lanes[l].owner);
      }
    }
  }

  /** No two items are ever inside Run at once, even when a lane idled out and a
      new one took its place. */
  lemma OneRunAtATime(es: seq<Event>, k: nat, l: nat)
    requires IsRun(INITIAL, es)
    requires k < |Final(INITIAL, es).lanes| && l < |Final(INITIAL, es).lanes|
    requires Final(INITIAL, es).lanes[k].pc.Running? && Final(INITIAL, es).lanes[l].pc.Running?
    ensures k == l
  {
    hide Hist, Swept, Apart, RepliesOk;
    InitialInv();
    InvOverRuns(INITIAL, es);
    RunningIsCurrent(Final(INITIAL, es), k);
    RunningIsCurrent(Final(INITIAL, es), l);
  }

  /** Each call's reply function is invoked once: at the refusal, at the end of the
      run or the caller's timeout before it, or when the discarded item is told. */
  lemma OneReply(es: seq<Event>, c: nat)
    requires IsRun(INITIAL, es) && c < |Final(INITIAL, es).calls|
    ensures var s := Final(INITIAL, es); s.calls[c].replies == Replies(s, c) <= 1
  {
    hide Hist, Swept, Apart, Struct;
    InitialInv();
    InvOverRuns(INITIAL, es);
  }

  /** From the moment Quiesce has quiesced the lanes, in every continuation, no
      item starts and none is accepted. */
  lemma {:induction false} NoStartAfterQuiesce(s: State, es: seq<Event>)
    requires Inv(s) && SweepDone(s) && IsRun(s, es)
    ensures Final(s, es).left == s.left && Final(s, es).accepted == s.accepted
    decreases |es|
  {
    hide After, Struct, Hist, Swept, Apart, RepliesOk, SweepDone;
    if es != [] {
      NothingStartsAfterSweep(s, es[0]);
      InvOverRuns(s, [es[0]]);
      assert Final(s, [es[0]]) == After(s, es[0]);
      NoStartAfterQuiesce(After(s, es[0]), es[1..]);
    }
  }

  /** What is left of a queue that only its front has been taken from. */
  ghost predicate IsRest(q: seq<Item>, of: seq<Item>) {
    |q| <= |of| && q == of[|of| - |q|..]
  }

  /** Lane l takes no new work: it is closed, and what it holds it held then. */
  ghost predicate TakesNoMore(s: State, l: nat, q: seq<Item>) {
    l < |s.lanes| && s.lanes[l].st.closed && IsRest(s.lanes[l].st.q, q)
  }

  lemma ClosedTakesNone(s: State, e: Event, l: nat, q: seq<Item>)
    requires Enabled(s, e) && TakesNoMore(s, l, q)
    ensures TakesNoMore(After(s, e), l, q)
    ensures e.PushItem? && s.calls[e.c].pc.lane == l ==> After(s, e).accepted == s.accepted
  {
    if e.TakeNext? && e.l == l && s.lanes[l].st.q != [] {
      var rest := s.lanes[l].st.q;
      assert rest[1..] == q[|q| - |rest[1..]|..];
    }
  }

  /** Once a connection has closed a lane, in every continuation, nothing more is accepted
      on it: it runs what it held, front first, and no push to it succeeds. */
  lemma {:induction false} ClosedLaneRunsOut(s: State, es: seq<Event>, l: nat, q: seq<Item>)
    requires IsRun(s, es) && TakesNoMore(s, l, q)
    ensures TakesNoMore(Final(s, es), l, q)
    decreases |es|
  {
    hide After, TakesNoMore;
    if es != [] {
      ClosedTakesNone(s, es[0], l, q);
      ClosedLaneRunsOut(After(s, es[0]), es[1..], l, q);
    }
  }

  lemma CloseClosesLane(s: State, l: nat)
    requires Enabled(s, CloseLane(l))
    ensures TakesNoMore(After(s, CloseLane(l)), l, s.lanes[l].st.q)
  {}
}
