/**
When the critical sections of `Subs` do anything, and what they leave alone
(hub/sub.go:181-393, hub/watch.go:217-301).
*/
module SubLaws {
  import opened Wrappers
  import opened FrameSlots
  import opened Subs

  /** The Sub still takes messages, offers and watches. */
  predicate IsUp(s: SubState) {
    !(s.closed || s.finalized || s.dead)
  }

  /** There is room in the queue: under 1024 messages, and not over 8 MiB with this one. */
  predicate HasRoom(s: SubState, m: Msg) {
    |s.fifo| < 1024 && Size(s.fifo) + |m| <= 8 * 1024 * 1024
  }

  /** A message is queued, at the end, exactly when the Sub is up and has room; it overflows
      exactly when the Sub is up and has none; and nothing else changes. */
  lemma EnqueueMeans(s: SubState, m: Msg)
    requires SubOk(s)
    ensures Overflows(s, m) <==> IsUp(s) && !HasRoom(s, m)
    ensures var s' := Enqueue(s, m);
      && s' == s.(fifo := s'.fifo, bytes := s'.bytes)
      && s'.fifo == (if IsUp(s) && HasRoom(s, m) then s.fifo + [m] else s.fifo)
  {}

  /** The reply is queued on the same terms, an empty one never, and the slot is active
      afterwards, if there is one, on any terms. */
  lemma ReplyMeans(s: SubState, pane: int, m: Msg)
    requires SubOk(s)
    ensures var s' := ReplyAndActivate(s, pane, m);
      && s'.fifo == (if |m| > 0 && IsUp(s) && HasRoom(s, m) then s.fifo + [m] else s.fifo)
      && s'.slots.Keys == s.slots.Keys && (pane in s.slots ==> s'.slots[pane] == s.slots[pane].(active := true))
      && (forall p :: p in s.slots && p != pane ==> s'.slots[p] == s.slots[p])
      && s' == s.(fifo := s'.fifo, bytes := s'.bytes, slots := s'.slots)
  {
    hide Size, SubOk, Enqueue, Activate, HasRoom;
    ActivateMeans(s, pane);
    ActivateKeeps(s, pane);
    EnqueueMeans(Activate(s, pane), m);
    assert HasRoom(Activate(s, pane), m) == HasRoom(s, m) by {
      SameRoom(s, Activate(s, pane), m);
    }
  }

  lemma SameRoom(s: SubState, t: SubState, m: Msg)
    requires t.fifo == s.fifo
    ensures HasRoom(t, m) == HasRoom(s, m)
  {}

  lemma ActivateMeans(s: SubState, pane: int)
    ensures var s' := Activate(s, pane);
      && s' == s.(slots := s'.slots) && s'.slots.Keys == s.slots.Keys
      && (pane in s.slots ==> s'.slots[pane] == s.slots[pane].(active := true))
      && (forall p :: p in s.slots && p != pane ==> s'.slots[p] == s.slots[p])
  {}

  /** Start counts once, and not after a kill; an empty head is none. */
  lemma StartMeans(s: SubState, head: Msg)
    ensures var s' := Start(s, head);
      && s' == s.(started := s'.started, head := s'.head)
      && (s'.started <==> s.started || !s.dead)
      && (s'.started && !s.started ==> s'.head == if |head| > 0 then Some(head) else s.head)
      && ((s.started || s.dead) ==> s' == s)
  {}

  /** Finalize counts once, and not after a kill: it drops the backlog and every slot, and
      the finals are what is left to say. */
  lemma FinalizeMeans(s: SubState, finals: seq<Msg>)
    ensures s.finalized || s.dead ==> Finalize(s, finals) == s
    ensures !s.finalized && !s.dead ==>
      var s' := Finalize(s, finals);
      && s'.finalized && s'.finals == finals
      && s'.fifo == [] && s'.bytes == 0 && s'.slots == map[] && s'.slotOrder == [] && s'.slotNext == 0
      && s'.head == s.head && s'.started == s.started && s'.closed == s.closed && s'.dead == s.dead
      && s'.failed == s.failed && s'.torn == s.torn && s'.closedPanes == s.closedPanes
  {}

  /** A close is for good and drops nothing; a kill is for good; a torn write stays torn. */
  lemma EndsMean(s: SubState, wrote: bool)
    ensures Close(s) == s.(closed := s.closed || !s.dead)
    ensures Kill(s).dead && Kill(s) == s.(dead := true)
    ensures WriteFailed(s, wrote) == s.(failed := true, torn := s.torn || wrote)
  {}

  /** An offer lands exactly when the Sub is up and the pane is watched and not closed on it;
      then the slot has a frame, and it is the whole message offered, or the rows offered
      over those that wait, under the new header; nothing else changes. */
  lemma OfferMeans(s: SubState, pane: int, key: bool, rows: Option<Rows>, hdr: string)
    ensures !(IsUp(s) && pane in s.slots && pane !in s.closedPanes) ==> Offer(s, pane, key, rows, hdr) == s
    ensures IsUp(s) && pane in s.slots && pane !in s.closedPanes ==>
      var s' := Offer(s, pane, key, rows, hdr);
      && s' == s.(slots := s'.slots) && s'.slots.Keys == s.slots.Keys
      && (forall p :: p in s.slots && p != pane ==> s'.slots[p] == s.slots[p])
      && var was, now := s.slots[pane], s'.slots[pane];
      && now.full && now.active == was.active
      && (rows.None? ==> Assemble(now) == Whole(hdr))
      && (rows.Some? && key ==> Assemble(now) == Merged(hdr, true, rows.value))
      && (rows.Some? && !key ==>
            && Assemble(now) == Merged(hdr, was.key, now.rows)
            && (forall y :: y in now.rows <==> y in was.rows || y in rows.value)
            && (forall y :: y in now.rows ==>
                  now.rows[y] == if y in rows.value then rows.value[y] else was.rows[y]))
  {}

  /** A watch gets a slot exactly when the Sub is up and the pane has not closed on it; a new
      one is empty and mute, and last in the rotation. */
  lemma AddSlotMeans(s: SubState, pane: int)
    ensures var (s', ok) := AddSlot(s, pane);
      && (ok <==> IsUp(s) && pane !in s.closedPanes)
      && s' == s.(slots := s'.slots, slotOrder := s'.slotOrder)
      && (ok ==> pane in s'.slots)
      && (pane in s'.slots && pane !in s.slots ==>
            !s'.slots[pane].active && !s'.slots[pane].full && s'.slotOrder == s.slotOrder + [pane])
      && (forall p :: p in s.slots ==> p in s'.slots && s'.slots[p] == s.slots[p])
      && (forall p :: p in s'.slots && p !in s.slots ==> p == pane)
      && (s'.slots == s.slots ==> s'.slotOrder == s.slotOrder)
  {}

  /** A slot that is dropped goes, and nothing else; the others keep their order. */
  lemma DropSlotMeans(s: SubState, pane: int)
    requires OrderOk(s.slots, s.slotOrder)
    ensures var s' := DropSlot(s, pane);
      && s' == s.(slots := s'.slots, slotOrder := s'.slotOrder)
      && s'.slots == (map p | p in s.slots && p != pane :: s.slots[p])
      && InSameOrder(s'.slotOrder, s.slotOrder) && forall p :: p in s'.slotOrder <==> p in s.slotOrder && p != pane
  {
    if pane in s.slots {
      RemovePaneKeeps(s.slotOrder, pane);
      RemoveKeepsOrder(s.slotOrder, pane);
    } else {
      SameOrder(s.slotOrder);
      assert s.slots == map p | p in s.slots && p != pane :: s.slots[p];
    }
  }

  /** Those of s are some of t, in t's order. */
  predicate InSameOrder(s: seq<int>, t: seq<int>) {
    s == [] || (t != [] && if s[0] == t[0] then InSameOrder(s[1..], t[1..]) else InSameOrder(s, t[1..]))
  }

  lemma {:induction false} SameOrder(s: seq<int>)
    ensures InSameOrder(s, s)
  {
    if s != [] {
      SameOrder(s[1..]);
    }
  }

  lemma {:induction false} RemoveKeepsOrder(order: seq<int>, pane: int)
    requires NoRepeats(order)
    ensures InSameOrder(RemovePane(order, pane), order)
  {
    if order != [] {
      if order[0] == pane {
        SameOrder(order[1..]);
        assert order[1..] != [] ==> order[1..][0] != order[0];
      } else {
        RemoveKeepsOrder(order[1..], pane);
      }
    }
  }

  /** A pane that closed is barred for good, and its slot goes. */
  lemma PaneClosedMeans(s: SubState, pane: int)
    ensures PaneClosed(s, pane).closedPanes == s.closedPanes + {pane}
    ensures pane !in PaneClosed(s, pane).slots
    ensures PaneClosed(s, pane) == DropSlot(s, pane).(closedPanes := s.closedPanes + {pane})
  {}

  /** What the writer is given, first to last: the order to stop, after a kill, a torn write,
      or a failed one that no finals make up for; the head; the finals, one by one, and
      behind them, or at an empty one, the order to stop; the queue's oldest message; a
      frame of a pending slot; the order to stop, after a close; nothing. */
  lemma TakeMeans(s: SubState)
    requires SubOk(s)
    ensures var r := Take(s).1;
      if s.dead || s.torn || (s.failed && !s.finalized) then r == Stop
      else if s.head.Some? then r == Write(Head(s.head.value)) && Take(s).0 == s.(head := None)
      else if s.finalized then
        && (|s.finals| == 0 ==> r == Stop)
        && (|s.finals| > 0 && |s.finals[0]| == 0 ==> r == Stop)
        && (|s.finals| > 0 && |s.finals[0]| > 0 ==> r == Write(Final(s.finals[0])))
        && (|s.finals| > 0 ==> Take(s).0 == s.(finals := s.finals[1..]))
      else if |s.fifo| > 0 then
        r == Write(Event(s.fifo[0])) && Take(s).0.fifo == s.fifo[1..] && Take(s).0.slots == s.slots
      else if exists p :: p in s.slots && s.slots[p].active && s.slots[p].full then
        && r.Write? && r.e.Frame? && r.e.pane in s.slots
        && s.slots[r.e.pane].active && s.slots[r.e.pane].full && r.e.frame == Assemble(s.slots[r.e.pane])
        && Take(s).0.slots == s.slots[r.e.pane := Slot(true, false, false, "", map[], None)]
      else r == (if s.closed then Stop else Idle)
  {
    hide Scan, Size, NoRepeats, Assemble;
    if HasPending(s.slots) {
      PendingIsTaken(s.slots, s.slotOrder, s.slotNext);
    }
  }
}
