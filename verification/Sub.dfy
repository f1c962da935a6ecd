/**
One subscriber's state and its critical sections (hub/sub.go, hub/watch.go).

The functions on `SubState` are what each critical section does; `SubObjects` has
the object whose methods are proved against them, and `SubStream` the system of
its writer and producers. Messages are byte strings and never nil; a deadline and a close reason change
nothing here, so they are left to the sink.
*/
module Subs {
  import opened Wrappers
  import opened FrameSlots

  const FIFO_MAX_MSGS := 1024
  const FIFO_MAX_BYTES := 0x80_0000

  type Msg = string

  datatype SubState = SubState(
    head: Option<Msg>, fifo: seq<Msg>, bytes: int, started: bool, closed: bool, finalized: bool,
    finals: seq<Msg>, failed: bool, torn: bool, dead: bool,
    slots: Slots, slotOrder: seq<int>, slotNext: nat, closedPanes: set<int>)

  const NEW_SUB := SubState(None, [], 0, false, false, false, [], false, false, false, map[], [], 0, {})

  /** A Sub opened after Finalize: it subscribes to nothing and is replayed the
      finals. */
  function LateSub(finals: seq<Msg>): SubState {
    NEW_SUB.(finalized := true, finals := finals)
  }

  /** What is handed to Sink.Write, and where it came from. */
  datatype Entry = Head(m: Msg) | Event(m: Msg) | Frame(pane: int, frame: FrameMsg) | Final(m: Msg)

  function Size(msgs: seq<Msg>): nat {
    if msgs == [] then 0 else |msgs[0]| + Size(msgs[1..])
  }

  lemma {:induction false} SizeAppend(msgs: seq<Msg>, m: Msg)
    ensures Size(msgs + [m]) == Size(msgs) + |m|
  {
    if msgs != [] {
      assert (msgs + [m])[1..] == msgs[1..] + [m];
      SizeAppend(msgs[1..], m);
    } else {
      assert (msgs + [m])[1..] == [];
    }
  }

  /** What holds of a Sub between critical sections: the byte count is the queue's
      and both are within the caps, the rotation lists exactly the slots, a closed
      pane has none, and after finalize the backlog and the slots are gone. */
  ghost predicate SubOk(s: SubState) {
    && s.bytes == Size(s.fifo)
    && |s.fifo| <= FIFO_MAX_MSGS && s.bytes <= FIFO_MAX_BYTES
    && OrderOk(s.slots, s.slotOrder)
    && (forall p :: p in s.closedPanes ==> p !in s.slots)
    && (s.finalized ==> s.fifo == [] && s.slots == map[])
    && (!s.finalized ==> s.finals == [])
  }

  predicate IsOpen(s: SubState) {
    !s.closed && !s.finalized && !s.dead
  }

  // ── the critical sections ────────────────────────────────────────────────

  predicate Fits(s: SubState, m: Msg) {
    |s.fifo| + 1 <= FIFO_MAX_MSGS && s.bytes + |m| <= FIFO_MAX_BYTES
  }

  function Append(s: SubState, m: Msg): SubState {
    s.(fifo := s.fifo + [m], bytes := s.bytes + |m|)
  }

  function Start(s: SubState, head: Msg): SubState {
    if s.started || s.dead then s
    else s.(started := true, head := if |head| > 0 then Some(head) else s.head)
  }

  /** enqueue; a refusal by a Sub that is not open is no overflow. */
  function Enqueue(s: SubState, m: Msg): SubState {
    if IsOpen(s) && Fits(s, m) then Append(s, m) else s
  }

  predicate Overflows(s: SubState, m: Msg) {
    IsOpen(s) && !Fits(s, m)
  }

  function Finalize(s: SubState, finals: seq<Msg>): SubState {
    if s.dead || s.finalized then s
    else s.(finalized := true, fifo := [], bytes := 0, slots := map[], slotOrder := [], slotNext := 0, finals := finals)
  }

  function Kill(s: SubState): SubState {
    s.(dead := true)
  }

  function Close(s: SubState): SubState {
    if s.closed || s.dead then s else s.(closed := true)
  }

  function Offer(s: SubState, pane: int, key: bool, rows: Option<Rows>, hdr: string): SubState {
    if !IsOpen(s) || pane in s.closedPanes || pane !in s.slots then s
    else if rows.None? then s.(slots := s.slots[pane := OfferRaw(s.slots[pane], hdr)])
    else s.(slots := s.slots[pane := OfferRows(s.slots[pane], key, rows.value, hdr)])
  }

  function AddSlot(s: SubState, pane: int): (SubState, bool) {
    if !IsOpen(s) || pane in s.closedPanes then (s, false)
    else if pane in s.slots then (s, true)
    else (s.(slots := s.slots[pane := EMPTY_SLOT], slotOrder := s.slotOrder + [pane]), true)
  }

  function Activate(s: SubState, pane: int): SubState {
    if pane in s.slots then s.(slots := s.slots[pane := s.slots[pane].(active := true)]) else s
  }

  /** replyAndActivate: one acquisition for the reply and the slot. */
  function ReplyAndActivate(s: SubState, pane: int, m: Msg): SubState {
    var s' := Activate(s, pane);
    if m != "" then Enqueue(s', m) else s'
  }

  function RemovePane(order: seq<int>, pane: int): seq<int> {
    if order == [] then []
    else if order[0] == pane then order[1..]
    else [order[0]] + RemovePane(order[1..], pane)
  }

  function DropSlot(s: SubState, pane: int): SubState {
    if pane !in s.slots then s
    else s.(slots := s.slots - {pane}, slotOrder := RemovePane(s.slotOrder, pane))
  }

  function PaneClosed(s: SubState, pane: int): SubState {
    DropSlot(s.(closedPanes := s.closedPanes + {pane}), pane)
  }

  function WriteFailed(s: SubState, wrote: bool): SubState {
    s.(failed := true, torn := s.torn || wrote)
  }

  /** What take hands the writer: a message, the order to stop, or nothing to do. */
  datatype TakeResult = Write(e: Entry) | Stop | Idle

  function TakeFrame(s: SubState): (SubState, TakeResult)
    requires s.slotOrder != []
  {
    var (i, found) := Scan(s.slots, s.slotOrder, s.slotNext, |s.slotOrder|);
    if !found then (s.(slotNext := i), Idle)
    else
      var p := s.slotOrder[i];
      (s.(slotNext := i, slots := s.slots[p := Drained(s.slots[p])]), Write(Frame(p, Assemble(s.slots[p]))))
  }

  ghost function Take(s: SubState): (SubState, TakeResult) {
    if s.dead || s.torn || (s.failed && !s.finalized) then (s, Stop)
    else if s.head.Some? then (s.(head := None), Write(Head(s.head.value)))
    else if s.finalized then
      if s.finals == [] then (s, Stop)
      else if s.finals[0] == "" then (s.(finals := s.finals[1..]), Stop)
      else (s.(finals := s.finals[1..]), Write(Final(s.finals[0])))
    else if s.fifo != [] then
      (s.(fifo := s.fifo[1..], bytes := s.bytes - |s.fifo[0]|), Write(Event(s.fifo[0])))
    else if HasPending(s.slots) then
      if s.slotOrder == [] then (s, Idle) else TakeFrame(s)
    else if s.closed then (s, Stop)
    else (s, Idle)
  }

  // ── every section keeps the Sub in order ─────────────────────────────────

  lemma {:induction false} RemovePaneKeeps(order: seq<int>, pane: int)
    requires NoRepeats(order)
    ensures NoRepeats(RemovePane(order, pane))
    ensures forall p :: p in RemovePane(order, pane) <==> p in order && p != pane
  {
    if order != [] && order[0] != pane {
      RemovePaneKeeps(order[1..], pane);
      var rest := RemovePane(order[1..], pane);
      assert order[0] !in order[1..];
      assert order == [order[0]] + order[1..];
    } else if order != [] {
      assert order == [order[0]] + order[1..];
    }
  }

  lemma DropSlotKeeps(s: SubState, pane: int)
    requires SubOk(s)
    ensures SubOk(DropSlot(s, pane)) && pane !in DropSlot(s, pane).slots
  {
    if pane in s.slots {
      RemovePaneKeeps(s.slotOrder, pane);
    }
  }

  lemma PaneClosedKeeps(s: SubState, pane: int)
    requires SubOk(s)
    ensures SubOk(PaneClosed(s, pane)) && pane in PaneClosed(s, pane).closedPanes
  {
    if pane in s.slots {
      RemovePaneKeeps(s.slotOrder, pane);
    }
  }

  lemma EnqueueKeeps(s: SubState, m: Msg)
    requires SubOk(s)
    ensures SubOk(Enqueue(s, m))
  {
    SizeAppend(s.fifo, m);
  }

  lemma OfferKeeps(s: SubState, pane: int, key: bool, rows: Option<Rows>, hdr: string)
    requires SubOk(s)
    ensures SubOk(Offer(s, pane, key, rows, hdr))
  {
    hide Size, NoRepeats, OfferRows, OfferRaw;
  }

  lemma AddSlotKeeps(s: SubState, pane: int)
    requires SubOk(s)
    ensures SubOk(AddSlot(s, pane).0)
  {
    hide Size;
  }

  lemma ActivateKeeps(s: SubState, pane: int)
    requires SubOk(s)
    ensures SubOk(Activate(s, pane))
  {
    hide Size, NoRepeats;
  }

  lemma ReplyKeeps(s: SubState, pane: int, m: Msg)
    requires SubOk(s)
    ensures SubOk(ReplyAndActivate(s, pane, m))
  {
    hide Activate, SubOk;
    ActivateKeeps(s, pane);
    EnqueueKeeps(Activate(s, pane), m);
  }

  lemma TakeKeeps(s: SubState)
    requires SubOk(s)
    ensures SubOk(Take(s).0)
  {
    hide Scan, HasPending, Drained, Assemble;
  }

  /** With the rotation in order, take finds the frame it has seen is pending: an
      idle writer really has nothing to write. */
  lemma IdleMeansNothing(s: SubState)
    requires SubOk(s)
    ensures Take(s).1 == Idle <==>
      && !s.dead && !s.torn && !(s.failed && !s.finalized) && s.head.None? && !s.finalized
      && s.fifo == [] && !HasPending(s.slots) && !s.closed
    ensures Take(s).1 == Idle ==> Take(s).0 == s
  {
    hide Scan;
    if HasPending(s.slots) {
      PendingIsTaken(s.slots, s.slotOrder, s.slotNext);
    }
  }
}
