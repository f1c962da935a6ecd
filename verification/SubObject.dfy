/**
The Sub as an object: the fields under s.mu, and one method per critical section,
proved against `Subs`. A method that is followed by a signal to the writer says so
in its result.
*/
module SubObjects {
  import opened Wrappers
  import opened FrameSlots
  import opened Subs

  class Sub {
    var head: Option<Msg>
    var fifo: seq<Msg>
    var bytes: int
    var started: bool
    var closed: bool
    var finalized: bool
    var finals: seq<Msg>
    var failed: bool
    var torn: bool
    var dead: bool
    var slots: Slots
    var slotOrder: seq<int>
    var slotNext: nat
    var closedPanes: set<int>

    ghost function State(): SubState
      reads this
    {
      SubState(head, fifo, bytes, started, closed, finalized, finals, failed, torn, dead,
               slots, slotOrder, slotNext, closedPanes)
    }

    ghost predicate Valid()
      reads this
    {
      SubOk(State())
    }

    /** newSub, registered with a hub that is not finalized yet. */
    constructor ()
      ensures State() == NEW_SUB && Valid()
    {
      head, fifo, bytes := None, [], 0;
      started, closed, finalized, finals := false, false, false, [];
      failed, torn, dead := false, false, false;
      slots, slotOrder, slotNext, closedPanes := map[], [], 0, {};
    }

    /** Session, once Finalize has run. */
    constructor Late(finals: seq<Msg>)
      ensures State() == LateSub(finals) && Valid()
    {
      head, fifo, bytes := None, [], 0;
      started, closed, finalized, this.finals := false, false, true, finals;
      failed, torn, dead := false, false, false;
      slots, slotOrder, slotNext, closedPanes := map[], [], 0, {};
    }

    /** Start's section; the writer is started if it answers true. */
    method StartSection(head: Msg) returns (start: bool)
      requires Valid()
      modifies this
      ensures State() == Start(old(State()), head) && Valid()
      ensures start == (!old(started) && !old(dead))
    {
      if started || dead {
        return false;
      }
      started := true;
      if |head| > 0 {
        this.head := Some(head);
      }
      return true;
    }

    /** enqueue: whether the message fit, and whether to signal. */
    method EnqueueSection(m: Msg) returns (fit: bool, signal: bool)
      requires Valid()
      modifies this
      ensures State() == Enqueue(old(State()), m) && Valid()
      ensures fit == !Overflows(old(State()), m)
      ensures signal == (IsOpen(old(State())) && fit)
    {
      EnqueueKeeps(State(), m);
      if closed || finalized || dead {
        return true, false;
      }
      if |fifo| + 1 > FIFO_MAX_MSGS || bytes + |m| > FIFO_MAX_BYTES {
        return false, false;
      }
      fifo := fifo + [m];
      bytes := bytes + |m|;
      return true, true;
    }

    /** finalize's section. */
    method FinalizeSection(finals: seq<Msg>) returns (signal: bool)
      requires Valid()
      modifies this
      ensures State() == Finalize(old(State()), finals) && Valid()
      ensures signal == (!old(dead) && !old(finalized))
    {
      if dead || finalized {
        return false;
      }
      finalized := true;
      fifo, bytes := [], 0;
      DropSlots();
      this.finals := finals;
      return true;
    }

    method DropSlots()
      modifies this
      ensures State() == old(State()).(slots := map[], slotOrder := [], slotNext := 0)
    {
      slots, slotOrder, slotNext := map[], [], 0;
    }

    /** kill's section; only the first one goes on to signal a started writer. */
    method KillSection() returns (signal: bool)
      requires Valid()
      modifies this
      ensures State() == Kill(old(State())) && Valid()
      ensures signal == (!old(dead) && started)
    {
      if dead {
        return false;
      }
      dead := true;
      return started;
    }

    /** Close's section: kill a Sub that was never started, signal one that was. */
    method CloseSection() returns (kill: bool, signal: bool)
      requires Valid()
      modifies this
      ensures State() == Close(old(State())) && Valid()
      ensures (kill || signal) == (!old(closed) && !old(dead))
      ensures kill ==> !started
      ensures signal ==> started
    {
      if closed || dead {
        return false, false;
      }
      closed := true;
      return !started, started;
    }

    /** Offer: never blocks, never fails; the slot is the back-pressure. */
    method OfferSection(pane: int, key: bool, rows: Option<Rows>, hdr: string) returns (signal: bool)
      requires Valid()
      modifies this
      ensures State() == Offer(old(State()), pane, key, rows, hdr) && Valid()
      ensures !signal ==> State() == old(State())
    {
      OfferKeeps(State(), pane, key, rows, hdr);
      if dead || finalized || closed || pane in closedPanes {
        return false;
      }
      if pane !in slots {
        return false;
      }
      var sl := slots[pane];
      if rows.None? {
        sl := sl.(raw := Some(hdr), full := true);
        slots := slots[pane := sl];
        return true;
      }
      sl := sl.(raw := None);
      if key {
        sl := sl.(rows := map[], key := true);
      }
      sl := sl.(rows := sl.rows + rows.value, hdr := hdr, full := true);
      slots := slots[pane := sl];
      assert key ==> map[] + rows.value == rows.value;
      return true;
    }

    method AddSlotSection(pane: int) returns (ok: bool)
      requires Valid()
      modifies this
      ensures (State(), ok) == AddSlot(old(State()), pane) && Valid()
    {
      AddSlotKeeps(State(), pane);
      if dead || finalized || closed || pane in closedPanes {
        return false;
      }
      if pane !in slots {
        slots := slots[pane := EMPTY_SLOT];
        slotOrder := slotOrder + [pane];
      }
      return true;
    }

    /** replyAndActivate's section; over means the caller kills the Sub instead of
        signalling. */
    method ReplyAndActivateSection(pane: int, m: Msg) returns (over: bool)
      requires Valid()
      modifies this
      ensures State() == ReplyAndActivate(old(State()), pane, m) && Valid()
      ensures over == (m != "" && Overflows(Activate(old(State()), pane), m))
    {
      hide Size, SubOk;
      ReplyKeeps(State(), pane, m);
      if pane in slots {
        slots := slots[pane := slots[pane].(active := true)];
      }
      over := false;
      if |m| > 0 && !closed && !finalized && !dead {
        if |fifo| + 1 > FIFO_MAX_MSGS || bytes + |m| > FIFO_MAX_BYTES {
          over := true;
        } else {
          fifo := fifo + [m];
          bytes := bytes + |m|;
        }
      }
    }

    /** dropSlotLocked: the loop finds the pane's place in the rotation. */
    method DropSlotLocked(pane: int)
      requires Valid()
      modifies this
      ensures State() == DropSlot(old(State()), pane) && Valid()
    {
      DropSlotKeeps(State(), pane);
      if pane !in slots {
        return;
      }
      slots := slots - {pane};
      var i := 0;
      while i < |slotOrder|
        invariant 0 <= i <= |slotOrder|
        invariant RemovePane(slotOrder, pane) == slotOrder[..i] + RemovePane(slotOrder[i..], pane)
      {
        if slotOrder[i] == pane {
          assert slotOrder[i..][1..] == slotOrder[i + 1..];
          slotOrder := slotOrder[..i] + slotOrder[i + 1..];
          return;
        }
        assert slotOrder[i..][1..] == slotOrder[i + 1..];
        assert slotOrder[..i] + ([slotOrder[i]] + RemovePane(slotOrder[i + 1..], pane))
            == slotOrder[..i + 1] + RemovePane(slotOrder[i + 1..], pane);
        i := i + 1;
      }
    }

    /** paneClosed: remember the pane and drop its slot, in one acquisition. */
    method PaneClosedSection(pane: int)
      requires Valid()
      modifies this
      ensures State() == PaneClosed(old(State()), pane) && Valid()
    {
      ghost var before := State();
      PaneClosedKeeps(State(), pane);
      closedPanes := closedPanes + {pane};
      if pane !in slots {
        return;
      }
      slots := slots - {pane};
      slotOrder := RemovePane(slotOrder, pane);
    }

    /** takeSlotLocked's loop: one turn of the rotation per slot, at most. */
    static method ScanLoop(slots: Slots, order: seq<int>, start: nat) returns (next: nat, found: bool)
      requires order != []
      ensures (next, found) == Scan(slots, order, start, |order|)
    {
      hide IsPending;
      next := start;
      for i := 0 to |order|
        invariant Scan(slots, order, next, |order| - i) == Scan(slots, order, start, |order|)
      {
        next := next + 1;
        if next >= |order| {
          next := 0;
        }
        if order[next] in slots && IsPending(slots[order[next]]) {
          return next, true;
        }
      }
      return next, false;
    }

    /** takeSlotLocked. */
    method TakeSlotLocked() returns (e: Option<Entry>)
      requires slotOrder != []
      modifies this
      ensures State() == TakeFrame(old(State())).0
      ensures e == match TakeFrame(old(State())).1
                   case Write(entry) => Some(entry)
                   case _ => None
    {
      hide Scan, Assemble, Drained;
      var next, found := ScanLoop(slots, slotOrder, slotNext);
      slotNext := next;
      if !found {
        return None;
      }
      var p := slotOrder[next];
      e := Some(Frame(p, Assemble(slots[p])));
      slots := slots[p := Drained(slots[p])];
    }

    /** hasSlotLocked. */
    method HasSlotLocked() returns (r: bool)
      requires Valid()
      ensures r == HasPending(slots)
    {
      var i := 0;
      while i < |slotOrder|
        invariant 0 <= i <= |slotOrder|
        invariant forall j :: 0 <= j < i ==> slotOrder[j] in slots && !IsPending(slots[slotOrder[j]])
      {
        InRotation(slots, slotOrder, i);
        if IsPending(slots[slotOrder[i]]) {
          SomePending(slots, slotOrder[i]);
          return true;
        }
        i := i + 1;
      }
      forall p | p in slots
        ensures !IsPending(slots[p])
      {
        assert p in slotOrder;
      }
      return false;
    }

    /** take: the next message, in priority order, or the order to stop, or nothing. */
    method TakeSection() returns (r: TakeResult)
      requires Valid()
      modifies this
      ensures (State(), r) == Take(old(State())) && Valid()
    {
      TakeKeeps(State());
      IdleMeansNothing(State());
      if dead || torn || (failed && !finalized) {
        return Stop;
      } else if head.Some? {
        r := Write(Head(head.value));
        head := None;
        return;
      } else if finalized && |finals| > 0 {
        var m := finals[0];
        finals := finals[1..];
        return if |m| == 0 then Stop else Write(Final(m));
      } else if finalized {
        return Stop;
      } else if |fifo| > 0 {
        r := Write(Event(fifo[0]));
        bytes := bytes - |fifo[0]|;
        fifo := fifo[1..];
        return;
      }
      var has := HasSlotLocked();
      if has {
        PendingIsTaken(slots, slotOrder, slotNext);
        var e := TakeSlotLocked();
        return if e.Some? then Write(e.value) else Idle;
      } else if closed {
        return Stop;
      }
      return Idle;
    }

    /** What the writer records of a failed write; wrote says bytes left. */
    method WriteFailedSection(wrote: bool)
      requires Valid()
      modifies this
      ensures State() == WriteFailed(old(State()), wrote) && Valid()
    {
      failed := true;
      torn := torn || wrote;
    }
  }
}
