/**
Exactly when a watch reply comes before the frames it announces
(hub/watch.go:217-268, hub/call.go:227-243).

The section that queues the reply also activates the slot, whether or not the reply
could be queued. So there are two ways a frame can come with no reply: a Sub that is
no longer open when the section runs, and one whose queue the reply overflows.
*/
module ReplyPlacement {
  import opened Wrappers
  import opened FrameSlots
  import opened Subs
  import opened SubStream

  /** In y, a later state of x, every frame of the pane written since x stands behind the
      reply m: behind every message accepted by then, and m, the next. */
  predicate RepliedFirst(x: Sys, pane: int, m: Msg, y: Sys) {
    forall i :: |x.log| <= i < |y.log| && IsFrameOf(y.log[i], pane) ==>
      |Events(y.log[..i])| > |x.accepted| && Events(y.log[..i])[|x.accepted|] == m
  }

  predicate IsFrameOf(e: Entry, pane: int) {
    e.Frame? && e.pane == pane
  }

  ghost predicate AlwaysRepliedFirst(x: Sys, pane: int, m: Msg) {
    forall es :: IsRun(After(x, Reply(pane, m)), es) ==> RepliedFirst(x, pane, m, Last(After(x, Reply(pane, m)), es))
  }

  predicate IsAccepted(s: SubState, m: Msg) {
    IsOpen(s) && Fits(s, m) && m != ""
  }

  /** A writer that would write a frame if it got to one. */
  predicate IsLive(x: Sys) {
    x.pc != Exited && !x.st.dead && !x.st.torn && !x.st.failed && !x.st.finalized
  }

  /** The pane's slot holds a frame, or one can still be offered to it. */
  predicate HasFrame(x: Sys, pane: int) {
    pane in x.st.slots && (x.st.slots[pane].full || IsOpen(x.st))
  }

  // ── with a reply ─────────────────────────────────────────────────────────

  lemma AcceptedReplyIsFirst(x: Sys, pane: int, m: Msg)
    requires Inv(x) && IsAccepted(x.st, m)
    ensures AlwaysRepliedFirst(x, pane, m)
  {
    hide Inv, After, IsRun, Last, Events;
    var x1 := After(x, Reply(pane, m));
    forall es | IsRun(x1, es) ensures RepliedFirst(x, pane, m, Last(x1, es)) {
      ReplyBeforeFrames(x, pane, m, es);
      var y := Last(x1, es);
      forall i | |x.log| <= i < |y.log| && y.log[i].Frame?
        ensures |Events(y.log[..i])| > |x.accepted| && Events(y.log[..i])[|x.accepted|] == m
      {
        assert Events(y.log[..i]) <= y.accepted;
      }
    }
  }

  // ── without ──────────────────────────────────────────────────────────────

  /** This run accepts no message, activates the pane's slot nowhere, and ends in a frame
      of the pane. */
  ghost predicate ReachesFrame(x: Sys, pane: int, es: seq<Step>) {
    && IsRun(x, es) && NeverActivates(es, pane)
    && var y := Last(x, es);
       y.accepted == x.accepted && |y.log| > |x.log| && IsFrameOf(y.log[|y.log| - 1], pane)
  }

  lemma OneStepMore(x: Sys, pane: int, e: Step, es: seq<Step>)
    requires Enabled(x, e) && ReachesFrame(After(x, e), pane, es) && NeverActivates([e], pane)
    requires After(x, e).accepted == x.accepted && |After(x, e).log| >= |x.log|
    ensures ReachesFrame(x, pane, [e] + es)
  {
    hide After;
    assert ([e] + es)[1..] == es;
    assert NeverActivates([e] + es, pane) by {
      assert !([e][0].ActivatePane? && [e][0].pane == pane) && !([e][0].Reply? && [e][0].pane == pane);
    }
  }

  /** Where the pane stands in the rotation. */
  function PlaceOf(order: seq<int>, pane: int): (k: nat)
    ensures k <= |order| && (k < |order| ==> order[k] == pane) && (pane in order ==> k < |order|)
  {
    if order == [] || order[0] == pane then 0 else 1 + PlaceOf(order[1..], pane)
  }

  /** How many turns of the rotation away the pane is. */
  function TurnsTo(s: SubState, pane: int): nat {
    var k := PlaceOf(s.slotOrder, pane);
    if k < |s.slotOrder| then Distance(s.slotNext, k, |s.slotOrder|) else 0
  }

  /** How far the writer is from the pane's next frame. */
  function ToGo(x: Sys, pane: int): nat {
    var left := |x.st.fifo| + (if x.st.head.Some? then 1 else 0) + TurnsTo(x.st, pane);
    4 * left + match x.pc
      case AtTake => 0
      case Parked => if x.wake then 1 else if x.owed > 0 then 2 else 3
      case _ => 1
  }

  /** The step that brings it nearer; a parked writer waits for a signal, and the
      activation of any other pane owes one. */
  function Nearer(x: Sys, pane: int): Step {
    match x.pc
    case Unborn => StartSub("")
    case AtTake => TakeNext
    case Parked => if x.wake then Wake else if x.owed > 0 then Signal else ActivatePane(pane + 1)
    case _ => WriteDone
  }

  predicate IsReady(x: Sys, pane: int) {
    IsLive(x) && pane in x.st.slots && IsPending(x.st.slots[pane])
  }

  predicate WroteFrame(x: Sys, y: Sys, pane: int) {
    |y.log| > |x.log| && IsFrameOf(y.log[|y.log| - 1], pane)
  }

  /** A take writes the head, a message, or a frame: the pane's own, or that of a pane
      before it in the rotation, which has then had its turn. */
  lemma TakeIsNearer(x: Sys, pane: int)
    requires Inv(x) && IsReady(x, pane) && x.pc == AtTake
    ensures var y := After(x, TakeNext);
      && y.accepted == x.accepted && |y.log| >= |x.log|
      && (WroteFrame(x, y, pane) || (IsReady(y, pane) && ToGo(y, pane) < ToGo(x, pane)))
  {
    hide SubOk, HeadOk, StreamOk, TornOk, NoLostWakeup, Scan, NoRepeats, PlaceOf, Distance;
    RotationOk(x.st);
    assert IsPending(x.st.slots[pane]) && HasPending(x.st.slots);
    if x.st.head.None? && x.st.fifo == [] {
      FrameIsNearer(x.st, pane);
    }
  }

  lemma FrameIsNearer(s: SubState, pane: int)
    requires OrderOk(s.slots, s.slotOrder) && pane in s.slots && IsPending(s.slots[pane])
    ensures s.slotOrder != []
    ensures var (s', r) := TakeFrame(s);
      && r.Write? && r.e.Frame? && s' == s.(slots := s'.slots, slotNext := s'.slotNext)
      && (r.e.pane == pane ||
          (pane in s'.slots && s'.slots[pane] == s.slots[pane] && TurnsTo(s', pane) < TurnsTo(s, pane)))
  {
    var k, n := PlaceOf(s.slotOrder, pane), |s.slotOrder|;
    assert pane in s.slotOrder;
    ScanFinds(s.slots, s.slotOrder, s.slotNext, n, k);
  }

  lemma RotationOk(s: SubState)
    requires SubOk(s)
    ensures OrderOk(s.slots, s.slotOrder)
  {}

  lemma OthersAreNearer(x: Sys, pane: int)
    requires Inv(x) && IsReady(x, pane) && x.pc != AtTake
    ensures var e := Nearer(x, pane);
      && Enabled(x, e) && NeverActivates([e], pane)
      && var y := After(x, e);
         y.accepted == x.accepted && y.log == x.log && IsReady(y, pane) && ToGo(y, pane) < ToGo(x, pane)
  {
    hide SubOk, StreamOk, TornOk, NoLostWakeup, TurnsTo;
    SameRotation(x.st, Activate(x.st, pane + 1), pane);
    SameRotation(x.st, Start(x.st, ""), pane);
  }

  lemma SameRotation(s: SubState, t: SubState, pane: int)
    requires t.slotOrder == s.slotOrder && t.slotNext == s.slotNext
    ensures TurnsTo(t, pane) == TurnsTo(s, pane)
  {}

  /** A live writer with a pending frame of a pane can write it without another message
      being accepted. */
  lemma {:induction false} FrameIsNear(x: Sys, pane: int)
    requires Inv(x) && IsReady(x, pane)
    ensures exists es :: ReachesFrame(x, pane, es)
    decreases ToGo(x, pane)
  {
    hide Inv, ReachesFrame, After, IsReady, ToGo;
    var e := Nearer(x, pane);
    if x.pc == AtTake {
      TakeIsNearer(x, pane);
    } else {
      OthersAreNearer(x, pane);
    }
    var y := After(x, e);
    if WroteFrame(x, y, pane) {
      FrameNow(x, pane, e);
    } else {
      InvKept(x, e);
      FrameIsNear(y, pane);
      var es :| ReachesFrame(y, pane, es);
      OneStepMore(x, pane, e, es);
    }
  }

  lemma FrameNow(x: Sys, pane: int, e: Step)
    requires Enabled(x, e) && NeverActivates([e], pane)
    requires After(x, e).accepted == x.accepted && WroteFrame(x, After(x, e), pane)
    ensures ReachesFrame(x, pane, [e])
  {
    hide After;
    assert [e][1..] == [];
    assert IsRun(After(x, e), []) && Last(After(x, e), []) == After(x, e);
  }

  /** A reply that is not accepted leaves the slot active and the queue as it was. */
  lemma UnacceptedActivates(x: Sys, pane: int, m: Msg)
    requires !IsAccepted(x.st, m)
    ensures var x1 := After(x, Reply(pane, m));
      && x1.st == Activate(x.st, pane) && x1.log == x.log && x1.accepted == x.accepted && x1.pc == x.pc
  {}

  /** So a frame of the pane can come with no reply, by no activation but the one the
      reply's own section made: the Sub was open, and the reply would have overflowed
      its queue. The kill that is owed for it comes too late. */
  lemma OverflowedReplyIsOvertaken(x: Sys, pane: int, m: Msg)
    requires Inv(x) && IsLive(x) && pane in x.st.slots
    requires IsOpen(x.st) && !IsAccepted(x.st, m)
    ensures exists es :: ReachesFrame(After(x, Reply(pane, m)), pane, es)
  {
    hide Inv, After, ReachesFrame;
    var x1 := After(x, Reply(pane, m));
    UnacceptedActivates(x, pane, m);
    InvKept(x, Reply(pane, m));
    if x1.st.slots[pane].full {
      FrameIsNear(x1, pane);
    } else {
      var e := SubStream.Step.OfferTo(pane, false, Some(map[]), "");
      OfferFills(x1, pane);
      InvKept(x1, e);
      FrameIsNear(After(x1, e), pane);
      var es :| ReachesFrame(After(x1, e), pane, es);
      OneStepMore(x1, pane, e, es);
    }
  }

  lemma OfferFills(x: Sys, pane: int)
    requires Inv(x) && IsLive(x) && IsOpen(x.st) && pane in x.st.slots && x.st.slots[pane].active
    ensures var y := After(x, SubStream.Step.OfferTo(pane, false, Some(map[]), ""));
      y.accepted == x.accepted && y.log == x.log && IsReady(y, pane)
  {
    hide StreamOk, HeadOk, TornOk, NoLostWakeup, Size, OrderOk;
  }

  /** Or the Sub was closed already: nothing is queued, but the slot goes active and its
      frame is written before the writer stops. */
  lemma ClosedReplyIsOvertaken(x: Sys, pane: int, m: Msg)
    requires Inv(x) && IsLive(x) && pane in x.st.slots && x.st.slots[pane].full
    requires x.st.closed
    ensures exists es :: ReachesFrame(After(x, Reply(pane, m)), pane, es)
  {
    hide Inv, After, ReachesFrame;
    UnacceptedActivates(x, pane, m);
    InvKept(x, Reply(pane, m));
    FrameIsNear(After(x, Reply(pane, m)), pane);
  }

  lemma FrameIsNoReply(x: Sys, pane: int, m: Msg, x1: Sys, es: seq<Step>)
    requires Inv(x1) && ReachesFrame(x1, pane, es) && x1.log == x.log && x1.accepted == x.accepted
    ensures !RepliedFirst(x, pane, m, Last(x1, es))
  {
    hide Inv, After, IsRun, Last, Events;
    var y := Last(x1, es);
    var i := |y.log| - 1;
    InvOverRuns(x1, es);
    InvEvents(y);
    EventsPrefix(y.log, i);
  }

  // ── the exact condition ──────────────────────────────────────────────────

  /** For a live writer and a slot with a frame, the reply comes before every later frame
      of its pane in every run if and only if it was accepted: the Sub open, and room
      for it. */
  lemma RepliedFirstExactly(x: Sys, pane: int, m: Msg)
    requires Inv(x) && IsLive(x) && HasFrame(x, pane)
    ensures AlwaysRepliedFirst(x, pane, m) <==> IsOpen(x.st) && Fits(x.st, m) && m != ""
  {
    hide Inv, After, ReachesFrame, RepliedFirst;
    if IsAccepted(x.st, m) {
      AcceptedReplyIsFirst(x, pane, m);
    } else {
      var x1 := After(x, Reply(pane, m));
      if IsOpen(x.st) {
        OverflowedReplyIsOvertaken(x, pane, m);
      } else {
        ClosedReplyIsOvertaken(x, pane, m);
      }
      var es :| ReachesFrame(x1, pane, es);
      UnacceptedActivates(x, pane, m);
      InvKept(x, Reply(pane, m));
      FrameIsNoReply(x, pane, m, x1, es);
      ReachedByRun(x1, pane, es);
    }
  }

  lemma ReachedByRun(x: Sys, pane: int, es: seq<Step>)
    requires ReachesFrame(x, pane, es)
    ensures IsRun(x, es)
  {}

  // ── from the creation of the slot ────────────────────────────────────────

  /** As a caller sees it: from the moment a pane's slot is created, or is inactive, until
      its watch is answered, and from then on, no frame of the pane is written that
      does not stand behind the reply. */
  lemma WatchIsAnsweredFirst(x: Sys, before: seq<Step>, pane: int, m: Msg, after: seq<Step>)
    requires Inv(x) && IsMuted(x.st, pane) && IsRun(x, before) && NeverActivates(before, pane)
    requires IsAccepted(Last(x, before).st, m)
    requires IsRun(After(Last(x, before), Reply(pane, m)), after)
    ensures var y := Last(x, before);
      var z := Last(After(y, Reply(pane, m)), after);
      && |x.log| <= |y.log| <= |z.log|
      && forall i :: |x.log| <= i < |z.log| && z.log[i].Frame? && z.log[i].pane == pane ==>
           i >= |y.log| && |Events(z.log[..i])| > |y.accepted| && Events(z.log[..i])[|y.accepted|] == m
  {
    hide Inv, After, IsRun, Last, Events, IsMuted, NeverActivates;
    var y := Last(x, before);
    MutedUntilActivated(x, before, pane, |x.log|);
    InvOverRuns(x, before);
    AcceptedReplyIsFirst(y, pane, m);
    ReplyBeforeFrames(y, pane, m, after);
    var z := Last(After(y, Reply(pane, m)), after);
    assert forall i :: |x.log| <= i < |y.log| ==> z.log[i] == y.log[i] && !(y.log[i].Frame? && y.log[i].pane == pane);
  }
}
