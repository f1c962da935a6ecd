/**
Every watched pane gets its turn, over the runs of `SubStream` (hub/watch.go:85-106,
hub/sub.go:262-330): once as many frames have been written as there are watches, one of
them is the pending pane's, whatever is offered meanwhile.
*/
module FrameTurns {
  import opened FrameSlots
  import opened Subs
  import opened ReplyPlacement
  import SubStream

  type Sys = SubStream.Sys
  type Event = SubStream.Step

  /** The Sub's watches stay the ones they are. */
  predicate KeepsWatches(es: seq<Event>) {
    forall i :: 0 <= i < |es| ==>
      !es[i].RemoveSlot? && !es[i].ClosePane? && !es[i].AddSlotFor? && !es[i].FinalizeSub?
  }

  function Frames(log: seq<Entry>): nat {
    if log == [] then 0 else (if log[0].Frame? then 1 else 0) + Frames(log[1..])
  }

  predicate IsPendingAt(s: SubState, pane: int) {
    pane in s.slots && IsPending(s.slots[pane])
  }

  /** The rotation as it was, and the pane still pending. */
  predicate SameTurn(s: SubState, s': SubState, pane: int) {
    s'.slotOrder == s.slotOrder && s'.slotNext == s.slotNext && IsPendingAt(s', pane)
  }

  lemma SectionsKeepTurn(s: SubState, e: Event, pane: int)
    requires IsPendingAt(s, pane)
    ensures e.OfferTo? ==> SameTurn(s, Offer(s, e.pane, e.key, e.rows, e.hdr), pane)
    ensures e.ActivatePane? || e.Reply? ==> SameTurn(s, Activate(s, e.pane), pane)
  {}

  lemma OthersKeepTurn(x: Sys, e: Event, pane: int)
    requires IsPendingAt(x.st, pane) && SubStream.Enabled(x, e) && KeepsWatches([e]) && !e.TakeNext?
    ensures SameTurn(x.st, SubStream.After(x, e).st, pane) && SubStream.After(x, e).log == x.log
  {
    hide Take, Offer, Activate;
    assert [e][0] == e;
    SectionsKeepTurn(x.st, e, pane);
  }

  /** A take writes no frame, and the rotation stands; or the pane's; or another pane's, and
      the pane's turn has come nearer. */
  lemma TakeTurns(s: SubState, pane: int)
    requires SubOk(s) && IsPendingAt(s, pane)
    ensures var (s', r) := Take(s);
      if r.Write? && r.e.Frame?
      then r.e.pane == pane || (IsPendingAt(s', pane) && TurnsTo(s', pane) < TurnsTo(s, pane))
      else SameTurn(s, s', pane)
  {
    hide Scan, TurnsTo, Size, NoRepeats;
    FrameIsNearer(s, pane);
    assert HasPending(s.slots);
  }

  lemma TurnsSame(s: SubState, s': SubState, pane: int)
    requires SameTurn(s, s', pane)
    ensures TurnsTo(s', pane) == TurnsTo(s, pane)
  {}

  lemma StepTurns(x: Sys, e: Event, pane: int)
    requires SubStream.Inv(x) && IsPendingAt(x.st, pane) && SubStream.Enabled(x, e) && KeepsWatches([e])
    ensures var x' := SubStream.After(x, e);
      && x.log <= x'.log && |x'.log| <= |x.log| + 1
      && if |x'.log| > |x.log| && x'.log[|x.log|].Frame?
         then x'.log[|x.log|].pane == pane || (IsPendingAt(x'.st, pane) && TurnsTo(x'.st, pane) < TurnsTo(x.st, pane))
         else IsPendingAt(x'.st, pane) && TurnsTo(x'.st, pane) == TurnsTo(x.st, pane)
  {
    hide SubStream.After, Take, SubOk, SubStream.HeadOk, SubStream.StreamOk, SubStream.TornOk, SubStream.NoLostWakeup,
      TurnsTo, IsPendingAt;
    SubStream.LogKept(x, e);
    if e.TakeNext? {
      TakeTurns(x.st, pane);
      TakeDoes(x);
    } else {
      OthersKeepTurn(x, e, pane);
    }
    if SameTurn(x.st, SubStream.After(x, e).st, pane) {
      TurnsSame(x.st, SubStream.After(x, e).st, pane);
    }
  }

  lemma TakeDoes(x: Sys)
    requires SubStream.Enabled(x, SubStream.TakeNext)
    ensures var x' := SubStream.After(x, SubStream.TakeNext);
      && x'.st == Take(x.st).0
      && x'.log == if Take(x.st).1.Write? then x.log + [Take(x.st).1.e] else x.log
  {
    hide Take;
  }

  /** In every run that keeps the watches, once as many frames have been written as there are
      turns to the pane's, one of them is the pane's. */
  lemma {:induction false} PaneGetsItsTurn(x: Sys, es: seq<Event>, pane: int)
    requires SubStream.Inv(x) && IsPendingAt(x.st, pane) && SubStream.IsRun(x, es) && KeepsWatches(es)
    requires x.log <= SubStream.Last(x, es).log
    requires Frames(SubStream.Last(x, es).log[|x.log|..]) >= TurnsTo(x.st, pane)
    ensures exists i :: |x.log| <= i < |SubStream.Last(x, es).log| && IsFrameOf(SubStream.Last(x, es).log[i], pane)
    decreases |es|
  {
    hide SubStream.After, SubStream.Inv, TurnsTo, IsPendingAt;
    var y := SubStream.Last(x, es);
    assert es == [] ==> y.log[|x.log|..] == [];
    TurnsAhead(x, pane);
    if es != [] {
      var e, x1 := es[0], SubStream.After(x, es[0]);
      assert KeepsWatches([e]) && KeepsWatches(es[1..]);
      StepTurns(x, e, pane);
      SubStream.InvKept(x, e);
      LogGrows(x1, es[1..]);
      if |x1.log| > |x.log| {
        var w := x1.log[|x.log|];
        assert y.log[|x.log|] == w;
        assert y.log[|x.log|..] == [w] + y.log[|x1.log|..];
        if !IsFrameOf(w, pane) {
          PaneGetsItsTurn(x1, es[1..], pane);
        }
      } else {
        PaneGetsItsTurn(x1, es[1..], pane);
      }
    }
  }

  lemma {:induction false} LogGrows(x: Sys, es: seq<Event>)
    requires SubStream.IsRun(x, es)
    ensures x.log <= SubStream.Last(x, es).log
    decreases |es|
  {
    hide SubStream.After, Take;
    if es != [] {
      SubStream.LogKept(x, es[0]);
      LogGrows(SubStream.After(x, es[0]), es[1..]);
    }
  }

  /** There is a turn to take, and never more than there are watches. */
  lemma TurnsAhead(x: Sys, pane: int)
    requires SubStream.Inv(x) && IsPendingAt(x.st, pane)
    ensures 1 <= TurnsTo(x.st, pane) <= |x.st.slotOrder|
  {
    hide SubStream.HeadOk, SubStream.StreamOk, SubStream.TornOk, SubStream.NoLostWakeup, Size;
    assert pane in x.st.slotOrder;
  }

  /** The rotation of `FrameSlots` is the Sub's: a take of a frame turns it so, and an offer
      puts the new slot where the old one was. */
  lemma RotationIsTheSubs(s: SubState, pane: int, sl: Slot)
    requires SubOk(s) && s.slotOrder != []
    ensures var r := Rotation(s.slots, s.slotNext);
      && Rotate(r, s.slotOrder, TakeOne) == Rotation(TakeFrame(s).0.slots, TakeFrame(s).0.slotNext)
      && var r' := Rotate(r, s.slotOrder, RotationEvent.OfferTo(pane, sl));
         r' == if pane in s.slots then Rotation(s.slots[pane := sl], s.slotNext) else r
  {
    hide Scan, Size, NoRepeats;
  }
}
