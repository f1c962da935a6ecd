/**
What the steps of `SubStream` are: each is the object's own critical section, and what its
caller owes once it has let go of s.mu (hub/sub.go:181-422, hub/watch.go:168-301). And what
no step can do any more once a Sub is closed or killed.
*/
module SubSteps {
  import opened Wrappers
  import opened FrameSlots
  import opened Subs
  import opened SubStream

  /** Nothing but the state under s.mu, and what is owed, changes. */
  predicate OnlyOwes(x: Sys, x': Sys, st: SubState, owed: nat, owedKills: nat) {
    x' == x.(st := st, owed := owed, owedKills := owedKills)
  }

  function One(b: bool): nat {
    if b then 1 else 0
  }

  /** A message that is queued owes the signal; one that finds the queue full, the kill. */
  lemma SendStep(x: Sys, m: Msg)
    ensures var y := After(x, Send(m));
      var queued := IsOpen(x.st) && Fits(x.st, m);
      && y.st == Enqueue(x.st, m) && y.accepted == (if queued then x.accepted + [m] else x.accepted)
      && OnlyOwes(x, y.(accepted := x.accepted), y.st, x.owed + One(queued), x.owedKills + One(Overflows(x.st, m)))
  {
    hide Take;
  }

  /** Start, the first time and of a Sub that was not killed, sets the writer going, with the
      aggregate as its head unless that is empty. */
  lemma StartStep(x: Sys, head: Msg)
    ensures var first := !x.st.started && !x.st.dead;
      After(x, StartSub(head)) ==
        if !first then x
        else x.(st := Start(x.st, head), pc := AtTake, aggregate := if |head| > 0 then Some(head) else x.aggregate)
  {
    hide Take;
  }

  /** Finalize, the first time, owes the signal. */
  lemma FinalizeStep(x: Sys, finals: seq<Msg>)
    ensures var y := After(x, FinalizeSub(finals));
      var first := !x.st.dead && !x.st.finalized;
      && y.st == Finalize(x.st, finals)
      && OnlyOwes(x, y.(given := x.given, mark := x.mark), y.st, x.owed + One(first), x.owedKills)
      && (first ==> y.given == finals && y.mark == Some(|x.log|))
  {
    hide Take;
  }

  /** A close, the first time, owes the signal to the writer there is, and the kill where
      there is none; a kill, the first time, owes the signal. */
  lemma EndSteps(x: Sys)
    ensures var first := !x.st.closed && !x.st.dead;
      OnlyOwes(x, After(x, CloseSub), Close(x.st), x.owed + One(first && x.st.started),
               x.owedKills + One(first && !x.st.started))
    ensures OnlyOwes(x, After(x, CallKill), x.st, x.owed, x.owedKills + 1)
    ensures x.owedKills > 0 ==>
      OnlyOwes(x, After(x, RunKill), Kill(x.st), x.owed + One(!x.st.dead && x.st.started), x.owedKills - 1)
  {
    hide Take;
  }

  /** The sections that serve watches. An offer that lands signals at once. */
  lemma WatchSteps(x: Sys, pane: int, key: bool, rows: Option<Rows>, hdr: string, m: Msg)
    ensures var landed := IsOpen(x.st) && pane !in x.st.closedPanes && pane in x.st.slots;
      After(x, SubStream.Step.OfferTo(pane, key, rows, hdr)) ==
        x.(st := Offer(x.st, pane, key, rows, hdr), wake := x.wake || landed)
    ensures OnlyOwes(x, After(x, AddSlotFor(pane)), AddSlot(x.st, pane).0, x.owed, x.owedKills)
    ensures OnlyOwes(x, After(x, ActivatePane(pane)), Activate(x.st, pane), x.owed + 1, x.owedKills)
    ensures OnlyOwes(x, After(x, RemoveSlot(pane)), DropSlot(x.st, pane), x.owed, x.owedKills)
    ensures OnlyOwes(x, After(x, ClosePane(pane)), PaneClosed(x.st, pane), x.owed, x.owedKills)
    ensures var y := After(x, Reply(pane, m));
      var over := m != "" && Overflows(x.st, m);
      && y.st == ReplyAndActivate(x.st, pane, m)
      && y.accepted == x.accepted + (if m != "" && IsOpen(x.st) && Fits(x.st, m) then [m] else [])
      && OnlyOwes(x, y.(accepted := x.accepted), y.st, x.owed + One(!over), x.owedKills + One(over))
  {
    hide Take, Offer, AddSlot, DropSlot, PaneClosed;
  }

  /** The writer takes only when it is done writing, writes what it took, parks only when
      there was nothing, and wakes only for a token, which it uses up. */
  lemma WriterSteps(x: Sys, wrote: bool)
    ensures Enabled(x, TakeNext) <==> x.pc == AtTake
    ensures Enabled(x, WriteDone) <==> x.pc.Writing?
    ensures Enabled(x, WriteFail(wrote)) <==> x.pc.Writing?
    ensures Enabled(x, SubStream.Step.Wake) <==> x.pc == Parked && x.wake
    ensures Enabled(x, Signal) <==> x.owed >= 1
    ensures Enabled(x, RunKill) <==> x.owedKills >= 1
    ensures x.pc == AtTake ==>
      After(x, TakeNext) ==
        match Take(x.st).1
        case Write(e) => x.(st := Take(x.st).0, pc := Writing(e), log := x.log + [e])
        case Stop => x.(st := Take(x.st).0, pc := Exited)
        case Idle => x.(st := Take(x.st).0, pc := Parked)
    ensures x.pc.Writing? ==> After(x, WriteDone) == x.(pc := AtTake)
    ensures x.pc.Writing? ==>
      var y := After(x, WriteFail(wrote));
      && y == x.(st := WriteFailed(x.st, wrote), pc := AtTake, tornAt := y.tornAt)
      && y.tornAt == (if wrote && !x.st.torn then Some(|x.log|) else x.tornAt)
    ensures x.pc == Parked && x.wake ==> After(x, SubStream.Step.Wake) == x.(pc := AtTake, wake := false)
    ensures x.owed >= 1 ==> After(x, Signal) == x.(owed := x.owed - 1, wake := true)
  {
    hide Take;
  }

  // ── what is over for good ────────────────────────────────────────────────

  lemma DeadStep(x: Sys, e: SubStream.Step)
    requires Enabled(x, e) && x.st.dead
    ensures After(x, e).st.dead && After(x, e).log == x.log && After(x, e).accepted == x.accepted
  {
    hide Offer, AddSlot, Activate, DropSlot, PaneClosed;
    SlotStepsKeepHead(x.st, e);
  }

  /** A Sub that was killed writes nothing more and accepts nothing more, in any run. */
  lemma {:induction false} NothingAfterKill(x: Sys, es: seq<SubStream.Step>)
    requires IsRun(x, es) && x.st.dead
    ensures Last(x, es).st.dead && Last(x, es).log == x.log && Last(x, es).accepted == x.accepted
    decreases |es|
  {
    hide After;
    if es != [] {
      DeadStep(x, es[0]);
      NothingAfterKill(After(x, es[0]), es[1..]);
    }
  }

  lemma ClosedStep(x: Sys, e: SubStream.Step)
    requires Enabled(x, e) && x.st.closed
    ensures After(x, e).st.closed && After(x, e).accepted == x.accepted
  {
    hide Offer, AddSlot, Activate, DropSlot, PaneClosed;
    SlotStepsKeepHead(x.st, e);
  }

  /** One that was closed accepts nothing more; what it had accepted it goes on writing. */
  lemma {:induction false} NothingAcceptedAfterClose(x: Sys, es: seq<SubStream.Step>)
    requires IsRun(x, es) && x.st.closed
    ensures Last(x, es).st.closed && Last(x, es).accepted == x.accepted
    decreases |es|
  {
    hide After;
    if es != [] {
      ClosedStep(x, es[0]);
      NothingAcceptedAfterClose(After(x, es[0]), es[1..]);
    }
  }
}
