/**
A subscriber as a step system (hub/sub.go, hub/watch.go, hub/hub.go:365-471): one
writer, any number of producers, every critical section one step, and the signal
to the writer a step of its own that a producer owes once it has let go of s.mu.

A kill runs in two steps too: whoever calls for it owes it until it takes s.mu.
The sink's answer to a write is any of: written, refused cleanly, torn.
*/
module SubStream {
  import opened Wrappers
  import opened FrameSlots
  import opened Subs

  datatype Writer = Unborn | AtTake | Parked | Writing(e: Entry) | Exited

  datatype Sys = Sys(
    st: SubState,
    wake: bool,              // the 1-slot wake channel
    owed: nat,               // producers past s.mu that have not signalled yet
    owedKills: nat,          // calls of kill that have not taken s.mu yet
    pc: Writer,
    log: seq<Entry>,         // what Sink.Write was handed, in order
    aggregate: Option<Msg>,  // history: the head Start installed
    accepted: seq<Msg>,      // history: the FIFO messages accepted, in order
    given: seq<Msg>,         // history: the finals
    mark: Option<nat>,       // history: |log| when finalize ran
    tornAt: Option<nat>)     // history: |log| when a write was torn

  /** A Sub registered before Finalize. */
  const REGISTERED := Sys(NEW_SUB, false, 0, 0, Unborn, [], None, [], [], None, None)

  /** A Sub whose Session was opened after Finalize. */
  function OpenedLate(finals: seq<Msg>): Sys {
    REGISTERED.(st := LateSub(finals), given := finals, mark := Some(0))
  }

  datatype Step =
    | StartSub(head: Msg)
    | Send(m: Msg)
    | FinalizeSub(finals: seq<Msg>)
    | CloseSub
    | CallKill
    | RunKill
    | OfferTo(pane: int, key: bool, rows: Option<Rows>, hdr: string)
    | AddSlotFor(pane: int)
    | ActivatePane(pane: int)
    | Reply(pane: int, m: Msg)
    | RemoveSlot(pane: int)
    | ClosePane(pane: int)
    | Signal
    | TakeNext
    | WriteDone
    | WriteFail(wrote: bool)
    | Wake

  predicate Enabled(x: Sys, e: Step) {
    match e
    case RunKill => x.owedKills > 0
    case Signal => x.owed > 0
    case TakeNext => x.pc == AtTake
    case WriteDone => x.pc.Writing?
    case WriteFail(_) => x.pc.Writing?
    case Wake => x.pc == Parked && x.wake
    case _ => true
  }

  function Owe(x: Sys): Sys {
    x.(owed := x.owed + 1)
  }

  function OweKill(x: Sys): Sys {
    x.(owedKills := x.owedKills + 1)
  }

  function AfterStart(x: Sys, head: Msg): Sys {
    if x.st.started || x.st.dead then x
    else x.(st := Start(x.st, head), pc := AtTake, aggregate := if |head| > 0 then Some(head) else x.aggregate)
  }

  /** Queue m, or owe the kill its overflow calls for. */
  function AfterSend(x: Sys, m: Msg): Sys {
    if !IsOpen(x.st) then x
    else if Fits(x.st, m) then Owe(x.(st := Append(x.st, m), accepted := x.accepted + [m]))
    else OweKill(x)
  }

  function AfterFinalize(x: Sys, finals: seq<Msg>): Sys {
    if x.st.dead || x.st.finalized then x
    else Owe(x.(st := Finalize(x.st, finals), given := finals, mark := Some(|x.log|)))
  }

  function AfterClose(x: Sys): Sys {
    if x.st.closed || x.st.dead then x
    else
      var x' := x.(st := Close(x.st));
      if x.st.started then Owe(x') else OweKill(x')
  }

  function AfterKill(x: Sys): Sys
    requires x.owedKills > 0
  {
    var x' := x.(owedKills := x.owedKills - 1, st := Kill(x.st));
    if !x.st.dead && x.st.started then Owe(x') else x'
  }

  predicate Lands(s: SubState, pane: int) {
    IsOpen(s) && pane !in s.closedPanes && pane in s.slots
  }

  function AfterOffer(x: Sys, pane: int, key: bool, rows: Option<Rows>, hdr: string): Sys {
    x.(st := Offer(x.st, pane, key, rows, hdr), wake := x.wake || Lands(x.st, pane))
  }

  /** The reply and the slot in one section; then the signal, or the kill. */
  function AfterReply(x: Sys, pane: int, m: Msg): Sys {
    var x' := x.(st := Activate(x.st, pane));
    if m == "" || !IsOpen(x.st) then Owe(x') else AfterSend(x', m)
  }

  ghost function AfterTake(x: Sys): Sys {
    var (st, r) := Take(x.st);
    match r
    case Write(e) => x.(st := st, pc := Writing(e), log := x.log + [e])
    case Stop => x.(st := st, pc := Exited)
    case Idle => x.(st := st, pc := Parked)
  }

  ghost function After(x: Sys, e: Step): Sys
    requires Enabled(x, e)
  {
    match e
    case StartSub(head) => AfterStart(x, head)
    case Send(m) => AfterSend(x, m)
    case FinalizeSub(finals) => AfterFinalize(x, finals)
    case CloseSub => AfterClose(x)
    case CallKill => OweKill(x)
    case RunKill => AfterKill(x)
    case OfferTo(p, key, rows, hdr) => AfterOffer(x, p, key, rows, hdr)
    case AddSlotFor(p) => x.(st := AddSlot(x.st, p).0)
    case ActivatePane(p) => Owe(x.(st := Activate(x.st, p)))
    case Reply(p, m) => AfterReply(x, p, m)
    case RemoveSlot(p) => x.(st := DropSlot(x.st, p))
    case ClosePane(p) => x.(st := PaneClosed(x.st, p))
    case Signal => x.(owed := x.owed - 1, wake := true)
    case TakeNext => AfterTake(x)
    case WriteDone => x.(pc := AtTake)
    case WriteFail(wrote) =>
      x.(pc := AtTake, st := WriteFailed(x.st, wrote),
         tornAt := if wrote && !x.st.torn then Some(|x.log|) else x.tornAt)
    case Wake => x.(pc := AtTake, wake := false)
  }

  ghost predicate IsRun(x: Sys, es: seq<Step>)
    decreases |es|
  {
    es == [] || (Enabled(x, es[0]) && IsRun(After(x, es[0]), es[1..]))
  }

  ghost function Last(x: Sys, es: seq<Step>): Sys
    requires IsRun(x, es)
    decreases |es|
  {
    if es == [] then x else Last(After(x, es[0]), es[1..])
  }

  // ── what the log says ────────────────────────────────────────────────────

  /** The FIFO messages written, in order. */
  function Events(log: seq<Entry>): seq<Msg> {
    if log == [] then []
    else
      var e := log[|log| - 1];
      Events(log[..|log| - 1]) + (if e.Event? then [e.m] else [])
  }

  function Finals(log: seq<Entry>): seq<Msg> {
    if log == [] then []
    else
      var e := log[|log| - 1];
      Finals(log[..|log| - 1]) + (if e.Final? then [e.m] else [])
  }

  lemma LogGrows(log: seq<Entry>, e: Entry)
    ensures Events(log + [e]) == Events(log) + (if e.Event? then [e.m] else [])
    ensures Finals(log + [e]) == Finals(log) + (if e.Final? then [e.m] else [])
  {
    assert (log + [e])[..|log|] == log;
  }

  /** The aggregate is first, finals are last. */
  predicate Sections(log: seq<Entry>) {
    && (forall i :: 0 <= i < |log| && log[i].Head? ==> i == 0)
    && (forall i, j :: 0 <= i < j < |log| && log[i].Final? ==> log[j].Final?)
  }

  /** The aggregate waits only while nothing has been written, and is then the first
      thing that is. */
  predicate HeadOk(x: Sys) {
    && (x.st.started <==> x.pc != Unborn)
    && (x.pc == Unborn ==> x.log == [] && x.aggregate.None?)
    && (x.st.head.Some? ==> x.log == [] && x.aggregate == x.st.head)
    && (x.aggregate.Some? && x.st.head.None? ==> x.log != [] && x.log[0] == Head(x.aggregate.value))
    && (x.aggregate.None? ==> forall i :: 0 <= i < |x.log| ==> !x.log[i].Head?)
  }

  /** Before finalize every accepted message is written or queued, in order; after
      it, those written are a prefix, and only the aggregate and finals are still
      taken. */
  predicate StreamOk(x: Sys) {
    && Sections(x.log)
    && (!x.st.finalized ==>
          && x.accepted == Events(x.log) + x.st.fifo
          && x.given == [] && Finals(x.log) == [] && x.mark.None?
          && forall i :: 0 <= i < |x.log| ==> !x.log[i].Final?)
    && (x.st.finalized ==>
          && Events(x.log) <= x.accepted
          && Finals(x.log) <= x.given
          && (x.pc != Exited ==> x.given == Finals(x.log) + x.st.finals)
          && x.mark.Some? && x.mark.value <= |x.log|
          && forall i :: x.mark.value <= i < |x.log| ==> x.log[i].Head? || x.log[i].Final?)
  }

  /** Nothing follows a torn write. */
  predicate TornOk(x: Sys) {
    && (x.st.torn <==> x.tornAt.Some?)
    && (x.tornAt.Some? ==> x.tornAt.value == |x.log| && x.log != [] && !x.pc.Writing?)
    && (x.pc.Writing? ==> x.log != [] && x.log[|x.log| - 1] == x.pc.e)
  }

  /** A parked writer that has something to do will be woken. */
  ghost predicate NoLostWakeup(x: Sys) {
    x.pc == Parked && Take(x.st).1 != Idle ==>
      x.wake || x.owed > 0 || (x.owedKills > 0 && !x.st.dead)
  }

  ghost predicate Inv(x: Sys) {
    SubOk(x.st) && HeadOk(x) && StreamOk(x) && TornOk(x) && NoLostWakeup(x)
  }

  // ── preservation ─────────────────────────────────────────────────────────

  lemma OkKept(x: Sys, e: Step)
    requires Enabled(x, e) && SubOk(x.st)
    ensures SubOk(After(x, e).st)
  {
    hide SubOk, Take, Offer, AddSlot, Activate, DropSlot, PaneClosed, ReplyAndActivate, AfterReply;
    if e.OfferTo? || e.AddSlotFor? || e.ActivatePane? || e.Reply? || e.RemoveSlot? || e.ClosePane? {
      FrameStepsKeepOk(x, e);
    } else if e.Send? {
      EnqueueKeeps(x.st, e.m);
    } else if e.FinalizeSub? {
      FinalizeKeeps(x.st, e.finals);
    } else if e.TakeNext? {
      TakeKeeps(x.st);
    } else {
      PlainStepsKeepOk(x, e);
    }
  }

  lemma PlainStepsKeepOk(x: Sys, e: Step)
    requires Enabled(x, e) && SubOk(x.st)
    requires e.StartSub? || e.CloseSub? || e.CallKill? || e.RunKill? || e.Signal? || e.WriteDone?
      || e.WriteFail? || e.Wake?
    ensures SubOk(After(x, e).st)
  {
    hide SubOk;
    match e
    case StartSub(head) => PlainKeeps(x.st, Start(x.st, head));
    case CloseSub => PlainKeeps(x.st, Close(x.st));
    case RunKill => PlainKeeps(x.st, Kill(x.st));
    case WriteFail(wrote) => PlainKeeps(x.st, WriteFailed(x.st, wrote));
    case _ =>
  }

  lemma FrameStepsKeepOk(x: Sys, e: Step)
    requires Enabled(x, e) && SubOk(x.st)
    requires e.OfferTo? || e.AddSlotFor? || e.ActivatePane? || e.Reply? || e.RemoveSlot? || e.ClosePane?
    ensures SubOk(After(x, e).st)
  {
    hide SubOk, Offer, AddSlot, Activate, DropSlot, PaneClosed, ReplyAndActivate, AfterReply;
    match e
    case OfferTo(p, key, rows, hdr) => OfferKeeps(x.st, p, key, rows, hdr);
    case AddSlotFor(p) => AddSlotKeeps(x.st, p);
    case ActivatePane(p) => ActivateKeeps(x.st, p);
    case Reply(p, m) =>
      ReplySection(x, p, m);
      ReplyKeeps(x.st, p, m);
    case RemoveSlot(p) => DropSlotKeeps(x.st, p);
    case ClosePane(p) => PaneClosedKeeps(x.st, p);
  }

  lemma ReplySection(x: Sys, p: int, m: Msg)
    ensures AfterReply(x, p, m).st == ReplyAndActivate(x.st, p, m)
  {}

  lemma PlainKeeps(s: SubState, s': SubState)
    requires SubOk(s)
    requires s' == s.(head := s'.head, started := s'.started, closed := s'.closed, failed := s'.failed,
      torn := s'.torn, dead := s'.dead)
    ensures SubOk(s')
  {}

  lemma FinalizeKeeps(s: SubState, finals: seq<Msg>)
    requires SubOk(s)
    ensures SubOk(Finalize(s, finals))
  {}

  /** A take hands over the head, then the finals once finalized, then the FIFO's
      front, then frames; what it removes is what it hands over. */
  lemma TakeMoves(s: SubState)
    requires SubOk(s)
    ensures var (s', r) := Take(s);
      && s'.started == s.started && s'.finalized == s.finalized && s'.torn == s.torn
      && (r.Write? ==> !s.dead && !s.torn)
      && match r
         case Write(Head(m)) => s.head == Some(m) && s' == s.(head := None)
         case Write(Final(m)) => s.head.None? && s.finalized && s.finals == [m] + s'.finals && s'.head.None?
         case Write(Event(m)) => s.head.None? && !s.finalized && s.fifo == [m] + s'.fifo && s'.head.None?
           && s'.finals == s.finals
         case Write(Frame(_, _)) => s.head.None? && !s.finalized && s.fifo == [] && s'.fifo == []
           && s'.head.None? && s'.finals == s.finals
         case Stop => s'.head == s.head && s'.fifo == s.fifo && (!s.finalized ==> s' == s)
         case Idle => s' == s
  {
    hide SubOk, Scan, HasPending;
    IdleMeansNothing(s);
  }

  lemma HeadKept(x: Sys, e: Step)
    requires Enabled(x, e) && SubOk(x.st) && HeadOk(x)
    ensures HeadOk(After(x, e))
  {
    hide SubOk, Take;
    match e
    case TakeNext =>
      TakeMoves(x.st);
    case _ => OthersKeepHead(x, e);
  }

  /** The writer's own steps, and Start. */
  predicate IsWriterStep(e: Step) {
    e.TakeNext? || e.StartSub? || e.WriteDone? || e.WriteFail? || e.Wake?
  }

  /** Nothing of the writer's moves. */
  predicate SameWriter(x: Sys, x': Sys) {
    && x'.pc == x.pc && x'.log == x.log && x'.aggregate == x.aggregate && x'.tornAt == x.tornAt
    && x'.st.started == x.st.started && x'.st.head == x.st.head && x'.st.torn == x.st.torn
  }

  lemma ProducersKeepWriter(x: Sys, e: Step)
    requires Enabled(x, e) && !IsWriterStep(e)
    ensures SameWriter(x, After(x, e))
  {
    hide Append, Offer, AddSlot, Activate, DropSlot, PaneClosed;
    SlotStepsKeepHead(x.st, e);
  }

  lemma OthersKeepHead(x: Sys, e: Step)
    requires Enabled(x, e) && HeadOk(x) && !e.TakeNext?
    ensures HeadOk(After(x, e))
  {
    hide After;
    if IsWriterStep(e) {
      WriterKeepsHead(x, e);
    } else {
      ProducersKeepWriter(x, e);
    }
  }

  lemma WriterKeepsHead(x: Sys, e: Step)
    requires Enabled(x, e) && HeadOk(x) && IsWriterStep(e) && !e.TakeNext?
    ensures HeadOk(After(x, e))
  {}

  lemma SlotStepsKeepHead(s: SubState, e: Step)
    ensures e.OfferTo? ==> SameButSlots(s, Offer(s, e.pane, e.key, e.rows, e.hdr))
    ensures e.AddSlotFor? ==> SameButSlots(s, AddSlot(s, e.pane).0)
    ensures e.ActivatePane? || e.Reply? ==> SameButSlots(s, Activate(s, e.pane))
    ensures e.RemoveSlot? ==> SameButSlots(s, DropSlot(s, e.pane))
    ensures e.ClosePane? ==> SameButSlots(s, PaneClosed(s, e.pane))
    ensures e.Send? || e.Reply? ==> forall t :: SameButSlots(s, t) ==>
      Append(t, e.m) == t.(fifo := s.fifo + [e.m], bytes := s.bytes + |e.m|)
  {}

  /** All but the frame side. */
  predicate SameButSlots(s: SubState, t: SubState) {
    t == s.(slots := t.slots, slotOrder := t.slotOrder, slotNext := t.slotNext, closedPanes := t.closedPanes)
  }

  lemma StreamKept(x: Sys, e: Step)
    requires Enabled(x, e) && SubOk(x.st) && HeadOk(x) && StreamOk(x)
    ensures StreamOk(After(x, e))
  {
    match e
    case TakeNext => TakeKeepsStream(x);
    case FinalizeSub(_) =>
      hide *;
      FinalizeKeepsStream(x, e.finals);
    case _ => OthersKeepStream(x, e);
  }


  lemma FinalizeKeepsStream(x: Sys, finals: seq<Msg>)
    requires StreamOk(x)
    ensures StreamOk(AfterFinalize(x, finals))
  {
    if !x.st.dead && !x.st.finalized {
      assert [] + finals == finals;
    }
  }

  lemma OthersKeepStream(x: Sys, e: Step)
    requires Enabled(x, e) && HeadOk(x) && StreamOk(x) && !e.TakeNext? && !e.FinalizeSub?
    ensures StreamOk(After(x, e))
  {
    hide Append, Offer, AddSlot, Activate, DropSlot, PaneClosed, Events, Finals, Sections;
    SlotStepsKeepHead(x.st, e);
    var x' := After(x, e);
    assert SameStream(x, x') || (!x.st.finalized && AcceptedOne(x, x')) by {
      StepsOnStream(x, e);
    }
    if AcceptedOne(x, x') {
      var m :| x'.accepted == x.accepted + [m] && x'.st.fifo == x.st.fifo + [m];
      assert Events(x.log) + (x.st.fifo + [m]) == Events(x.log) + x.st.fifo + [m];
    }
  }

  predicate SameLog(x: Sys, x': Sys) {
    && x'.log == x.log && x'.given == x.given && x'.mark == x.mark
    && x'.st.finalized == x.st.finalized && x'.st.finals == x.st.finals
    && (x'.pc == Exited <==> x.pc == Exited)
  }

  predicate SameStream(x: Sys, x': Sys) {
    SameLog(x, x') && x'.accepted == x.accepted && x'.st.fifo == x.st.fifo
  }

  ghost predicate AcceptedOne(x: Sys, x': Sys) {
    SameLog(x, x') && exists m :: x'.accepted == x.accepted + [m] && x'.st.fifo == x.st.fifo + [m]
  }

  lemma StepsOnStream(x: Sys, e: Step)
    requires Enabled(x, e) && !e.TakeNext? && !e.FinalizeSub? && (e.StartSub? ==> x.pc != Exited || x.st.started)
    ensures SameStream(x, After(x, e)) || (!x.st.finalized && AcceptedOne(x, After(x, e)))
  {
    hide Append, Offer, AddSlot, Activate, DropSlot, PaneClosed;
    SlotStepsKeepHead(x.st, e);
    var x' := After(x, e);
    if e.Send? || e.Reply? {
      assert x'.accepted == x.accepted + [e.m] ==> x'.st.fifo == x.st.fifo + [e.m];
    }
  }

  lemma TakeKeepsStream(x: Sys)
    requires x.pc == AtTake && SubOk(x.st) && HeadOk(x) && StreamOk(x)
    ensures StreamOk(AfterTake(x))
  {
    hide SubOk, Take, Events, Finals, Sections;
    TakeMoves(x.st);
    var r := Take(x.st).1;
    var x' := AfterTake(x);
    if r.Write? {
      LogGrows(x.log, r.e);
      WrittenKeepsStream(x, x', r.e);
    } else if r.Stop? && x.st.finalized {
      assert x'.given == x.given;
    }
  }

  lemma WrittenKeepsStream(x: Sys, x': Sys, e: Entry)
    requires HeadOk(x) && StreamOk(x)
    requires x'.log == x.log + [e] && x'.accepted == x.accepted && x'.given == x.given && x'.mark == x.mark
    requires x'.st.finalized == x.st.finalized && x'.pc != Exited && x.pc != Exited
    requires Events(x'.log) == Events(x.log) + (if e.Event? then [e.m] else [])
    requires Finals(x'.log) == Finals(x.log) + (if e.Final? then [e.m] else [])
    requires match e
      case Head(m) => x.st.head == Some(m) && x'.st.fifo == x.st.fifo && x'.st.finals == x.st.finals
      case Final(m) => x.st.head.None? && x.st.finalized && x.st.finals == [m] + x'.st.finals
      case Event(m) => x.st.head.None? && !x.st.finalized && x.st.fifo == [m] + x'.st.fifo
      case Frame(_, _) => x.st.head.None? && !x.st.finalized && x'.st.fifo == x.st.fifo
    ensures StreamOk(x')
  {
    hide Events, Finals;
    if e.Final? {
      assert Finals(x.log) + ([e.m] + x'.st.finals) == Finals(x.log) + [e.m] + x'.st.finals;
    }
    if e.Event? {
      assert Events(x.log) + ([e.m] + x'.st.fifo) == Events(x.log) + [e.m] + x'.st.fifo;
    }
    assert Events(x.log) + [] == Events(x.log) && Finals(x.log) + [] == Finals(x.log);
  }

  lemma TornKept(x: Sys, e: Step)
    requires Enabled(x, e) && SubOk(x.st) && HeadOk(x) && TornOk(x)
    ensures TornOk(After(x, e))
  {
    hide After, SubOk;
    if IsWriterStep(e) {
      WriterKeepsTorn(x, e);
    } else {
      ProducersKeepWriter(x, e);
    }
  }

  lemma WriterKeepsTorn(x: Sys, e: Step)
    requires Enabled(x, e) && SubOk(x.st) && HeadOk(x) && TornOk(x) && IsWriterStep(e)
    ensures TornOk(After(x, e))
  {
    hide SubOk, Take;
    if e.TakeNext? {
      TakeMoves(x.st);
    }
  }

  // ── no lost wakeup ───────────────────────────────────────────────────────

  /** A take would not be idle. */
  ghost predicate HasWork(s: SubState) {
    Take(s).1 != Idle
  }

  /** The steps that give a parked writer something to do owe it a signal. */
  lemma WakeupKept(x: Sys, e: Step)
    requires Enabled(x, e) && SubOk(x.st) && HeadOk(x) && NoLostWakeup(x)
    ensures NoLostWakeup(After(x, e))
  {
    hide SubOk, Take;
    IdleMeansNothing(x.st);
    OkKept(x, e);
    IdleMeansNothing(After(x, e).st);
    match e
    case TakeNext =>
    case OfferTo(p, key, rows, hdr) => OfferWakes(x, p, key, rows, hdr);
    case AddSlotFor(p) => InactiveIsNoWork(x.st, p);
    case RemoveSlot(p) => DroppingIsNoWork(x.st, p);
    case ClosePane(p) => DroppingIsNoWork(x.st.(closedPanes := x.st.closedPanes + {p}), p);
    case _ => OthersWake(x, e);
  }

  lemma OfferWakes(x: Sys, p: int, key: bool, rows: Option<Rows>, hdr: string)
    requires NoLostWakeup(x)
    ensures NoLostWakeup(AfterOffer(x, p, key, rows, hdr))
  {
    hide Take;
    assert !Lands(x.st, p) ==> Offer(x.st, p, key, rows, hdr) == x.st;
  }

  lemma InactiveIsNoWork(s: SubState, p: int)
    ensures HasPending(AddSlot(s, p).0.slots) == HasPending(s.slots)
    ensures SameButSlots(s, AddSlot(s, p).0)
  {
    var t := AddSlot(s, p).0;
    if t != s {
      forall q | q in s.slots && IsPending(s.slots[q])
        ensures q in t.slots && IsPending(t.slots[q])
      {}
      forall q | q in t.slots && IsPending(t.slots[q])
        ensures q in s.slots && IsPending(s.slots[q])
      {}
    }
  }

  lemma DroppingIsNoWork(s: SubState, p: int)
    ensures HasPending(DropSlot(s, p).slots) ==> HasPending(s.slots)
    ensures SameButSlots(s, DropSlot(s, p))
  {
    var t := DropSlot(s, p);
    if HasPending(t.slots) {
      var q :| q in t.slots && IsPending(t.slots[q]);
      assert q in s.slots && s.slots[q] == t.slots[q];
    }
  }

  lemma OthersWake(x: Sys, e: Step)
    requires Enabled(x, e) && SubOk(x.st) && SubOk(After(x, e).st) && HeadOk(x) && NoLostWakeup(x)
    requires !e.TakeNext? && !e.OfferTo? && !e.AddSlotFor? && !e.RemoveSlot? && !e.ClosePane?
    ensures NoLostWakeup(After(x, e))
  {
    hide SubOk, Take, Activate, Append, HasPending;
    IdleMeansNothing(x.st);
    IdleMeansNothing(After(x, e).st);
    SlotStepsKeepHead(x.st, e);
  }

  // ── runs ─────────────────────────────────────────────────────────────────

  lemma InvKept(x: Sys, e: Step)
    requires Enabled(x, e) && Inv(x)
    ensures Inv(After(x, e))
  {
    hide After, SubOk, HeadOk, StreamOk, TornOk, NoLostWakeup;
    OkKept(x, e);
    HeadKept(x, e);
    StreamKept(x, e);
    TornKept(x, e);
    WakeupKept(x, e);
  }

  lemma {:induction false} InvOverRuns(x: Sys, es: seq<Step>)
    requires Inv(x) && IsRun(x, es)
    ensures Inv(Last(x, es))
    decreases |es|
  {
    hide After, Inv;
    if es != [] {
      InvKept(x, es[0]);
      InvOverRuns(After(x, es[0]), es[1..]);
    }
  }

  lemma StartsOk(finals: seq<Msg>)
    ensures Inv(REGISTERED) && Inv(OpenedLate(finals))
  {
    assert [] + finals == finals;
  }

  /** The stream a Sub hands to its sink, in every run: the aggregate first, then
      accepted messages in the order they were accepted with frames between, then
      finals in their order, and nothing but finals behind a final; nothing behind
      a torn write; and from finalize on only the aggregate and finals. A Session
      opened after Finalize has no middle at all. */
  lemma StreamShape(finals: seq<Msg>, late: bool, es: seq<Step>)
    requires IsRun(if late then OpenedLate(finals) else REGISTERED, es)
    ensures var x := Last(if late then OpenedLate(finals) else REGISTERED, es);
      && Sections(x.log)
      && (x.aggregate.Some? && x.log != [] ==> x.log[0] == Head(x.aggregate.value))
      && (x.aggregate.None? ==> forall i :: 0 <= i < |x.log| ==> !x.log[i].Head?)
      && Events(x.log) <= x.accepted
      && Finals(x.log) <= x.given
      && (x.tornAt.Some? ==> |x.log| == x.tornAt.value)
      && (x.mark.Some? ==> forall i :: x.mark.value <= i < |x.log| ==> x.log[i].Head? || x.log[i].Final?)
  {
    hide After, SubOk, Take;
    StartsOk(finals);
    InvOverRuns(if late then OpenedLate(finals) else REGISTERED, es);
  }

  /** finalize is not undone, and marks the log once. */
  lemma {:induction false} MarkStays(x: Sys, es: seq<Step>)
    requires Inv(x) && IsRun(x, es) && x.st.finalized
    ensures Last(x, es).st.finalized && Last(x, es).mark == x.mark && Last(x, es).given == x.given
    decreases |es|
  {
    hide After, Inv;
    if es != [] {
      InvKept(x, es[0]);
      FinalizedStays(x, es[0]);
      MarkStays(After(x, es[0]), es[1..]);
    }
  }

  lemma FinalizedStays(x: Sys, e: Step)
    requires Inv(x) && Enabled(x, e) && x.st.finalized
    ensures After(x, e).st.finalized && After(x, e).mark == x.mark && After(x, e).given == x.given
  {
    hide SubOk, HeadOk, StreamOk, TornOk, NoLostWakeup, Take;
    if e.TakeNext? {
      TakeMoves(x.st);
    } else if !e.FinalizeSub? {
      InvOk(x);
      StepsOnStream(x, e);
    }
  }

  lemma InvOk(x: Sys)
    requires Inv(x)
    ensures SubOk(x.st) && HeadOk(x) && StreamOk(x)
  {}

  /** Opened after Finalize: the aggregate and the finals are all there is. */
  lemma LateSessionHasNoMiddle(finals: seq<Msg>, es: seq<Step>)
    requires IsRun(OpenedLate(finals), es)
    ensures var x := Last(OpenedLate(finals), es);
      && (forall i :: 0 <= i < |x.log| ==> x.log[i].Head? || x.log[i].Final?)
      && Finals(x.log) <= finals
  {
    hide After, SubOk, Take, Inv;
    StartsOk(finals);
    MarkStays(OpenedLate(finals), es);
    StreamShape(finals, true, es);
  }

  /** No wakeup is lost, in any run: a parked writer with something to do has a
      token in its channel, or a producer that is about to put one there. */
  lemma WriterIsWoken(finals: seq<Msg>, late: bool, es: seq<Step>)
    requires IsRun(if late then OpenedLate(finals) else REGISTERED, es)
    ensures var x := Last(if late then OpenedLate(finals) else REGISTERED, es);
      x.pc == Parked && HasWork(x.st) ==> x.wake || x.owed > 0 || (x.owedKills > 0 && !x.st.dead)
  {
    hide After, SubOk, Take, HeadOk, StreamOk, TornOk;
    StartsOk(finals);
    InvOverRuns(if late then OpenedLate(finals) else REGISTERED, es);
  }

  /** The kill that is owed does signal: it is the first, and the writer runs. */
  lemma OwedKillSignals(x: Sys)
    requires Inv(x) && x.pc == Parked && x.owedKills > 0 && !x.st.dead
    ensures After(x, RunKill).owed == x.owed + 1
  {}

  // ── where frames stand ───────────────────────────────────────────────────

  /** The log only grows. */
  lemma LogKept(x: Sys, e: Step)
    requires Enabled(x, e)
    ensures x.log <= After(x, e).log
    ensures |After(x, e).log| <= |x.log| + 1
    ensures After(x, e).log != x.log ==>
      e.TakeNext? && Take(x.st).1.Write? && After(x, e).log == x.log + [Take(x.st).1.e]
    ensures x.accepted <= After(x, e).accepted
  {
    hide Take;
    if !IsWriterStep(e) {
      ProducersKeepWriter(x, e);
    }
  }

  /** A frame is taken only when every message accepted so far has been written. */
  lemma FrameIsLast(x: Sys)
    requires Inv(x) && Take(x.st).1.Write? && Take(x.st).1.e.Frame?
    ensures Events(x.log) == x.accepted
    ensures var p := Take(x.st).1.e.pane;
      p in x.st.slots && IsPending(x.st.slots[p]) && p !in x.st.closedPanes
  {
    hide Events, Scan;
    TakeMoves(x.st);
    assert Events(x.log) + [] == Events(x.log);
  }

  /** Every frame written after this moment stands behind every message accepted
      before it. */
  predicate FramesBehind(log: seq<Entry>, from: nat, n: nat) {
    forall i :: from <= i < |log| && log[i].Frame? ==> |Events(log[..i])| >= n
  }

  lemma {:induction false} FramesStayBehind(x: Sys, es: seq<Step>, from: nat, n: nat)
    requires Inv(x) && IsRun(x, es)
    requires from <= |x.log| && FramesBehind(x.log, from, n) && |x.accepted| >= n
    ensures x.log <= Last(x, es).log && FramesBehind(Last(x, es).log, from, n)
    decreases |es|
  {
    hide After, Inv, Take, Events;
    if es != [] {
      InvKept(x, es[0]);
      LogKept(x, es[0]);
      var x' := After(x, es[0]);
      if x'.log != x.log && Take(x.st).1.e.Frame? {
        FrameIsLast(x);
      }
      forall i | from <= i < |x'.log| && x'.log[i].Frame?
        ensures |Events(x'.log[..i])| >= n
      {
        if i < |x.log| {
          assert x'.log[..i] == x.log[..i];
        } else {
          assert x'.log[..i] == x.log;
        }
      }
      FramesStayBehind(x', es[1..], from, n);
    }
  }

  /** A watch that is answered while the Sub is open is answered before its first
      frame: after replyAndActivate, every frame written (of this pane or any other)
      stands behind the reply. Until then the slot was inactive, so no frame of it
      could be taken. */
  lemma ReplyBeforeFrames(x: Sys, pane: int, m: Msg, es: seq<Step>)
    requires Inv(x) && IsOpen(x.st) && Fits(x.st, m) && m != ""
    requires IsRun(After(x, Reply(pane, m)), es)
    ensures var y := Last(After(x, Reply(pane, m)), es);
      && x.log <= y.log
      && forall i :: |x.log| <= i < |y.log| && y.log[i].Frame? ==>
           |Events(y.log[..i])| > |x.accepted| && Events(y.log[..i]) <= y.accepted
           && y.accepted[|x.accepted|] == m
  {
    hide Take, Events, StreamOk, HeadOk, SubOk, TornOk, NoLostWakeup;
    var x1 := After(x, Reply(pane, m));
    InvKept(x, Reply(pane, m));
    assert x1.accepted == x.accepted + [m] && x1.log == x.log by {
      ReplyAccepts(x, pane, m);
    }
    FramesStayBehind(x1, es, |x.log|, |x.accepted| + 1);
    AcceptedGrows(x1, es);
    var y := Last(x1, es);
    InvOverRuns(x1, es);
    forall i | |x.log| <= i < |y.log| && y.log[i].Frame?
      ensures |Events(y.log[..i])| > |x.accepted| && Events(y.log[..i]) <= y.accepted
      ensures y.accepted[|x.accepted|] == m
    {
      EventsPrefix(y.log, i);
      InvEvents(y);
    }
  }

  lemma ReplyAccepts(x: Sys, pane: int, m: Msg)
    requires IsOpen(x.st) && Fits(x.st, m) && m != ""
    ensures After(x, Reply(pane, m)).accepted == x.accepted + [m]
    ensures After(x, Reply(pane, m)).log == x.log
  {}

  lemma InvEvents(x: Sys)
    requires Inv(x)
    ensures Events(x.log) <= x.accepted
  {
    hide Events;
  }

  lemma {:induction false} EventsPrefix(log: seq<Entry>, i: nat)
    requires i <= |log|
    ensures Events(log[..i]) <= Events(log)
  {
    if i < |log| {
      EventsPrefix(log[..|log| - 1], i);
      assert log[..|log| - 1][..i] == log[..i];
    } else {
      assert log[..i] == log;
    }
  }

  lemma {:induction false} AcceptedGrows(x: Sys, es: seq<Step>)
    requires IsRun(x, es)
    ensures x.accepted <= Last(x, es).accepted
    decreases |es|
  {
    hide After;
    if es != [] {
      LogKept(x, es[0]);
      AcceptedGrows(After(x, es[0]), es[1..]);
    }
  }

  /** What the writer cannot take a frame of: a pane with no slot or an inactive
      one. */
  predicate IsMuted(s: SubState, pane: int) {
    pane in s.slots ==> !s.slots[pane].active
  }

  lemma MutedIsNotTaken(s: SubState, pane: int)
    requires IsMuted(s, pane)
    ensures Take(s).1.Write? && Take(s).1.e.Frame? ==> Take(s).1.e.pane != pane
    ensures IsMuted(Take(s).0, pane)
  {
    hide Scan;
  }

  lemma SectionsKeepMuted(s: SubState, pane: int, e: Step)
    requires IsMuted(s, pane)
    ensures e.OfferTo? ==> IsMuted(Offer(s, e.pane, e.key, e.rows, e.hdr), pane)
    ensures e.AddSlotFor? ==> IsMuted(AddSlot(s, e.pane).0, pane)
    ensures (e.ActivatePane? || e.Reply?) && e.pane != pane ==> IsMuted(Activate(s, e.pane), pane)
    ensures e.RemoveSlot? ==> IsMuted(DropSlot(s, e.pane), pane)
    ensures e.ClosePane? ==> IsMuted(PaneClosed(s, e.pane), pane)
  {}

  /** Only activation unmutes a pane. */
  lemma MutedStays(x: Sys, e: Step, pane: int)
    requires Enabled(x, e) && IsMuted(x.st, pane)
    requires !(e.ActivatePane? && e.pane == pane) && !(e.Reply? && e.pane == pane)
    ensures IsMuted(After(x, e).st, pane)
  {
    hide Take, Offer, AddSlot, Activate, DropSlot, PaneClosed;
    MutedIsNotTaken(x.st, pane);
    SectionsKeepMuted(x.st, pane, e);
  }

  predicate NoFrameOf(log: seq<Entry>, from: nat, pane: int) {
    forall i :: from <= i < |log| ==> !(log[i].Frame? && log[i].pane == pane)
  }

  predicate NeverActivates(es: seq<Step>, pane: int) {
    forall i :: 0 <= i < |es| ==>
      !(es[i].ActivatePane? && es[i].pane == pane) && !(es[i].Reply? && es[i].pane == pane)
  }

  /** No frame of a pane is written while its slot is missing or inactive, whatever
      the framer offers. */
  lemma {:induction false} MutedUntilActivated(x: Sys, es: seq<Step>, pane: int, from: nat)
    requires IsRun(x, es) && IsMuted(x.st, pane) && NeverActivates(es, pane)
    requires from <= |x.log| && NoFrameOf(x.log, from, pane)
    ensures x.log <= Last(x, es).log && NoFrameOf(Last(x, es).log, from, pane) && IsMuted(Last(x, es).st, pane)
    decreases |es|
  {
    hide After, Take, IsMuted;
    if es != [] {
      assert !(es[0].ActivatePane? && es[0].pane == pane) && !(es[0].Reply? && es[0].pane == pane);
      MutedIsNotTaken(x.st, pane);
      MutedStays(x, es[0], pane);
      LogKept(x, es[0]);
      assert NeverActivates(es[1..], pane);
      MutedUntilActivated(After(x, es[0]), es[1..], pane, from);
    }
  }

  lemma ClosedStays(x: Sys, e: Step, pane: int)
    requires Inv(x) && Enabled(x, e) && pane in x.st.closedPanes
    ensures pane in After(x, e).st.closedPanes
  {
    hide Inv, Append, Offer, AddSlot, Activate, DropSlot, PaneClosed, Take;
    SlotStepsKeepClosed(x.st, e);
    TakeKeepsClosed(x.st);
  }

  lemma SlotStepsKeepClosed(s: SubState, e: Step)
    ensures e.OfferTo? ==> Offer(s, e.pane, e.key, e.rows, e.hdr).closedPanes == s.closedPanes
    ensures e.AddSlotFor? ==> AddSlot(s, e.pane).0.closedPanes == s.closedPanes
    ensures e.ActivatePane? || e.Reply? ==> Activate(s, e.pane).closedPanes == s.closedPanes
    ensures e.RemoveSlot? ==> DropSlot(s, e.pane).closedPanes == s.closedPanes
    ensures e.ClosePane? ==> s.closedPanes <= PaneClosed(s, e.pane).closedPanes
    ensures e.Send? || e.Reply? ==> forall t :: Append(t, e.m).closedPanes == t.closedPanes
  {}

  lemma TakeKeepsClosed(s: SubState)
    ensures Take(s).0.closedPanes == s.closedPanes
  {
    hide Scan;
  }

  /** After Hub.PaneClosed has reached this Sub, no frame of that pane is written,
      in any run; so none follows the pane_closed event published after it. */
  lemma {:induction false} NoFrameAfterPaneClosed(x: Sys, es: seq<Step>, pane: int, from: nat)
    requires Inv(x) && IsRun(x, es) && pane in x.st.closedPanes
    requires from <= |x.log| && NoFrameOf(x.log, from, pane)
    ensures x.log <= Last(x, es).log && NoFrameOf(Last(x, es).log, from, pane)
    decreases |es|
  {
    hide After, Take, Inv;
    if es != [] {
      if Take(x.st).1.Write? && Take(x.st).1.e.Frame? {
        FrameIsLast(x);
      }
      InvKept(x, es[0]);
      LogKept(x, es[0]);
      ClosedStays(x, es[0], pane);
      NoFrameAfterPaneClosed(After(x, es[0]), es[1..], pane, from);
    }
  }
}
