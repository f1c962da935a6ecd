/**
Delivery to one (Sub, pane) as a step system: every Deliver call, every lane
object that ever exists for that key, their drainers, and Quiesce, in any
interleaving (hub/lane.go, hub/hub.go:300-340, hub/call.go:166-200).

Each critical section is one step. A drainer that found nothing to do may look
again, or find its idle timer fired, at any moment: its wake channel, its ctx and
the timer only say when. Other keys share hub.closing, the Sub's flags and the
quiescing goroutine with this one; their own steps change nothing here.
*/
module LaneProtocol {
  import opened Wrappers
  import opened Lanes

  /** Where a lane's drainer is. Unborn: the lane is not in the Sub's map yet, and
      perhaps never will be. Unstarted: it is, and its goroutine is about to start. */
  datatype Drainer =
    | Unborn
    | Unstarted
    | AtNext
    | Running(item: Item, answered: bool)
    | Waiting
    | Retiring
    | LeavingSub
    | LeavingHub
    | Exited

  /** One lane object. owner is the call that created it. */
  datatype LaneRec = LaneRec(st: LaneState, pc: Drainer, owner: nat)

  /** Where a Deliver call is. */
  datatype CallPC =
    | Looking
    | Creating
    | Installing(lane: nat)
    | Abandoning(lane: nat, fallback: Option<nat>)
    | Spawning(lane: nat)
    | Pushing(lane: nat)
    | Dropping(lane: nat)
    | Refused
    | Accepted

  /** One Deliver call; replies counts the invocations of its reply function. */
  datatype Call = Call(item: Item, pc: CallPC, tries: nat, replies: nat)

  /** Quiesce: not begun, past setting hub.closing, or working through the lanes it
      saw, with the items it still has to tell they are discarded. */
  datatype Quiescer = NotBegun | Closing | Sweeping(todo: set<nat>, telling: seq<Item>)

  /** How an item left the queue. */
  datatype Left = Started(item: Item) | Discarded(item: Item)

  datatype State = State(
    gone: bool,              // the Sub is closed, dead or finalized
    cur: Option<nat>,        // s.lanes[pane]
    hub: set<nat>,           // h.lanes
    lanes: seq<LaneRec>,
    calls: seq<Call>,
    quiescer: Quiescer,
    accepted: seq<Item>,     // history: items in the order push accepted them
    left: seq<Left>)         // history: items in the order they left their queue

  const INITIAL := State(false, None, {}, [], [], NotBegun, [], [])

  /** Deliver gives up after this many retired lanes. */
  const MAX_TRIES := 8

  predicate HubClosing(s: State) {
    s.quiescer != NotBegun
  }

  // ── steps ────────────────────────────────────────────────────────────────

  datatype Event =
    | NewCall(size: nat)
    | LookUp(c: nat)
    | AddLane(c: nat)
    | Install(c: nat)
    | Abandon(c: nat)
    | Spawn(c: nat)
    | PushItem(c: nat)
    | DropRetired(c: nat)
    | TakeNext(l: nat)
    | Timeout(l: nat)
    | EndRun(l: nat)
    | Wake(l: nat)
    | Idle(l: nat)
    | MarkRetired(l: nat)
    | LeaveSub(l: nat)
    | LeaveHub(l: nat)
    | SubGone
    | CloseLane(l: nat)
    | BeginQuiesce
    | Snapshot
    | QuiesceLane(l: nat)
    | TellDiscarded

  predicate CallAt(s: State, c: nat) {
    c < |s.calls|
  }

  predicate DrainerAt(s: State, l: nat) {
    l < |s.lanes|
  }

  /** When each step can happen. */
  predicate Enabled(s: State, e: Event) {
    match e
    case NewCall(_) => true
    case LookUp(c) => CallAt(s, c) && s.calls[c].pc == Looking
    case AddLane(c) => CallAt(s, c) && s.calls[c].pc == Creating
    case Install(c) => CallAt(s, c) && s.calls[c].pc.Installing? && s.calls[c].pc.lane < |s.lanes|
    case Abandon(c) => CallAt(s, c) && s.calls[c].pc.Abandoning?
    case Spawn(c) => CallAt(s, c) && s.calls[c].pc.Spawning? && s.calls[c].pc.lane < |s.lanes|
    case PushItem(c) => CallAt(s, c) && s.calls[c].pc.Pushing? && s.calls[c].pc.lane < |s.lanes|
    case DropRetired(c) => CallAt(s, c) && s.calls[c].pc.Dropping?
    case TakeNext(l) => DrainerAt(s, l) && s.lanes[l].pc == AtNext
    case Timeout(l) => DrainerAt(s, l) && s.lanes[l].pc.Running? && !s.lanes[l].pc.answered
      && s.lanes[l].pc.item.id < |s.calls|
    case EndRun(l) => DrainerAt(s, l) && s.lanes[l].pc.Running? && s.lanes[l].pc.item.id < |s.calls|
    case Wake(l) => DrainerAt(s, l) && s.lanes[l].pc == Waiting
    case Idle(l) => DrainerAt(s, l) && s.lanes[l].pc == Waiting
    case MarkRetired(l) => DrainerAt(s, l) && s.lanes[l].pc == Retiring
    case LeaveSub(l) => DrainerAt(s, l) && s.lanes[l].pc == LeavingSub
    case LeaveHub(l) => DrainerAt(s, l) && s.lanes[l].pc == LeavingHub
    case SubGone => true
    case CloseLane(l) => DrainerAt(s, l) && s.gone
    case BeginQuiesce => s.quiescer == NotBegun
    case Snapshot => s.quiescer == Closing
    case QuiesceLane(l) => DrainerAt(s, l) && s.quiescer.Sweeping? && l in s.quiescer.todo && s.quiescer.telling == []
    case TellDiscarded => s.quiescer.Sweeping? && s.quiescer.telling != [] && s.quiescer.telling[0].id < |s.calls|
  }

  function SetCall(s: State, c: nat, pc: CallPC): State
    requires CallAt(s, c)
  {
    s.(calls := s.calls[c := s.calls[c].(pc := pc)])
  }

  /** A call's reply function is invoked. */
  function Answer(s: State, c: nat): State
    requires CallAt(s, c)
  {
    s.(calls := s.calls[c := s.calls[c].(replies := s.calls[c].replies + 1)])
  }

  /** Deliver returns an error, and callOnLane answers with it. */
  function Refuse(s: State, c: nat): State
    requires CallAt(s, c)
  {
    Answer(SetCall(s, c, Refused), c)
  }

  function SetLane(s: State, l: nat, rec: LaneRec): State
    requires DrainerAt(s, l)
  {
    s.(lanes := s.lanes[l := rec])
  }

  function SetDrainer(s: State, l: nat, pc: Drainer): State
    requires DrainerAt(s, l)
  {
    SetLane(s, l, s.lanes[l].(pc := pc))
  }

  function AfterLookUp(s: State, c: nat): State
    requires CallAt(s, c)
  {
    if s.gone then Refuse(s, c)
    else if s.cur.Some? then SetCall(s, c, Pushing(s.cur.value))
    else SetCall(s, c, Creating)
  }

  function AfterAddLane(s: State, c: nat): State
    requires CallAt(s, c)
  {
    if HubClosing(s) then Refuse(s, c)
    else
      var l := |s.lanes|;
      SetCall(s, c, Installing(l)).(lanes := s.lanes + [LaneRec(EMPTY_LANE, Unborn, c)], hub := s.hub + {l})
  }

  function AfterInstall(s: State, c: nat, l: nat): State
    requires CallAt(s, c) && DrainerAt(s, l)
  {
    if s.gone then SetCall(s, c, Abandoning(l, None))
    else if s.cur.Some? then SetCall(s, c, Abandoning(l, s.cur))
    else SetDrainer(SetCall(s, c, Spawning(l)), l, Unstarted).(cur := Some(l))
  }

  function AfterAbandon(s: State, c: nat, l: nat, fallback: Option<nat>): State
    requires CallAt(s, c)
  {
    var s' := s.(hub := s.hub - {l});
    if fallback.None? then Refuse(s', c) else SetCall(s', c, Pushing(fallback.value))
  }

  function AfterPush(s: State, c: nat, l: nat): State
    requires CallAt(s, c) && DrainerAt(s, l)
  {
    var item := s.calls[c].item;
    var (st, r) := Push(s.lanes[l].st, item);
    match r
    case PushOK =>
      SetLane(SetCall(s, c, Accepted), l, s.lanes[l].(st := st)).(accepted := s.accepted + [item])
    case PushFull => Refuse(s, c)
    case PushRefused => Refuse(s, c)
    case PushGone => SetCall(s, c, Dropping(l))
  }

  function AfterDrop(s: State, c: nat, l: nat): State
    requires CallAt(s, c)
  {
    var s' := s.(cur := if s.cur == Some(l) then None else s.cur,
                 calls := s.calls[c := s.calls[c].(tries := s.calls[c].tries + 1)]);
    if s.calls[c].tries + 1 < MAX_TRIES then SetCall(s', c, Looking) else Refuse(s', c)
  }

  function AfterNext(s: State, l: nat): State
    requires DrainerAt(s, l)
  {
    var (st, r) := Next(s.lanes[l].st);
    match r
    case RunItem(item) =>
      SetLane(s, l, s.lanes[l].(st := st, pc := Running(item, false))).(left := s.left + [Started(item)])
    case Wait => SetDrainer(s, l, Waiting)
    case Stop => SetLane(s, l, s.lanes[l].(st := st, pc := Retiring))
  }

  function AfterIdle(s: State, l: nat): State
    requires DrainerAt(s, l)
  {
    var (st, out) := IdleOut(s.lanes[l].st);
    SetLane(s, l, s.lanes[l].(st := st, pc := if out then Retiring else AtNext))
  }

  function AllDiscarded(items: seq<Item>): seq<Left> {
    seq(|items|, i requires 0 <= i < |items| => Discarded(items[i]))
  }

  function AfterQuiesceLane(s: State, l: nat): State
    requires DrainerAt(s, l) && s.quiescer.Sweeping?
  {
    var (st, dropped) := Quiesce(s.lanes[l].st);
    SetLane(s, l, s.lanes[l].(st := st)).(
      quiescer := Sweeping(s.quiescer.todo - {l}, dropped),
      left := s.left + AllDiscarded(dropped))
  }

  function After(s: State, e: Event): State
    requires Enabled(s, e)
  {
    match e
    case NewCall(size) => s.(calls := s.calls + [Call(Item(|s.calls|, size), Looking, 0, 0)])
    case LookUp(c) => AfterLookUp(s, c)
    case AddLane(c) => AfterAddLane(s, c)
    case Install(c) => AfterInstall(s, c, s.calls[c].pc.lane)
    case Abandon(c) => AfterAbandon(s, c, s.calls[c].pc.lane, s.calls[c].pc.fallback)
    case Spawn(c) => SetDrainer(SetCall(s, c, Pushing(s.calls[c].pc.lane)), s.calls[c].pc.lane, AtNext)
    case PushItem(c) => AfterPush(s, c, s.calls[c].pc.lane)
    case DropRetired(c) => AfterDrop(s, c, s.calls[c].pc.lane)
    case TakeNext(l) => AfterNext(s, l)
    case Timeout(l) =>
      var item := s.lanes[l].pc.item;
      Answer(SetDrainer(s, l, Running(item, true)), item.id)
    case EndRun(l) =>
      var s' := SetDrainer(s, l, AtNext);
      if s.lanes[l].pc.answered then s' else Answer(s', s.lanes[l].pc.item.id)
    case Wake(l) => SetDrainer(s, l, AtNext)
    case Idle(l) => AfterIdle(s, l)
    case MarkRetired(l) => SetLane(s, l, s.lanes[l].(st := s.lanes[l].st.(retired := true), pc := LeavingSub))
    case LeaveSub(l) => SetDrainer(s, l, LeavingHub).(cur := if s.cur == Some(l) then None else s.cur)
    case LeaveHub(l) => SetDrainer(s, l, Exited).(hub := s.hub - {l})
    case SubGone => s.(gone := true)
    case CloseLane(l) => SetLane(s, l, s.lanes[l].(st := s.lanes[l].st.(closed := true)))
    case BeginQuiesce => s.(quiescer := Closing)
    case Snapshot => s.(quiescer := Sweeping(s.hub, []))
    case QuiesceLane(l) => AfterQuiesceLane(s, l)
    case TellDiscarded =>
      var item := s.quiescer.telling[0];
      Answer(s.(quiescer := s.quiescer.(telling := s.quiescer.telling[1..])), item.id)
  }

  /** A run from s: every event enabled when it happens. */
  predicate IsRun(s: State, es: seq<Event>)
    decreases |es|
  {
    es == [] || (Enabled(s, es[0]) && IsRun(After(s, es[0]), es[1..]))
  }

  function Final(s: State, es: seq<Event>): State
    requires IsRun(s, es)
    decreases |es|
  {
    if es == [] then s else Final(After(s, es[0]), es[1..])
  }
}
