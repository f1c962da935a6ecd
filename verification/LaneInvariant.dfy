/**
The invariant of `LaneProtocol`: who may refer to which lane, and that one lane
at most is alive.
*/
module LaneInvariant {
  import opened Wrappers
  import opened Lanes
  import opened LaneProtocol

  predicate Published(s: State, l: nat) {
    l < |s.lanes| && s.lanes[l].pc != Unborn
  }

  /** The drainer has stopped for good. */
  predicate HasStopped(pc: Drainer) {
    pc.Retiring? || pc.LeavingSub? || pc.LeavingHub? || pc.Exited?
  }

  /** What a call knows about the lane it holds. */
  predicate CallOk(s: State, c: nat)
    requires c < |s.calls|
  {
    && s.calls[c].item.id == c
    && match s.calls[c].pc
       case Installing(l) => l < |s.lanes| && s.lanes[l].pc == Unborn && s.lanes[l].owner == c && l in s.hub
       case Abandoning(l, f) =>
         l < |s.lanes| && s.lanes[l].pc == Unborn && s.lanes[l].owner == c && (f.Some? ==> Published(s, f.value))
       case Spawning(l) => l < |s.lanes| && s.lanes[l].pc == Unstarted && s.lanes[l].owner == c
       case Pushing(l) => Published(s, l)
       case Dropping(l) => Published(s, l) && s.lanes[l].st.retired
       case _ => true
  }

  /** A lane is retired exactly when its drainer has stopped; while it is published
      and not retired, it is the one in the Sub's map and Quiesce can reach it. */
  predicate LaneRecOk(s: State, l: nat)
    requires l < |s.lanes|
  {
    var r := s.lanes[l];
    && LaneOk(r.st)
    && (r.st.retired <==> HasStopped(r.pc))
    && (r.pc == Unborn ==> r.st.q == [])
    && (r.pc != Unborn && !r.st.retired ==> s.cur == Some(l) && l in s.hub)
    && (r.pc == Unstarted ==> r.owner < |s.calls| && s.calls[r.owner].pc == Spawning(l))
    && (r.pc.Running? ==> r.pc.item.id < |s.calls| && s.calls[r.pc.item.id].pc == Accepted)
  }

  ghost predicate Struct(s: State) {
    && (forall c :: 0 <= c < |s.calls| ==> CallOk(s, c))
    && (forall l :: 0 <= l < |s.lanes| ==> LaneRecOk(s, l))
    && (s.cur.Some? ==> Published(s, s.cur.value))
  }

  // ── the history ──────────────────────────────────────────────────────────

  /** The items queued now: those of the lane in the Sub's map. */
  function Pending(s: State): seq<Item> {
    if s.cur.Some? && s.cur.value < |s.lanes| then s.lanes[s.cur.value].st.q else []
  }

  function LeftItems(left: seq<Left>): (r: seq<Item>)
    ensures |r| == |left| && forall i :: 0 <= i < |left| ==> r[i] == left[i].item
  {
    seq(|left|, i requires 0 <= i < |left| => left[i].item)
  }

  ghost predicate Distinct(items: seq<Item>) {
    forall i, j :: 0 <= i < j < |items| ==> items[i].id != items[j].id
  }

  /** Accepted items have left the queue, in order, or are queued, in order; each
      belongs to its own call. */
  ghost predicate Hist(s: State) {
    && s.accepted == LeftItems(s.left) + Pending(s)
    && Distinct(s.accepted)
    && forall i :: 0 <= i < |s.accepted| ==>
         var c := s.accepted[i].id;
         c < |s.calls| && s.calls[c].pc == Accepted && s.calls[c].item == s.accepted[i]
  }

  /** Only the lane in the map holds items. */
  lemma QueuedIsPending(s: State, l: nat)
    requires Struct(s) && l < |s.lanes| && s.lanes[l].st.q != []
    ensures s.cur == Some(l) && Pending(s) == s.lanes[l].st.q && !s.lanes[l].st.retired
  {
    assert LaneRecOk(s, l);
  }

  lemma PendingAccepted(s: State, l: nat, i: nat)
    requires Struct(s) && Hist(s) && l < |s.lanes| && i < |s.lanes[l].st.q|
    ensures s.lanes[l].st.q[i] in s.accepted
    ensures
      var item := s.lanes[l].st.q[i];
      item.id < |s.calls| && s.calls[item.id].pc == Accepted && s.calls[item.id].item == item
  {
    QueuedIsPending(s, l);
    assert s.accepted[|s.left| + i] == s.lanes[l].st.q[i];
  }

  /** A step that touches call c alone, and hands it a lane it may hold. */
  lemma OnlyCallMoves(s: State, s': State, c: nat)
    requires Struct(s) && CallAt(s, c)
    requires s' == s.(calls := s'.calls) && |s'.calls| == |s.calls|
    requires forall d :: 0 <= d < |s.calls| && d != c ==> s'.calls[d] == s.calls[d]
    requires CallOk(s', c)
    requires !s.calls[c].pc.Spawning? && s.calls[c].pc != Accepted
    ensures Struct(s')
  {
    forall d | 0 <= d < |s'.calls|
      ensures CallOk(s', d)
    {
      assert CallOk(s, d);
    }
    forall l | 0 <= l < |s'.lanes|
      ensures LaneRecOk(s', l)
    {
      assert LaneRecOk(s, l);
    }
  }

  /** A step of lane l's own that keeps its place and what others know of it. */
  lemma OnlyLaneMoves(s: State, s': State, l: nat)
    requires Struct(s) && DrainerAt(s, l) && s.lanes[l].pc != Unstarted
    requires
      s'.calls == s.calls ||
      (|s'.calls| == |s.calls|
       && forall d :: 0 <= d < |s.calls| ==> s'.calls[d].pc == s.calls[d].pc && s'.calls[d].item == s.calls[d].item)
    requires s'.hub == s.hub && s'.cur == s.cur && |s'.lanes| == |s.lanes|
    requires forall k :: 0 <= k < |s.lanes| && k != l ==> s'.lanes[k] == s.lanes[k]
    requires s'.lanes[l].owner == s.lanes[l].owner
    requires s.lanes[l].pc == Unborn <==> s'.lanes[l].pc == Unborn
    requires s'.lanes[l].pc != Unstarted
    requires s.lanes[l].st.retired ==> s'.lanes[l].st.retired
    requires LaneRecOk(s', l)
    ensures Struct(s')
  {
    forall d | 0 <= d < |s'.calls|
      ensures CallOk(s', d)
    {
      assert CallOk(s, d);
    }
    forall k | 0 <= k < |s'.lanes|
      ensures LaneRecOk(s', k)
    {
      assert LaneRecOk(s, k);
    }
  }

  // ── the steps of a Deliver call ──────────────────────────────────────────

  lemma NewCallKeeps(s: State, size: nat)
    requires Struct(s)
    ensures Struct(After(s, NewCall(size)))
  {
    var s' := After(s, NewCall(size));
    forall d | 0 <= d < |s'.calls|
      ensures CallOk(s', d)
    {
      if d < |s.calls| {
        assert CallOk(s, d);
      }
    }
    forall l | 0 <= l < |s'.lanes|
      ensures LaneRecOk(s', l)
    {
      assert LaneRecOk(s, l);
    }
  }

  lemma LookUpKeeps(s: State, c: nat)
    requires Struct(s) && Enabled(s, LookUp(c))
    ensures Struct(After(s, LookUp(c)))
  {
    assert CallOk(s, c);
    OnlyCallMoves(s, After(s, LookUp(c)), c);
  }

  lemma AddLaneKeeps(s: State, c: nat)
    requires Struct(s) && Enabled(s, AddLane(c))
    ensures Struct(After(s, AddLane(c)))
  {
    var s' := After(s, AddLane(c));
    assert CallOk(s, c);
    if HubClosing(s) {
      OnlyCallMoves(s, s', c);
    } else {
      forall d | 0 <= d < |s'.calls|
        ensures CallOk(s', d)
      {
        assert CallOk(s, d);
      }
      forall l | 0 <= l < |s'.lanes|
        ensures LaneRecOk(s', l)
      {
        if l < |s.lanes| {
          assert LaneRecOk(s, l);
        }
      }
    }
  }

  lemma InstallKeeps(s: State, c: nat)
    requires Struct(s) && Enabled(s, Install(c))
    ensures Struct(After(s, Install(c)))
  {
    var s' := After(s, Install(c));
    assert CallOk(s, c);
    if s.gone || s.cur.Some? {
      OnlyCallMoves(s, s', c);
    } else {
      forall d | 0 <= d < |s'.calls|
        ensures CallOk(s', d)
      {
        assert CallOk(s, d);
      }
      forall l | 0 <= l < |s'.lanes|
        ensures LaneRecOk(s', l)
      {
        assert LaneRecOk(s, l);
      }
    }
  }

  lemma AbandonKeeps(s: State, c: nat)
    requires Struct(s) && Enabled(s, Abandon(c))
    ensures Struct(After(s, Abandon(c)))
  {
    var s' := After(s, Abandon(c));
    assert CallOk(s, c);
    forall d | 0 <= d < |s'.calls|
      ensures CallOk(s', d)
    {
      assert CallOk(s, d);
    }
    forall l | 0 <= l < |s'.lanes|
      ensures LaneRecOk(s', l)
    {
      assert LaneRecOk(s, l);
    }
  }

  lemma SpawnKeeps(s: State, c: nat)
    requires Struct(s) && Enabled(s, Spawn(c))
    ensures Struct(After(s, Spawn(c)))
  {
    var s' := After(s, Spawn(c));
    assert CallOk(s, c);
    forall d | 0 <= d < |s'.calls|
      ensures CallOk(s', d)
    {
      assert CallOk(s, d);
    }
    forall l | 0 <= l < |s'.lanes|
      ensures LaneRecOk(s', l)
    {
      assert LaneRecOk(s, l);
    }
  }

  lemma PushItemKeeps(s: State, c: nat)
    requires Struct(s) && Enabled(s, PushItem(c))
    ensures Struct(After(s, PushItem(c)))
  {
    var s' := After(s, PushItem(c));
    assert CallOk(s, c);
    var l := s.calls[c].pc.lane;
    assert LaneRecOk(s, l);
    SectionsKeepLane(s.lanes[l].st, s.calls[c].item);
    match Push(s.lanes[l].st, s.calls[c].item).1
    case PushOK =>
      AcceptedKeeps(s, c, l, s');
    case PushFull => OnlyCallMoves(s, s', c);
    case PushRefused => OnlyCallMoves(s, s', c);
    case PushGone => OnlyCallMoves(s, s', c);
  }

  lemma AcceptedKeeps(s: State, c: nat, l: nat, s': State)
    requires Struct(s) && CallAt(s, c) && s.calls[c].pc == Pushing(l) && Published(s, l)
    requires s'.cur == s.cur && s'.hub == s.hub
    requires s'.calls == s.calls[c := s.calls[c].(pc := Accepted)]
    requires |s'.lanes| == |s.lanes| && s'.lanes == s.lanes[l := s.lanes[l].(st := s'.lanes[l].st)]
    requires LaneOk(s'.lanes[l].st) && s'.lanes[l].st.retired == s.lanes[l].st.retired
    ensures Struct(s')
  {
    hide LaneOk;
    forall d | 0 <= d < |s'.calls|
      ensures CallOk(s', d)
    {
      assert CallOk(s, d);
    }
    forall k | 0 <= k < |s'.lanes|
      ensures LaneRecOk(s', k)
    {
      assert LaneRecOk(s, k);
    }
  }

  lemma DropRetiredKeeps(s: State, c: nat)
    requires Struct(s) && Enabled(s, DropRetired(c))
    ensures Struct(After(s, DropRetired(c)))
  {
    var s' := After(s, DropRetired(c));
    assert CallOk(s, c);
    forall d | 0 <= d < |s'.calls|
      ensures CallOk(s', d)
    {
      assert CallOk(s, d);
    }
    forall l | 0 <= l < |s'.lanes|
      ensures LaneRecOk(s', l)
    {
      assert LaneRecOk(s, l);
    }
  }

  // ── the steps of a drainer ───────────────────────────────────────────────

  lemma TakeNextKeeps(s: State, l: nat)
    requires Struct(s) && Hist(s) && Enabled(s, TakeNext(l))
    ensures Struct(After(s, TakeNext(l)))
  {
    var s' := After(s, TakeNext(l));
    assert LaneRecOk(s, l);
    SectionsKeepLane(s.lanes[l].st, Item(0, 0));
    if s.lanes[l].st.q != [] && !s.lanes[l].st.quiesced {
      PendingAccepted(s, l, 0);
    }
    OnlyLaneMoves(s, s', l);
  }

  lemma RunStepKeeps(s: State, e: Event)
    requires Struct(s) && Enabled(s, e) && (e.Timeout? || e.EndRun?)
    ensures Struct(After(s, e))
  {
    assert LaneRecOk(s, e.l);
    OnlyLaneMoves(s, After(s, e), e.l);
  }

  lemma WaitStepKeeps(s: State, e: Event)
    requires Struct(s) && Enabled(s, e) && (e.Wake? || e.Idle? || e.MarkRetired?)
    ensures Struct(After(s, e))
  {
    assert LaneRecOk(s, e.l);
    SectionsKeepLane(s.lanes[e.l].st, Item(0, 0));
    OnlyLaneMoves(s, After(s, e), e.l);
  }

  lemma LeaveKeeps(s: State, e: Event)
    requires Struct(s) && Enabled(s, e) && (e.LeaveSub? || e.LeaveHub?)
    ensures Struct(After(s, e))
  {
    var s' := After(s, e);
    assert LaneRecOk(s, e.l);
    forall d | 0 <= d < |s'.calls|
      ensures CallOk(s', d)
    {
      assert CallOk(s, d);
    }
    forall l | 0 <= l < |s'.lanes|
      ensures LaneRecOk(s', l)
    {
      assert LaneRecOk(s, l);
    }
  }

  // ── the Sub's, the hub's and Quiesce's steps ─────────────────────────────

  /** A step that changes only what is inside lane l's critical section. */
  lemma OnlyStateMoves(s: State, s': State, l: nat)
    requires Struct(s) && DrainerAt(s, l)
    requires s'.calls == s.calls && s'.cur == s.cur && s'.hub == s.hub
    requires |s'.lanes| == |s.lanes| && s'.lanes == s.lanes[l := s.lanes[l].(st := s'.lanes[l].st)]
    requires LaneOk(s'.lanes[l].st) && s'.lanes[l].st.retired == s.lanes[l].st.retired
    requires s.lanes[l].st.q == [] ==> s'.lanes[l].st.q == []
    ensures Struct(s')
  {
    hide LaneOk;
    forall d | 0 <= d < |s'.calls|
      ensures CallOk(s', d)
    {
      assert CallOk(s, d);
    }
    forall k | 0 <= k < |s'.lanes|
      ensures LaneRecOk(s', k)
    {
      assert LaneRecOk(s, k);
    }
  }

  /** A step that changes no lane, no call and no set of lanes. */
  lemma NothingMoves(s: State, s': State)
    requires Struct(s) && s'.calls == s.calls && s'.lanes == s.lanes && s'.cur == s.cur && s'.hub == s.hub
    ensures Struct(s')
  {
    hide LaneOk;
    forall d | 0 <= d < |s'.calls|
      ensures CallOk(s', d)
    {
      assert CallOk(s, d);
    }
    forall k | 0 <= k < |s'.lanes|
      ensures LaneRecOk(s', k)
    {
      assert LaneRecOk(s, k);
    }
  }

  lemma OutsideKeeps(s: State, e: Event)
    requires Struct(s) && Enabled(s, e)
    requires e.SubGone? || e.CloseLane? || e.BeginQuiesce? || e.Snapshot? || e.QuiesceLane?
    ensures Struct(After(s, e))
  {
    var s' := After(s, e);
    match e
    case CloseLane(l) =>
      assert LaneRecOk(s, l);
      SectionsKeepLane(s.lanes[l].st, Item(0, 0));
      OnlyStateMoves(s, s', l);
    case QuiesceLane(l) =>
      assert LaneRecOk(s, l);
      SectionsKeepLane(s.lanes[l].st, Item(0, 0));
      OnlyStateMoves(s, s', l);
    case _ => NothingMoves(s, s');
  }

  lemma TellDiscardedKeeps(s: State)
    requires Struct(s) && Enabled(s, TellDiscarded)
    ensures Struct(After(s, TellDiscarded))
  {
    hide LaneOk;
    var s' := After(s, TellDiscarded);
    forall d | 0 <= d < |s'.calls|
      ensures CallOk(s', d)
    {
      assert CallOk(s, d);
    }
    forall l | 0 <= l < |s'.lanes|
      ensures LaneRecOk(s', l)
    {
      assert LaneRecOk(s, l);
    }
  }

  /** Every step keeps the structure. */
  lemma StructKept(s: State, e: Event)
    requires Struct(s) && Hist(s) && Enabled(s, e)
    ensures Struct(After(s, e))
  {
    hide After, Struct, Hist;
    match e
    case NewCall(size) => NewCallKeeps(s, size);
    case LookUp(c) => LookUpKeeps(s, c);
    case AddLane(c) => AddLaneKeeps(s, c);
    case Install(c) => InstallKeeps(s, c);
    case Abandon(c) => AbandonKeeps(s, c);
    case Spawn(c) => SpawnKeeps(s, c);
    case PushItem(c) => PushItemKeeps(s, c);
    case DropRetired(c) => DropRetiredKeeps(s, c);
    case TakeNext(l) => TakeNextKeeps(s, l);
    case Timeout(_) => RunStepKeeps(s, e);
    case EndRun(_) => RunStepKeeps(s, e);
    case Wake(_) => WaitStepKeeps(s, e);
    case Idle(_) => WaitStepKeeps(s, e);
    case MarkRetired(_) => WaitStepKeeps(s, e);
    case LeaveSub(_) => LeaveKeeps(s, e);
    case LeaveHub(_) => LeaveKeeps(s, e);
    case TellDiscarded => TellDiscardedKeeps(s);
    case _ => OutsideKeeps(s, e);
  }
}
