/**
What becomes of a Deliver call that nobody disturbs, and of a drainer that stops
(hub/lane.go:112-194, 305-314): from any state of any run of `LaneProtocol`.
*/
module LaneCalls {
  import opened Wrappers
  import opened Lanes
  import opened LaneProtocol
  import opened LaneInvariant
  import opened LaneTheorem

  /** The call's next step; none once it has been accepted or refused. */
  function Own(s: State, c: nat): Option<Event>
    requires CallAt(s, c)
  {
    match s.calls[c].pc
    case Looking => Some(LookUp(c))
    case Creating => Some(AddLane(c))
    case Installing(_) => Some(Install(c))
    case Abandoning(_, _) => Some(Abandon(c))
    case Spawning(_) => Some(Spawn(c))
    case Pushing(_) => Some(PushItem(c))
    case Dropping(_) => Some(DropRetired(c))
    case _ => None
  }

  /** n steps of the call, and of nobody else. */
  function Alone(s: State, c: nat, n: nat): State
    decreases n
  {
    if n == 0 || !CallAt(s, c) || Own(s, c).None? || !Enabled(s, Own(s, c).value) then s
    else Alone(After(s, Own(s, c).value), c, n - 1)
  }

  /** The Sub has a lane for the pane, and its drainer has not stopped. */
  predicate HasLiveLane(s: State) {
    s.cur.Some? && s.cur.value < |s.lanes| && !s.lanes[s.cur.value].st.retired
  }

  /** A lane takes the item: it is open, and both caps hold with it. */
  predicate HasRoom(l: LaneState, item: Item) {
    !l.quiesced && !l.closed && |l.q| < 256 && Bytes(l.q) + item.size <= 0x10_0000
  }

  /** The Sub is up; and its lane has room, or there is none and one may be made. */
  predicate IsWelcome(s: State, item: Item) {
    && !s.gone
    && if HasLiveLane(s) then HasRoom(s.lanes[s.cur.value].st, item)
       else s.quiescer == NotBegun && item.size <= 0x10_0000
  }

  /** The call has been refused and answered, once more than before; or accepted: its item is
      the last in the queue of the Sub's lane, which somebody drains. */
  ghost predicate IsSettled(s: State, c: nat, s': State, taken: bool) {
    && CallAt(s, c) && CallAt(s', c)
    && if taken then
         && s'.calls[c].pc == Accepted && s'.calls[c].replies == s.calls[c].replies
         && s'.accepted == s.accepted + [s.calls[c].item]
         && HasLiveLane(s')
         && var l := s'.lanes[s'.cur.value];
            l.st.q != [] && l.st.q[|l.st.q| - 1] == s.calls[c].item && (HasLiveLane(s) || l.pc == AtNext)
       else
         && s'.calls[c].pc == Refused && s'.calls[c].replies == s.calls[c].replies + 1
         && s'.accepted == s.accepted
  }

  lemma OneStep(s: State, c: nat, n: nat)
    requires CallAt(s, c) && Own(s, c).Some? && Enabled(s, Own(s, c).value) && n > 0
    ensures Alone(s, c, n) == Alone(After(s, Own(s, c).value), c, n - 1)
  {}

  lemma Settled(s: State, c: nat, n: nat)
    requires CallAt(s, c) && (s.calls[c].pc == Accepted || s.calls[c].pc == Refused)
    ensures Alone(s, c, n) == s
  {}

  /** At the lane it was given, which is alive. */
  lemma PushAlone(s: State, c: nat, n: nat)
    requires Struct(s) && CallAt(s, c) && s.calls[c].pc.Pushing? && n >= 1
    requires HasLiveLane(s) && s.cur == Some(s.calls[c].pc.lane)
    ensures IsSettled(s, c, Alone(s, c, n), HasRoom(s.lanes[s.cur.value].st, s.calls[c].item))
  {
    hide Alone;
    var l := s.cur.value;
    assert LaneRecOk(s, l);
    OneStep(s, c, n);
    var s' := After(s, PushItem(c));
    Settled(s', c, n - 1);
  }

  /** Where there is no lane, it makes one. */
  lemma MakeAlone(s: State, c: nat, n: nat)
    requires CallAt(s, c) && s.calls[c].pc == Looking && s.cur.None? && n >= 5
    ensures IsSettled(s, c, Alone(s, c, n), !s.gone && s.quiescer == NotBegun && s.calls[c].item.size <= 0x10_0000)
  {
    hide Alone, HasRoom;
    OneStep(s, c, n);
    var s1 := After(s, LookUp(c));
    if s.gone {
      Settled(s1, c, n - 1);
    } else {
      OneStep(s1, c, n - 1);
      var s2 := After(s1, AddLane(c));
      if HubClosing(s) {
        Settled(s2, c, n - 2);
      } else {
        NewLaneAlone(s2, c, n - 2);
      }
    }
  }

  lemma NewLaneAlone(s: State, c: nat, n: nat)
    requires |s.lanes| > 0 && s.lanes[|s.lanes| - 1].st == EMPTY_LANE
    requires CallAt(s, c) && s.calls[c].pc == Installing(|s.lanes| - 1) && s.cur.None? && !s.gone && n >= 3
    ensures IsSettled(s, c, Alone(s, c, n), s.calls[c].item.size <= 0x10_0000)
  {
    hide Alone;
    OneStep(s, c, n);
    var s1 := After(s, Install(c));
    OneStep(s1, c, n - 1);
    var s2 := After(s1, Spawn(c));
    OneStep(s2, c, n - 2);
    Settled(After(s2, PushItem(c)), c, n - 3);
  }

  /** A Deliver call that nobody disturbs comes to an end within eight steps, accepted
      exactly when it is welcome: on the lane there is, or, when there is none or its
      drainer has stopped, on one of its own making. */
  lemma CallAlone(s: State, c: nat)
    requires Inv(s) && CallAt(s, c) && s.calls[c].pc == Looking && s.calls[c].tries == 0
    ensures IsSettled(s, c, Alone(s, c, 8), IsWelcome(s, s.calls[c].item))
  {
    hide Alone, Hist, Swept, Apart, RepliesOk, HasRoom;
    if s.cur.None? {
      MakeAlone(s, c, 8);
    } else {
      var l := s.cur.value;
      assert LaneRecOk(s, l);
      OneStep(s, c, 8);
      var s1 := After(s, LookUp(c));
      if s.gone {
        Settled(s1, c, 7);
      } else {
        InvOverRuns(s, [LookUp(c)]);
        assert Final(s, [LookUp(c)]) == s1;
        if s.lanes[l].st.retired {
          RetryAlone(s1, c);
        } else {
          PushAlone(s1, c, 7);
        }
      }
    }
  }

  lemma RetryAlone(s: State, c: nat)
    requires CallAt(s, c) && s.calls[c].pc.Pushing? && s.cur == Some(s.calls[c].pc.lane) && s.calls[c].tries == 0
    requires s.cur.value < |s.lanes| && s.lanes[s.cur.value].st.retired && !s.gone
    ensures IsSettled(s, c, Alone(s, c, 7), s.quiescer == NotBegun && s.calls[c].item.size <= 0x10_0000)
  {
    hide Alone;
    OneStep(s, c, 7);
    var s1 := After(s, PushItem(c));
    OneStep(s1, c, 6);
    var s2 := After(s1, DropRetired(c));
    MakeAlone(s2, c, 5);
  }

  // ── calls that meet others ───────────────────────────────────────────────

  /** A call that made a lane while another one was installed lets its own go and takes the
      other; if the Sub is gone meanwhile, it is refused. */
  lemma SecondLane(s: State, c: nat)
    requires CallAt(s, c) && s.calls[c].pc.Installing? && s.calls[c].pc.lane < |s.lanes|
    requires s.gone || s.cur.Some?
    ensures var l := s.calls[c].pc.lane;
      var s' := Alone(s, c, 2);
      && CallAt(s', c) && l !in s'.hub && s'.lanes == s.lanes && s'.cur == s.cur
      && if s.gone then s'.calls[c].pc == Refused && s'.calls[c].replies == s.calls[c].replies + 1
         else s'.calls[c].pc == Pushing(s.cur.value) && s'.calls[c].replies == s.calls[c].replies
  {
    hide Alone;
    OneStep(s, c, 2);
    var s1 := After(s, Install(c));
    OneStep(s1, c, 1);
    var s2 := After(s1, Abandon(c));
    assert Alone(s2, c, 0) == s2 by {
      NoSteps(s2, c);
    }
  }

  lemma NoSteps(s: State, c: nat)
    ensures Alone(s, c, 0) == s
  {}

  /** A call that finds its lane retired takes it out of the map, if it is still there, and
      looks again; the eighth time it gives up. */
  lemma RetiredLane(s: State, c: nat)
    requires CallAt(s, c) && s.calls[c].pc.Dropping?
    ensures var s' := After(s, DropRetired(c));
      && s'.cur == (if s.cur == Some(s.calls[c].pc.lane) then None else s.cur)
      && s'.calls[c].tries == s.calls[c].tries + 1
      && (s.calls[c].tries <= 6 ==> s'.calls[c].pc == Looking && s'.calls[c].replies == s.calls[c].replies)
      && (s.calls[c].tries >= 7 ==> s'.calls[c].pc == Refused && s'.calls[c].replies == s.calls[c].replies + 1)
  {}

  // ── a drainer that stops ─────────────────────────────────────────────────

  /** A drainer that has been told to stop takes its lane out of the Sub's map, if it is
      the one there, and out of the hub, and is gone; nothing else changes. */
  lemma WindsDown(s: State, l: nat)
    requires DrainerAt(s, l) && s.lanes[l].pc == Retiring
    ensures IsRun(s, [MarkRetired(l), LeaveSub(l), LeaveHub(l)])
    ensures var s' := Final(s, [MarkRetired(l), LeaveSub(l), LeaveHub(l)]);
      && s'.cur == (if s.cur == Some(l) then None else s.cur) && s'.hub == s.hub - {l}
      && |s'.lanes| == |s.lanes| && s'.lanes[l].pc == Exited && s'.lanes[l].st == s.lanes[l].st.(retired := true)
      && (forall k :: 0 <= k < |s.lanes| && k != l ==> s'.lanes[k] == s.lanes[k])
      && s'.calls == s.calls && s'.accepted == s.accepted && s'.left == s.left && s'.quiescer == s.quiescer
  {
    hide After;
    var s1 := After(s, MarkRetired(l));
    Stops(s, l);
    var s2 := After(s1, LeaveSub(l));
    var s3 := After(s2, LeaveHub(l));
    RunOf(s3, LeaveHub(l), s2, []);
    RunOf(s2, LeaveSub(l), s1, [LeaveHub(l)]);
    RunOf(s1, MarkRetired(l), s, [LeaveSub(l), LeaveHub(l)]);
    assert [LeaveSub(l)] + [LeaveHub(l)] == [LeaveSub(l), LeaveHub(l)];
    assert [MarkRetired(l)] + [LeaveSub(l), LeaveHub(l)] == [MarkRetired(l), LeaveSub(l), LeaveHub(l)];
  }

  lemma RunOf(s': State, e: Event, s: State, es: seq<Event>)
    requires Enabled(s, e) && After(s, e) == s' && IsRun(s', es)
    ensures IsRun(s, [e] + es) && Final(s, [e] + es) == Final(s', es)
  {
    hide After;
    assert ([e] + es)[1..] == es;
  }

  lemma Stops(s: State, l: nat)
    requires DrainerAt(s, l) && s.lanes[l].pc == Retiring
    ensures var s1 := After(s, MarkRetired(l));
      Enabled(s1, LeaveSub(l)) && Enabled(After(s1, LeaveSub(l)), LeaveHub(l))
    ensures var s' := After(After(After(s, MarkRetired(l)), LeaveSub(l)), LeaveHub(l));
      s' == s.(cur := if s.cur == Some(l) then None else s.cur, hub := s.hub - {l},
               lanes := s.lanes[l := LaneRec(s.lanes[l].st.(retired := true), Exited, s.lanes[l].owner)])
  {}

  /** The lanes are closed only for a Sub that has gone. */
  lemma ClosedOnlyWhenGone(s: State, e: Event, l: nat)
    requires DrainerAt(s, l) && Enabled(s, e)
    ensures DrainerAt(After(s, e), l)
    ensures After(s, e).lanes[l].st.closed ==> s.lanes[l].st.closed || s.gone
    ensures e == CloseLane(l) ==> After(s, e).lanes[l].st.closed
  {}

  /** What ends things for good: a Sub that is gone stays so and is all that changed; Quiesce
      closes the hub first, once, and then takes every lane the hub has. */
  lemma EndsMean(s: State)
    ensures After(s, SubGone) == s.(gone := true)
    ensures Enabled(s, BeginQuiesce) <==> s.quiescer.NotBegun?
    ensures s.quiescer.NotBegun? ==>
      After(s, BeginQuiesce) == s.(quiescer := Closing) && HubClosing(After(s, BeginQuiesce))
    ensures Enabled(s, Snapshot) <==> s.quiescer.Closing?
    ensures s.quiescer.Closing? ==> After(s, Snapshot) == s.(quiescer := Sweeping(s.hub, []))
  {}
}
